/** One query session: create an index, parse the translation unit, run the
    query's callback on the cursor at the requested position, and release the
    translation unit and then the index, on the failed-parse path and on a
    normal return of the callback. */
module Session {

  import opened Wrappers
  import opened Clang
  import opened Location

  /** The requested position: line, column and file name, in that order. */
  datatype LocationTuple = LocationTuple(line: nat, column: nat, fileName: string)

  /** The front-end calls a session makes, as they happen. The index is created
      with "exclude declarations from precompiled headers" on and diagnostics
      display off, and the parse runs in "incomplete translation unit" mode;
      those fixed flags are not repeated in the events. */
  datatype Event =
    | CreateIndex
    | ParseTranslationUnit(fileName: string, args: seq<string>, parsed: bool)
    | InvokeCallback(cursor: Cursor)
    | DisposeTranslationUnit
    | DisposeIndex

  /** How many indexes and translation units are alive. */
  datatype Handles = Handles(indexes: nat, units: nat)

  /** The effect of one event on the live handles; None when the event uses or
      releases a handle that is not alive, or releases a translation unit once
      no index is left alive. */
  function Step(h: Handles, e: Event): Option<Handles>
  {
    match e
    case CreateIndex => Some(h.(indexes := h.indexes + 1))
    case ParseTranslationUnit(_, _, parsed) =>
      if h.indexes == 0 then None
      else if parsed then Some(h.(units := h.units + 1))
      else Some(h)
    case InvokeCallback(_) => if h.units == 0 then None else Some(h)
    case DisposeTranslationUnit =>
      if h.units == 0 || h.indexes == 0 then None else Some(h.(units := h.units - 1))
    case DisposeIndex => if h.indexes == 0 then None else Some(h.(indexes := h.indexes - 1))
  }

  /** The live handles after the events of `log`, starting from none; None when
      some event was illegal. */
  function Replay(log: seq<Event>): Option<Handles>
    decreases |log|
  {
    if log == [] then Some(Handles(0, 0))
    else match Replay(log[..|log| - 1])
      case None => None
      case Some(h) => Step(h, log[|log| - 1])
  }

  /** How many times the callback ran in `log`. */
  function CallbackCount(log: seq<Event>): nat
  {
    if log == [] then 0
    else (if log[0].InvokeCallback? then 1 else 0) + CallbackCount(log[1..])
  }

  /** The events of one call of `invoke_at_specific_location_with`. */
  function SessionTrace(loc: LocationTuple, args: seq<string>, parsed: Option<RankedAst>): seq<Event>
  {
    match parsed
    case None =>
      [CreateIndex, ParseTranslationUnit(loc.fileName, args, false), DisposeIndex]
    case Some(ast) =>
      [CreateIndex, ParseTranslationUnit(loc.fileName, args, true),
       InvokeCallback(ast.cursorAt(loc.fileName, loc.line, loc.column)),
       DisposeTranslationUnit, DisposeIndex]
  }

  lemma ReplayAppend(log: seq<Event>, e: Event)
    ensures Replay(log + [e]) == match Replay(log) case None => None case Some(h) => Step(h, e)
  {
    assert (log + [e])[..|log|] == log;
  }

  lemma ReplayStep(log: seq<Event>, h: Handles, e: Event)
    requires Replay(log) == Some(h)
    ensures Replay(log + [e]) == Step(h, e)
  {
    ReplayAppend(log, e);
  }

  lemma {:induction false} FailedSessionRestoresHandles(prior: seq<Event>, h: Handles, loc: LocationTuple,
                                                        args: seq<string>)
    requires Replay(prior) == Some(h)
    ensures Replay(prior + SessionTrace(loc, args, None)) == Some(h)
  {
    var h1 := h.(indexes := h.indexes + 1);
    var p0 := prior + [CreateIndex];
    var p1 := p0 + [ParseTranslationUnit(loc.fileName, args, false)];
    ReplayStep(prior, h, CreateIndex);
    ReplayStep(p0, h1, ParseTranslationUnit(loc.fileName, args, false));
    ReplayStep(p1, h1, DisposeIndex);
    assert prior + SessionTrace(loc, args, None) == p1 + [DisposeIndex];
  }

  lemma {:induction false} ParsedSessionRestoresHandles(prior: seq<Event>, h: Handles, loc: LocationTuple,
                                                        args: seq<string>, ast: RankedAst)
    requires Replay(prior) == Some(h)
    ensures Replay(prior + SessionTrace(loc, args, Some(ast))) == Some(h)
  {
    var c := ast.cursorAt(loc.fileName, loc.line, loc.column);
    var h1 := h.(indexes := h.indexes + 1);
    var hu := h1.(units := h.units + 1);
    var p0 := prior + [CreateIndex];
    var p1 := p0 + [ParseTranslationUnit(loc.fileName, args, true)];
    var p2 := p1 + [InvokeCallback(c)];
    var p3 := p2 + [DisposeTranslationUnit];
    ReplayStep(prior, h, CreateIndex);
    ReplayStep(p0, h1, ParseTranslationUnit(loc.fileName, args, true));
    ReplayStep(p1, hu, InvokeCallback(c));
    ReplayStep(p2, hu, DisposeTranslationUnit);
    ReplayStep(p3, h1, DisposeIndex);
    assert prior + SessionTrace(loc, args, Some(ast)) == p3 + [DisposeIndex];
  }

  lemma {:induction false} SessionCallbackCount(loc: LocationTuple, args: seq<string>, parsed: Option<RankedAst>)
    ensures CallbackCount(SessionTrace(loc, args, parsed)) == if parsed.Some? then 1 else 0
  {
    var t := SessionTrace(loc, args, parsed);
    assert CallbackCount([DisposeIndex]) == 0;
    if parsed.Some? {
      assert CallbackCount(t[3..]) == 0 by { assert t[3..][1..] == [DisposeIndex]; }
      assert CallbackCount(t[2..]) == 1 by { assert t[2..][1..] == t[3..]; }
      assert t[1..][1..] == t[2..];
    } else {
      assert t[1..][1..] == [DisposeIndex];
    }
  }

  /** A session releases every handle it acquires, never touches a handle that
      is not alive, disposes the translation unit while an index is still
      alive, and runs the callback once on a successful parse and never on a
      failed one. */
  lemma SessionReleasesWhatItAcquires(prior: seq<Event>, loc: LocationTuple, args: seq<string>,
                                      parsed: Option<RankedAst>)
    requires Replay(prior).Some?
    ensures Replay(prior + SessionTrace(loc, args, parsed)) == Replay(prior)
    ensures CallbackCount(SessionTrace(loc, args, parsed)) == if parsed.Some? then 1 else 0
  {
    match parsed {
      case None => FailedSessionRestoresHandles(prior, Replay(prior).value, loc, args);
      case Some(ast) => ParsedSessionRestoresHandles(prior, Replay(prior).value, loc, args, ast);
    }
    SessionCallbackCount(loc, args, parsed);
  }

  /** The front-end's handle table, with the log of the calls made on it. */
  class Frontend {
    var liveIndexes: nat
    var liveUnits: nat
    ghost var log: seq<Event>

    /** The counters are what replaying the log gives. */
    ghost predicate Valid()
      reads this
    {
      Replay(log) == Some(Handles(liveIndexes, liveUnits))
    }

    constructor ()
      ensures Valid() && log == []
    {
      liveIndexes, liveUnits := 0, 0;
      log := [];
    }

    /** `clang_createIndex`. */
    method CreateIndex()
      requires Valid()
      modifies this
      ensures Valid() && log == old(log) + [Event.CreateIndex]
      ensures liveIndexes == old(liveIndexes) + 1 && liveUnits == old(liveUnits)
    {
      ReplayAppend(log, Event.CreateIndex);
      liveIndexes := liveIndexes + 1;
      log := log + [Event.CreateIndex];
    }

    /** `clang_parseTranslationUnit`: the front-end's answer is the parameter
        `outcome`, None standing for a NULL translation unit. */
    method ParseTranslationUnit(fileName: string, args: seq<string>, outcome: Option<RankedAst>)
      returns (tu: Option<RankedAst>)
      requires Valid() && liveIndexes > 0
      modifies this
      ensures Valid() && tu == outcome
      ensures log == old(log) + [Event.ParseTranslationUnit(fileName, args, outcome.Some?)]
      ensures liveIndexes == old(liveIndexes)
      ensures liveUnits == old(liveUnits) + if outcome.Some? then 1 else 0
    {
      var e := Event.ParseTranslationUnit(fileName, args, outcome.Some?);
      ReplayAppend(log, e);
      if outcome.Some? {
        liveUnits := liveUnits + 1;
      }
      log := log + [e];
      tu := outcome;
    }

    /** `clang_disposeTranslationUnit`. */
    method DisposeTranslationUnit()
      requires Valid() && liveUnits > 0 && liveIndexes > 0
      modifies this
      ensures Valid() && log == old(log) + [Event.DisposeTranslationUnit]
      ensures liveIndexes == old(liveIndexes) && liveUnits == old(liveUnits) - 1
    {
      ReplayAppend(log, Event.DisposeTranslationUnit);
      liveUnits := liveUnits - 1;
      log := log + [Event.DisposeTranslationUnit];
    }

    /** `clang_disposeIndex`. */
    method DisposeIndex()
      requires Valid() && liveIndexes > 0
      modifies this
      ensures Valid() && log == old(log) + [Event.DisposeIndex]
      ensures liveIndexes == old(liveIndexes) - 1 && liveUnits == old(liveUnits)
    {
      ReplayAppend(log, Event.DisposeIndex);
      liveIndexes := liveIndexes - 1;
      log := log + [Event.DisposeIndex];
    }

    /** Records that the query's callback ran on `cursor` while a translation unit was alive. */
    ghost method RecordCallback(cursor: Cursor)
      requires Valid() && liveUnits > 0
      modifies this
      ensures Valid() && log == old(log) + [InvokeCallback(cursor)]
      ensures liveIndexes == old(liveIndexes) && liveUnits == old(liveUnits)
    {
      ReplayAppend(log, InvokeCallback(cursor));
      log := log + [InvokeCallback(cursor)];
    }
  }

  /** `invoke_at_specific_location_with`: on a failed parse the index is
      released and the empty record returned; otherwise the callback runs on
      the cursor at the requested line and column of the file, then the
      translation unit and the index are released and the callback's text is
      returned. The callback is taken to return normally. */
  method InvokeAtSpecificLocationWith(fe: Frontend, loc: LocationTuple, args: seq<string>,
                                      outcome: Option<RankedAst>, callback: (RankedAst, Cursor) -> string)
    returns (vimson: string)
    requires fe.Valid()
    modifies fe
    ensures fe.Valid()
    ensures fe.liveIndexes == old(fe.liveIndexes) && fe.liveUnits == old(fe.liveUnits)
    ensures fe.log == old(fe.log) + SessionTrace(loc, args, outcome)
    ensures outcome.None? ==> vimson == "{}"
    ensures outcome.Some? ==>
      vimson == callback(outcome.value, outcome.value.cursorAt(loc.fileName, loc.line, loc.column))
  {
    ghost var prior := fe.log;
    fe.CreateIndex();
    var tu := fe.ParseTranslationUnit(loc.fileName, args, outcome);
    ghost var parsedLog := prior + [CreateIndex, ParseTranslationUnit(loc.fileName, args, outcome.Some?)];
    assert fe.log == parsedLog;
    if tu.None? {
      fe.DisposeIndex();
      assert fe.log == parsedLog + [DisposeIndex] == prior + SessionTrace(loc, args, outcome);
      return "{}";
    }
    var ast := tu.value;
    var cursor := ast.cursorAt(loc.fileName, loc.line, loc.column);
    vimson := callback(ast, cursor);
    fe.RecordCallback(cursor);
    fe.DisposeTranslationUnit();
    fe.DisposeIndex();
    assert fe.log == parsedLog + [InvokeCallback(cursor), DisposeTranslationUnit, DisposeIndex]
                  == prior + SessionTrace(loc, args, outcome);
  }

  /** `get_extent`: a session whose callback is ExtentCallback. */
  method GetExtent(fe: Frontend, loc: LocationTuple, args: seq<string>, outcome: Option<RankedAst>,
                   pred: (RankedAst, Cursor) -> bool, stringizeRange: SourceRange -> string)
    returns (vimson: string)
    requires fe.Valid()
    modifies fe
    ensures fe.Valid() && IsRecord(vimson)
    ensures fe.log == old(fe.log) + SessionTrace(loc, args, outcome)
    ensures fe.liveIndexes == old(fe.liveIndexes) && fe.liveUnits == old(fe.liveUnits)
    ensures outcome.None? ==> vimson == "{}"
    ensures outcome.Some? ==>
      vimson == ExtentCallback(outcome.value, outcome.value.cursorAt(loc.fileName, loc.line, loc.column),
                               pred, stringizeRange)
  {
    vimson := InvokeAtSpecificLocationWith(fe, loc, args, outcome,
                                           (ast: RankedAst, c: Cursor) => ExtentCallback(ast, c, pred, stringizeRange));
  }

  /** `get_related_node_of`: a session whose callback is RelatedNodeCallback. */
  method GetRelatedNodeOf(fe: Frontend, loc: LocationTuple, args: seq<string>, outcome: Option<RankedAst>,
                          jump: (RankedAst, Cursor) -> Cursor,
                          stringizeCursor: (RankedAst, Cursor, Cursor) -> string)
    returns (vimson: string)
    requires fe.Valid()
    modifies fe
    ensures fe.Valid() && IsRecord(vimson)
    ensures fe.log == old(fe.log) + SessionTrace(loc, args, outcome)
    ensures fe.liveIndexes == old(fe.liveIndexes) && fe.liveUnits == old(fe.liveUnits)
    ensures outcome.None? ==> vimson == "{}"
    ensures outcome.Some? ==>
      vimson == RelatedNodeCallback(outcome.value, outcome.value.cursorAt(loc.fileName, loc.line, loc.column),
                                    jump, stringizeCursor)
  {
    vimson := InvokeAtSpecificLocationWith(fe, loc, args, outcome,
                                           (ast: RankedAst, c: Cursor) => RelatedNodeCallback(ast, c, jump, stringizeCursor));
  }
}
