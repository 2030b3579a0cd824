/** Upward search along semantic parents, and the two result builders that
    turn the cursor it finds into a record. Cursors are ids into one parsed
    translation unit; the front-end's queries on them are the fields of `Ast`. */
module Location {

  import opened Clang

  /** A cursor of the translation unit, or the front-end's null cursor. */
  datatype Cursor = NullCursor | Cursor(id: nat)

  datatype SourcePosition = SourcePosition(line: nat, column: nat, offset: nat, file: string)

  /** A cursor's extent: where it starts and where it ends. */
  datatype SourceRange = SourceRange(start: SourcePosition, end: SourcePosition)

  /** What the front-end answers about the cursors of one translation unit:
      kind, semantic parent and extent of each cursor, the cursor found at a
      file, line and column, and a depth that every step to a semantic parent
      of a valid-kind cursor lowers. The front-end does not expose `depth`; it
      encodes the assumption that every semantic-parent chain ends. */
  datatype Ast = Ast(
    kindOf: nat -> CursorKind,
    semanticParent: nat -> Cursor,
    depth: nat -> nat,
    extentOf: nat -> SourceRange,
    cursorAt: (string, nat, nat) -> Cursor)

  /** `clang_getCursorKind`: the null cursor's kind is InvalidFile. */
  function KindOf(ast: Ast, c: Cursor): CursorKind
  {
    if c.NullCursor? then InvalidFile else ast.kindOf(c.id)
  }

  /** `clang_getCursorSemanticParent`: the null cursor has no parent. */
  function SemanticParent(ast: Ast, c: Cursor): Cursor
  {
    if c.NullCursor? then NullCursor else ast.semanticParent(c.id)
  }

  function Depth(ast: Ast, c: Cursor): nat
  {
    if c.NullCursor? then 0 else ast.depth(c.id)
  }

  /** Every semantic-parent step from a valid-kind cursor goes strictly down in depth. */
  ghost predicate Ranked(ast: Ast)
  {
    forall c: Cursor :: !IsInvalid(KindOf(ast, c)) ==> Depth(ast, SemanticParent(ast, c)) < Depth(ast, c)
  }

  /** A translation unit whose semantic-parent chains all end. */
  type RankedAst = ast: Ast | Ranked(ast)
    witness Ast(_ => InvalidFile, _ => NullCursor, _ => 0,
                _ => SourceRange(SourcePosition(0, 0, 0, ""), SourcePosition(0, 0, 0, "")),
                (_, _, _) => NullCursor)

  /** The cursors met walking semantic parents from `c`, up to (not including)
      the first one of invalid kind. */
  function Chain(ast: RankedAst, c: Cursor): seq<Cursor>
    decreases Depth(ast, c)
  {
    if IsInvalid(KindOf(ast, c)) then [] else [c] + Chain(ast, SemanticParent(ast, c))
  }

  /** The result of `search_AST_upward`: the first cursor met walking semantic
      parents from `c` that satisfies `pred`, or the null cursor once a cursor
      of invalid kind is reached. */
  function UpwardSearch(ast: RankedAst, c: Cursor, pred: (RankedAst, Cursor) -> bool): Cursor
    decreases Depth(ast, c)
  {
    if IsInvalid(KindOf(ast, c)) then NullCursor
    else if pred(ast, c) then c
    else UpwardSearch(ast, SemanticParent(ast, c), pred)
  }

  /** `search_AST_upward`: the loop over semantic parents. */
  method SearchAstUpward(ast: RankedAst, cursor: Cursor, pred: (RankedAst, Cursor) -> bool) returns (r: Cursor)
    ensures r == UpwardSearch(ast, cursor, pred)
  {
    var c := cursor;
    while !IsInvalid(KindOf(ast, c))
      invariant UpwardSearch(ast, c, pred) == UpwardSearch(ast, cursor, pred)
      decreases Depth(ast, c)
    {
      if pred(ast, c) {
        return c;
      }
      c := SemanticParent(ast, c);
    }
    return NullCursor;
  }

  /** The chain starts at `c`, links each cursor to its semantic parent, holds
      only valid-kind cursors, and ends where the next parent has invalid kind. */
  lemma {:induction false} ChainIsParentPath(ast: RankedAst, c: Cursor)
    decreases Depth(ast, c)
    ensures var ch := Chain(ast, c);
      && (ch == [] <==> IsInvalid(KindOf(ast, c)))
      && (ch != [] ==> ch[0] == c)
      && (forall i :: 0 <= i < |ch| ==> !IsInvalid(KindOf(ast, ch[i])))
      && (forall i :: 0 <= i < |ch| - 1 ==> ch[i + 1] == SemanticParent(ast, ch[i]))
      && (ch != [] ==> IsInvalid(KindOf(ast, SemanticParent(ast, ch[|ch| - 1]))))
  {
    if !IsInvalid(KindOf(ast, c)) {
      var p := SemanticParent(ast, c);
      ChainIsParentPath(ast, p);
      var ch := Chain(ast, c);
      assert ch[1..] == Chain(ast, p);
      forall i | 0 <= i < |ch| - 1
        ensures ch[i + 1] == SemanticParent(ast, ch[i])
      {
        if i > 0 {
          assert ch[i + 1] == Chain(ast, p)[i] && ch[i] == Chain(ast, p)[i - 1];
        }
      }
    }
  }

  /** The search returns the nearest cursor on the chain that satisfies the
      predicate; it returns null exactly when none does, in particular when the
      starting cursor has invalid kind. */
  lemma {:induction false} UpwardSearchIsNearest(ast: RankedAst, c: Cursor, pred: (RankedAst, Cursor) -> bool)
    decreases Depth(ast, c)
    ensures UpwardSearch(ast, c, pred).NullCursor? <==>
      forall i :: 0 <= i < |Chain(ast, c)| ==> !pred(ast, Chain(ast, c)[i])
    ensures UpwardSearch(ast, c, pred).Cursor? ==>
      exists i :: 0 <= i < |Chain(ast, c)| && Chain(ast, c)[i] == UpwardSearch(ast, c, pred)
                  && pred(ast, UpwardSearch(ast, c, pred))
                  && forall j :: 0 <= j < i ==> !pred(ast, Chain(ast, c)[j])
    ensures IsInvalid(KindOf(ast, c)) ==> UpwardSearch(ast, c, pred).NullCursor?
  {
    if !IsInvalid(KindOf(ast, c)) {
      var p := SemanticParent(ast, c);
      var ch := Chain(ast, c);
      assert ch[0] == c && ch[1..] == Chain(ast, p);
      if !pred(ast, c) {
        UpwardSearchIsNearest(ast, p, pred);
        var r := UpwardSearch(ast, p, pred);
        if r.Cursor? {
          var i :| 0 <= i < |Chain(ast, p)| && Chain(ast, p)[i] == r && pred(ast, r)
                   && forall j :: 0 <= j < i ==> !pred(ast, Chain(ast, p)[j]);
          assert ch[i + 1] == r;
          forall j | 0 <= j < i + 1 ensures !pred(ast, ch[j]) {
            if j > 0 { assert ch[j] == Chain(ast, p)[j - 1]; }
          }
        } else {
          forall i | 0 <= i < |ch| ensures !pred(ast, ch[i]) {
            if i > 0 { assert ch[i] == Chain(ast, p)[i - 1]; }
          }
        }
      }
    }
  }

  /** A well-formed non-empty record: opens with `{` and closes with `}`. */
  predicate IsRecord(s: string)
  {
    |s| >= 2 && s[0] == '{' && s[|s| - 1] == '}'
  }

  /** The callback of `get_extent`: the extent of the nearest cursor on the
      semantic-parent chain that satisfies `pred`, or the empty record. */
  function ExtentCallback(ast: RankedAst, c: Cursor, pred: (RankedAst, Cursor) -> bool,
                          stringizeRange: SourceRange -> string): (vimson: string)
    ensures IsRecord(vimson)
    ensures var ch := Chain(ast, c);
      (forall i :: 0 <= i < |ch| ==> !pred(ast, ch[i])) ==> vimson == "{}"
    ensures var ch := Chain(ast, c);
      (exists i :: 0 <= i < |ch| && pred(ast, ch[i])) ==>
        exists i :: 0 <= i < |ch| && pred(ast, ch[i]) && (forall j :: 0 <= j < i ==> !pred(ast, ch[j]))
                    && ch[i].Cursor? && vimson == "{" + stringizeRange(ast.extentOf(ch[i].id)) + "}"
  {
    UpwardSearchIsNearest(ast, c, pred);
    var rc := UpwardSearch(ast, c, pred);
    if rc.NullCursor? then "{}"
    else "{" + stringizeRange(ast.extentOf(rc.id)) + "}"
  }

  /** The callback of `get_related_node_of`: jump from the cursor, and
      serialize the target with its semantic parent unless it has invalid kind. */
  function RelatedNodeCallback(ast: RankedAst, c: Cursor, jump: (RankedAst, Cursor) -> Cursor,
                               stringizeCursor: (RankedAst, Cursor, Cursor) -> string): (vimson: string)
    ensures IsRecord(vimson)
    ensures vimson == "{}" <==>
      (IsInvalid(KindOf(ast, jump(ast, c))) || stringizeCursor(ast, jump(ast, c), SemanticParent(ast, jump(ast, c))) == "")
    ensures !IsInvalid(KindOf(ast, jump(ast, c))) ==>
      var rc := jump(ast, c);
      rc.Cursor? && vimson == "{" + stringizeCursor(ast, rc, SemanticParent(ast, rc)) + "}"
  {
    var rc := jump(ast, c);
    if IsInvalid(KindOf(ast, rc)) then "{}"
    else "{" + stringizeCursor(ast, rc, SemanticParent(ast, rc)) + "}"
  }
}
