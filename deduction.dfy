/** Type deduction at a cursor whose declared type is a placeholder (`auto`) or
    invalid, by a depth-first visit of its children. The front-end's AST is an
    inductive tree: a cursor is the subtree rooted at it. */
module Deduction {

  import opened Wrappers
  import opened Clang
  import opened AutoType

  /** A type as the front-end reports it: the invalid type, or a type with its spelling. */
  datatype Type = Invalid | Spelled(spelling: string)

  /** A cursor with its kind, its type and its children in visitation order. */
  datatype Node = Node(kind: CursorKind, ty: Type, children: seq<Node>)

  /** The answers a child visitor gives back to the front-end's visitation loop. */
  datatype VisitResult = Break | Continue

  /** The type is invalid or its spelling names a placeholder: it must be deduced. */
  predicate NeedsDeduction(t: Type)
  {
    t.Invalid? || HasStandaloneAuto(t.spelling)
  }

  /** A concrete type: valid and not a placeholder. */
  predicate IsConcrete(t: Type)
  {
    !NeedsDeduction(t)
  }

  /** The value left in the visitor's out-parameter after the front-end has
      visited the sibling list `cs` with the deducer, starting from `data`. A
      concrete child is written and ends this sibling list; any other child is
      descended into, and the visit carries on with its next sibling. */
  function Visited(cs: seq<Node>, data: Type): Type
    decreases cs
  {
    if cs == [] then data
    else if IsConcrete(cs[0].ty) then cs[0].ty
    else Visited(cs[1..], Visited(cs[0].children, data))
  }

  /** The type deduction yields for a cursor. */
  function DeducedType(n: Node): Type
  {
    if IsConcrete(n.ty) then n.ty else Visited(n.children, Invalid)
  }

  /** The values written to the out-parameter while visiting `cs`, in order. */
  function Writes(cs: seq<Node>): seq<Type>
    decreases cs
  {
    if cs == [] then []
    else if IsConcrete(cs[0].ty) then [cs[0].ty]
    else Writes(cs[0].children) + Writes(cs[1..])
  }

  /** All cursors of the forest `cs`, each before its descendants. */
  function Preorder(cs: seq<Node>): seq<Node>
    decreases cs
  {
    if cs == [] then [] else [cs[0]] + Preorder(cs[0].children) + Preorder(cs[1..])
  }

  /** The type of the first cursor of `ns` whose type is concrete. */
  function FirstConcrete(ns: seq<Node>): Option<Type>
  {
    if ns == [] then None
    else if IsConcrete(ns[0].ty) then Some(ns[0].ty)
    else FirstConcrete(ns[1..])
  }

  /** A "first success wins" search: the first concrete type met in a
      depth-first visit, the behaviour one would expect if a Break reached
      from a nested visit ended the outer visits too. */
  function FirstSuccess(n: Node): Type
  {
    if IsConcrete(n.ty) then n.ty
    else match FirstConcrete(Preorder(n.children))
      case None => Invalid
      case Some(t) => t
  }

  /** Some cursor of the sibling list itself has a concrete type, so its visit ends in Break. */
  predicate BreaksIn(cs: seq<Node>)
  {
    exists k :: 0 <= k < |cs| && IsConcrete(cs[k].ty)
  }

  /** `unexposed_type_deducer`: the child visitor. A concrete type is written
      through the out-parameter and stops the sibling list; otherwise the
      cursor's own children are visited and the visitor answers Continue
      whatever that nested visit found. */
  method UnexposedTypeDeducer(cursor: Node, data: Type) returns (result: VisitResult, data': Type)
    decreases cursor
    ensures result == Break <==> IsConcrete(cursor.ty)
    ensures data' == Visited([cursor], data)
  {
    var t := cursor.ty;
    var placeholder := t.Invalid?;
    if !placeholder {
      placeholder := IsAutoType(t.spelling);
    }
    if placeholder {
      data' := VisitChildren(cursor.children, data);
      result := Continue;
    } else {
      data' := t;
      result := Break;
    }
  }

  /** The front-end's `clang_visitChildren` driven by the deducer: visit the
      children in order until the visitor answers Break. */
  method VisitChildren(children: seq<Node>, data: Type) returns (data': Type)
    decreases children
    ensures data' == Visited(children, data)
  {
    data' := data;
    var i := 0;
    while i < |children|
      invariant 0 <= i <= |children|
      invariant Visited(children, data) == Visited(children[i..], data')
    {
      var r;
      r, data' := UnexposedTypeDeducer(children[i], data');
      if r == Break {
        return;
      }
      i := i + 1;
    }
  }

  /** `deduce_type_at_cursor`: a concrete type is returned as it is; otherwise
      the children are visited with an out-parameter that starts Invalid. */
  method DeduceTypeAtCursor(cursor: Node) returns (t: Type)
    ensures t == DeducedType(cursor)
  {
    var ty := cursor.ty;
    var placeholder := ty.Invalid?;
    if !placeholder {
      placeholder := IsAutoType(ty.spelling);
    }
    if placeholder {
      t := VisitChildren(cursor.children, Invalid);
    } else {
      t := ty;
    }
  }

  /** The callback of `deduce_var_decl_type`: find the variable declaration
      with `searchKind`, deduce its type and serialize it with its canonical
      type, or answer the empty record. */
  method DeduceVarDeclType(cursor: Node, searchKind: Node -> Option<Node>,
                           stringizeType: Type -> string, canonical: Type -> Type)
    returns (vimson: string)
    ensures searchKind(cursor).None? ==> vimson == "{}"
    ensures searchKind(cursor).Some? && DeducedType(searchKind(cursor).value).Invalid? ==> vimson == "{}"
    ensures searchKind(cursor).Some? && !DeducedType(searchKind(cursor).value).Invalid? ==>
      var t := DeducedType(searchKind(cursor).value);
      IsConcrete(t) &&
      vimson == "{" + stringizeType(t) + "'canonical':{" + stringizeType(canonical(t)) + "}," + "}"
  {
    var varDecl := searchKind(cursor);
    if varDecl.None? {
      return "{}";
    }
    var varType := DeduceTypeAtCursor(varDecl.value);
    if varType.Invalid? {
      return "{}";
    }
    DeducedTypeSpec(varDecl.value);
    var result := "";
    result := result + stringizeType(varType);
    result := result + "'canonical':{" + stringizeType(canonical(varType)) + "},";
    vimson := "{" + result + "}";
  }

  /** The deduced value is the last value written, or the initial one if nothing was written. */
  lemma {:induction false} VisitedIsLastWrite(cs: seq<Node>, data: Type)
    decreases cs
    ensures Visited(cs, data) == if Writes(cs) == [] then data else Writes(cs)[|Writes(cs)| - 1]
  {
    if cs != [] && !IsConcrete(cs[0].ty) {
      VisitedIsLastWrite(cs[0].children, data);
      VisitedIsLastWrite(cs[1..], Visited(cs[0].children, data));
    }
  }

  /** Every value written is a concrete type carried by some cursor of the forest. */
  lemma {:induction false} WritesAreConcreteDescendants(cs: seq<Node>)
    decreases cs
    ensures forall w :: w in Writes(cs) ==> IsConcrete(w) && exists m :: m in Preorder(cs) && m.ty == w
  {
    if cs != [] {
      assert cs[0] in Preorder(cs);
      if !IsConcrete(cs[0].ty) {
        WritesAreConcreteDescendants(cs[0].children);
        WritesAreConcreteDescendants(cs[1..]);
        forall w | w in Writes(cs)
          ensures IsConcrete(w) && exists m :: m in Preorder(cs) && m.ty == w
        {
          if w in Writes(cs[0].children) {
            var m :| m in Preorder(cs[0].children) && m.ty == w;
            assert m in Preorder(cs);
          } else {
            var m :| m in Preorder(cs[1..]) && m.ty == w;
            assert m in Preorder(cs);
          }
        }
      }
    }
  }

  lemma {:induction false} FirstConcreteAppend(a: seq<Node>, b: seq<Node>)
    ensures FirstConcrete(a + b) == if FirstConcrete(a).Some? then FirstConcrete(a) else FirstConcrete(b)
  {
    if a == [] {
      assert a + b == b;
    } else {
      assert (a + b)[0] == a[0];
      assert (a + b)[1..] == a[1..] + b;
      FirstConcreteAppend(a[1..], b);
    }
  }

  /** The first value written is the first concrete type in depth-first
      order, and nothing is written exactly when the forest has no concrete type. */
  lemma {:induction false} FirstWriteIsFirstConcrete(cs: seq<Node>)
    decreases cs
    ensures Writes(cs) == [] <==> FirstConcrete(Preorder(cs)).None?
    ensures Writes(cs) != [] ==> FirstConcrete(Preorder(cs)) == Some(Writes(cs)[0])
  {
    if cs != [] {
      var p := Preorder(cs);
      var pc, pr := Preorder(cs[0].children), Preorder(cs[1..]);
      assert p == [cs[0]] + (pc + pr);
      assert p[0] == cs[0] && p[1..] == pc + pr;
      if !IsConcrete(cs[0].ty) {
        assert FirstConcrete(p) == FirstConcrete(pc + pr);
        FirstConcreteAppend(pc, pr);
        FirstWriteIsFirstConcrete(cs[0].children);
        FirstWriteIsFirstConcrete(cs[1..]);
      }
    }
  }

  /** What deduction promises: a concrete type is kept; otherwise the result is
      Invalid or the concrete type of some descendant, never a placeholder; it is
      Invalid exactly when no descendant is concrete, and it is the first
      child's type when that child is concrete. */
  lemma DeducedTypeSpec(n: Node)
    ensures IsConcrete(n.ty) ==> DeducedType(n) == n.ty
    ensures NeedsDeduction(n.ty) ==>
      DeducedType(n) == Invalid ||
      (IsConcrete(DeducedType(n)) && exists m :: m in Preorder(n.children) && m.ty == DeducedType(n))
    ensures DeducedType(n).Invalid? || !HasStandaloneAuto(DeducedType(n).spelling)
    ensures NeedsDeduction(n.ty) ==> (DeducedType(n) == Invalid <==> FirstConcrete(Preorder(n.children)).None?)
    ensures NeedsDeduction(n.ty) && n.children != [] && IsConcrete(n.children[0].ty) ==>
      DeducedType(n) == n.children[0].ty
  {
    if NeedsDeduction(n.ty) {
      VisitedIsLastWrite(n.children, Invalid);
      WritesAreConcreteDescendants(n.children);
      FirstWriteIsFirstConcrete(n.children);
      var w := Writes(n.children);
      if w != [] {
        assert w[|w| - 1] in w;
      }
    }
  }

  /** Visiting `a + b`: a concrete cursor of the sibling list `a` itself (not
      a nested one) ends the visit there, so `b` is never looked at; otherwise `b` is visited from whatever the visit of
      `a`, nested visits included, left behind. */
  lemma {:induction false} VisitedAppend(a: seq<Node>, b: seq<Node>, data: Type)
    ensures Visited(a + b, data) == if BreaksIn(a) then Visited(a, data) else Visited(b, Visited(a, data))
  {
    if a == [] {
      assert a + b == b;
    } else {
      assert (a + b)[0] == a[0];
      assert (a + b)[1..] == a[1..] + b;
      if !IsConcrete(a[0].ty) {
        VisitedAppend(a[1..], b, Visited(a[0].children, data));
        assert BreaksIn(a) ==> BreaksIn(a[1..]) by {
          if BreaksIn(a) {
            var k :| 0 <= k < |a| && IsConcrete(a[k].ty);
            assert a[1..][k - 1] == a[k];
          }
        }
        assert BreaksIn(a[1..]) ==> BreaksIn(a) by {
          if BreaksIn(a[1..]) {
            var k :| 0 <= k < |a[1..]| && IsConcrete(a[1..][k].ty);
            assert a[k + 1] == a[1..][k];
          }
        }
      } else {
        assert BreaksIn(a) by { assert IsConcrete(a[0].ty); }
      }
    }
  }

  /** When the visit writes at most once, the deduced type is what a "first
      success wins" search would return. */
  lemma SingleWriteAgreesWithFirstSuccess(n: Node)
    requires |Writes(n.children)| <= 1
    ensures DeducedType(n) == FirstSuccess(n)
  {
    if NeedsDeduction(n.ty) {
      VisitedIsLastWrite(n.children, Invalid);
      FirstWriteIsFirstConcrete(n.children);
    }
  }

  /** The deducer is not a "first success wins" search: the concrete `int`
      found under the first (invalid) child is overwritten by the later
      sibling's `long`. */
  lemma LaterSiblingOverwrites()
    ensures var n := Node(VarDecl, Spelled("auto"),
                          [Node(OtherKind("CallExpr"), Invalid, [Node(OtherKind("IntegerLiteral"), Spelled("int"), [])]),
                           Node(OtherKind("DeclRefExpr"), Spelled("long"), [])]);
      DeducedType(n) == Spelled("long") && FirstSuccess(n) == Spelled("int")
  {
    var lit := Node(OtherKind("IntegerLiteral"), Spelled("int"), []);
    var call := Node(OtherKind("CallExpr"), Invalid, [lit]);
    var ref := Node(OtherKind("DeclRefExpr"), Spelled("long"), []);
    var n := Node(VarDecl, Spelled("auto"), [call, ref]);
    assert StandaloneAt("auto", 0);
    assert !HasStandaloneAuto("int");
    assert !StandaloneAt("long", 0) by { assert "long"[0..4][0] == 'l'; }
    assert Visited([lit], Invalid) == Spelled("int");
    assert Visited([call, ref], Invalid) == Visited([ref], Spelled("int"));
    assert Preorder([call, ref]) == [call, lit, ref] by {
      assert Preorder([lit]) == [lit];
      assert Preorder([ref]) == [ref];
      assert [call, ref][1..] == [ref];
    }
  }
}
