/** The few facts about the compiler front-end's cursor kinds that the core relies on. */
module Clang {

  /** Cursor kinds. Only VarDecl and the invalid kinds are told apart by the core;
      every other kind is carried by name. */
  datatype CursorKind =
    | VarDecl
    | InvalidFile
    | NoDeclFound
    | NotImplemented
    | InvalidCode
    | OtherKind(name: string)

  /** The front-end's `clang_isInvalid`: the kinds from InvalidFile to InvalidCode. */
  predicate IsInvalid(k: CursorKind)
  {
    k.InvalidFile? || k.NoDeclFound? || k.NotImplemented? || k.InvalidCode?
  }
}
