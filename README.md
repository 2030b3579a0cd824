# libclang-vim: location resolution and type deduction, modelled in Dafny

libclang-vim is a C-callable library that an editor plugin queries with a
source position. It parses the translation unit with libclang, takes the AST
cursor at that position, and answers with a "vimson" record: a
Python-literal-like text that is `{}` when nothing is found. This project
models the core of two of its headers and proves properties of that model:

- `lib/libclang-vim/deduction.hpp` (modules `AutoType` and `Deduction`):
  - `is_auto_type`: placeholder detection, a `while` loop over the
    occurrences of `auto`;
  - the visitor `unexposed_type_deducer` with `clang_visitChildren`: mutually
    recursive methods that thread the visitor's out-parameter;
  - `deduce_type_at_cursor`;
  - the callback of `deduce_var_decl_type`.
- `lib/location.hpp` (modules `Location` and `Session`):
  - `search_AST_upward`: a loop over semantic parents;
  - the callbacks of `get_extent` and `get_related_node_of`;
  - `invoke_at_specific_location_with`: a method on a `Frontend` class. The
    class counts live index and translation-unit handles and keeps a ghost
    log of the front-end calls. Its invariant ties the counters to a replay
    of that log.

The libclang API is replaced by abstract data:

- For deduction, a cursor is an inductive tree `Node(kind, ty, children)`.
  A type is `Invalid` or `Spelled(spelling)`.
- For the upward search, a cursor is `NullCursor` or an id. The
  translation unit is a record of functions: kind, semantic parent, extent,
  cursor at a position, and a `depth`.
- `depth` is not part of libclang. It encodes the assumption that every
  semantic-parent chain ends. The type `RankedAst` requires each step from a
  valid-kind cursor to its parent to lower the depth, and this is what makes
  the loop terminate.
- The other facts taken about the front-end are: the null cursor has kind
  InvalidFile and is its own semantic parent, and `clang_createIndex`
  always succeeds.

`Wrappers` holds `Option` and `Clang` holds the cursor kinds. Both are
shared by the other modules.

## The deducer is not "first success wins"

A natural description of the deducer is a depth-first search that stops at
the first concrete type, with Break propagating upward. The code does not do
that.

- A concrete child is written to the out-parameter, and Break ends *its own*
  sibling list (`deduction.hpp:48-49`).
- A placeholder or invalid child is descended into. Its visitor then answers
  Continue whatever it found (`deduction.hpp:45-46`).
- So an outer sibling visited later can overwrite a type found deeper in an
  earlier sibling.

The model follows the code:

- `Deduction.VisitedIsLastWrite` proves that the result is the *last* value
  written.
- `Deduction.FirstWriteIsFirstConcrete` proves that the *first* write is the
  first concrete type in depth-first order. `Deduction.FirstSuccess` is that
  "first success" reading.
- The two agree whenever at most one write happens
  (`Deduction.SingleWriteAgreesWithFirstSuccess`).
- `Deduction.LaterSiblingOverwrites` gives a tree where they differ: an
  `auto` declaration whose first child is invalid with an `int` below it,
  and whose second child is a `long`. Deduction yields `long`; the
  first-success reading yields `int`.

## Model

| member | source | states |
|---|---|---|
| `AutoType.FindAuto` | lib/libclang-vim/deduction.hpp:18-20 | the search used by the scan (`std::string::find("auto", from)`) returns the first position at or after `from` where `auto` is spelled, with none before it; None (`npos`) when no such position exists |
| `AutoType.IsAutoType` | lib/libclang-vim/deduction.hpp:16-38 | true exactly when some occurrence of `auto` is preceded by the string start or a non-identifier character, and followed by the string end or a non-identifier character. Not in the `ensures` but checked by verifying the body: every index read is inside the string, and a rejected occurrence makes the scan resume one position further on |
| `AutoType.StandaloneExamples` | lib/libclang-vim/deduction.hpp:22-34 | `"auto"` and `"const auto&"` name placeholder types |
| `AutoType.SkippedOccurrenceExample` | lib/libclang-vim/deduction.hpp:18-34 | in `"x_auto auto"` the first occurrence is rejected and the string still names a placeholder through the second one |
| `AutoType.NotStandaloneExamples` | lib/libclang-vim/deduction.hpp:22-37 | `"autos"`, `"my_autoType"` and `""` do not name placeholder types |
| `Deduction.UnexposedTypeDeducer` | lib/libclang-vim/deduction.hpp:40-51 | answers Break exactly when the cursor's type is concrete; the out-parameter then holds that type, otherwise what visiting the cursor's children left in it |
| `Deduction.VisitChildren` | lib/libclang-vim/deduction.hpp:45 | visiting a sibling list with the deducer leaves the value `Visited` describes: a concrete sibling ends the list, any other sibling is descended into and the list goes on |
| `Deduction.DeduceTypeAtCursor` | lib/libclang-vim/deduction.hpp:53-65 | returns `DeducedType`: the cursor's own type when concrete, otherwise the children's visit started from Invalid |
| `Deduction.DeduceVarDeclType` | lib/libclang-vim/deduction.hpp:76-89 | `{}` when no VarDecl cursor is found or its deduced type is Invalid; otherwise the deduced type, which is concrete, serialized with its canonical type as `{T'canonical':{C},}` |
| `Deduction.VisitedIsLastWrite` | lib/libclang-vim/deduction.hpp:44-50 | the deduced value is the last value written to the out-parameter, or the initial value when nothing is written |
| `Deduction.WritesAreConcreteDescendants` | lib/libclang-vim/deduction.hpp:44-49 | every value written is concrete and is the type of some cursor of the visited forest |
| `Deduction.FirstWriteIsFirstConcrete` | lib/libclang-vim/deduction.hpp:44-50 | nothing is written exactly when no cursor of the forest has a concrete type; the first write is the first concrete type in depth-first order |
| `Deduction.DeducedTypeSpec` | lib/libclang-vim/deduction.hpp:44-64 | a concrete type is kept unchanged; otherwise the result is Invalid or the concrete type of a descendant, never a placeholder; Invalid exactly when no descendant is concrete; the first child's type when that child is concrete |
| `Deduction.VisitedAppend` | lib/libclang-vim/deduction.hpp:44-50 | visiting `a + b` never looks at `b` once a cursor of the sibling list `a` itself (not a nested one) is concrete; otherwise `b` is visited from what `a`'s visit, nested visits included, left behind |
| `Deduction.SingleWriteAgreesWithFirstSuccess` | lib/libclang-vim/deduction.hpp:44-61 | with at most one write, deduction returns the first concrete type in depth-first order |
| `Deduction.LaterSiblingOverwrites` | lib/libclang-vim/deduction.hpp:44-50 | on a concrete tree, a later outer sibling overwrites a type found under an earlier invalid sibling, so deduction differs from the first-success reading |
| `Location.SearchAstUpward` | lib/location.hpp:21-30 | the loop returns `UpwardSearch`: the first cursor on the semantic-parent walk that satisfies the predicate, or null once a cursor of invalid kind is reached |
| `Location.ChainIsParentPath` | lib/location.hpp:23-27 | the walk starts at the given cursor, goes from each cursor to its semantic parent, holds only valid-kind cursors, and stops where the next parent has invalid kind |
| `Location.UpwardSearchIsNearest` | lib/location.hpp:21-30 | the result is null exactly when no cursor on the walk satisfies the predicate; otherwise it is on the walk, satisfies the predicate, and no earlier cursor does; an invalid-kind start yields null |
| `Location.ExtentCallback` | lib/location.hpp:74-81 | always a record; `{}` when no cursor on the semantic-parent walk satisfies the predicate, otherwise the braced extent of the nearest one that does |
| `Location.RelatedNodeCallback` | lib/location.hpp:98-104 | always a record; `{}` when the jump target has invalid kind, otherwise the braced serialization of the target with its semantic parent |
| `Session.SessionReleasesWhatItAcquires` | lib/location.hpp:43-57 | a session's calls never use or release a dead handle, release the translation unit while an index is alive, and leave the live handles as they found them; the callback runs once on a parsed unit and never on a failed parse |
| `Session.InvokeAtSpecificLocationWith` | lib/location.hpp:33-60 | failed parse: `{}`, with only the index created and disposed; otherwise the callback runs once, on the cursor at the requested line and column of the file, then the translation unit and then the index are disposed, and the callback's text is returned; no handle leaks when the callback returns normally |
| `Session.GetExtent` | lib/location.hpp:64-84 | a session whose answer is the extent callback's record, or `{}` on a failed parse |
| `Session.GetRelatedNodeOf` | lib/location.hpp:88-107 | a session whose answer is the related-node callback's record, or `{}` on a failed parse |

## Left out

- libclang itself is not modelled: parsing, `clang_getCursor`, `clang_getFile`, `clang_getLocation`, type spelling, the canonical type and extents. They are foreign calls; the model receives their answers as data (`Node`, `Ast`) or as function parameters.
- `stringize_type`, `stringize_range`, `stringize_cursor`, `search_kind`, `cxstring_ptr`, `at_specific_location` and location-string parsing are not part of this model (they live in `helpers.hpp` and `stringizers.hpp`). They appear only as uninterpreted function parameters.
- `Deduction.DeduceVarDeclType`: only the callback is modelled. The session that `at_specific_location` wraps around it is in `helpers.hpp`.
- The functions declared without a body in `lib/libclang-vim/deduction.hpp:94-120` are left out: completion, diagnostics, compile commands, comments, includes, function and return-type lookups.
- The `static std::string vimson` buffer, whose `c_str()` is returned, is left out. It is a C-ABI lifetime device, so results are returned by value.
- `std::isalnum` is taken in the "C" locale, as ASCII letters and digits. Its undefined behaviour on negative `char` values is not modelled.
- The conversion of a spelling to a C string is not modelled, so an embedded NUL does not cut the spelling short.
- Unsaved-buffer (`#`) path handling does not appear in these files and is left out.
- `qa/location.cpp` is left out. Its integration tests load the shared library and depend on the parser and the serializers.
- `Location.SearchAstUpward`: termination rests on the `depth` ranking of `RankedAst`, which is assumed. The C++ loop has no bound and ends only if libclang's semantic-parent chains end.
- `Session.InvokeAtSpecificLocationWith`: callbacks are assumed to return normally. The C++ code has no guard around the callback call (`lib/location.hpp:54`), so a callback that throws leaks both the translation unit and the index; the model has no such path.
- The two uses of cursors are modelled apart: a tree for the downward deduction and ids with parent links for the upward search. The model does not state that they describe the same translation unit.
- The `Frontend` class counts live indexes and translation units. It does not track which handle is which, so it cannot say which index a unit belongs to. The fixed creation and parse flags are named in comments, not recorded in the events.
- `CXType` is reduced to its invalid kind and its spelling. Its other kinds and data are left out.
