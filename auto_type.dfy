/** Placeholder-type detection: does a type spelling contain the keyword `auto`
    as a word of its own? */
module AutoType {

  import opened Wrappers

  /** `std::isalnum` in the "C" locale: an ASCII letter or digit. */
  predicate IsAsciiAlnum(c: char)
  {
    ('a' <= c <= 'z') || ('A' <= c <= 'Z') || ('0' <= c <= '9')
  }

  /** A character that may continue an identifier. */
  predicate IsWordChar(c: char)
  {
    IsAsciiAlnum(c) || c == '_'
  }

  /** The four characters of `s` starting at `p` spell `auto`. */
  predicate AutoAt(s: string, p: nat)
  {
    p + 4 <= |s| && s[p..p + 4] == "auto"
  }

  /** `auto` at `p`, neither preceded nor followed by an identifier character. */
  predicate StandaloneAt(s: string, p: nat)
  {
    AutoAt(s, p)
    && (p == 0 || !IsWordChar(s[p - 1]))
    && (p + 4 == |s| || !IsWordChar(s[p + 4]))
  }

  /** The type spelling names a placeholder type. */
  predicate HasStandaloneAuto(s: string)
  {
    exists p: nat | p + 4 <= |s| :: StandaloneAt(s, p)
  }

  /** `std::string::find("auto", from)`: the first occurrence at or after `from`,
      or None where the library returns `npos`. */
  function FindAuto(s: string, from: nat): (r: Option<nat>)
    decreases |s| - from
    ensures r.Some? ==> from <= r.value && AutoAt(s, r.value)
    ensures r.Some? ==> forall q: nat :: from <= q < r.value ==> !AutoAt(s, q)
    ensures r.None? ==> forall q: nat :: from <= q ==> !AutoAt(s, q)
  {
    if |s| < from + 4 then None
    else if s[from..from + 4] == "auto" then Some(from)
    else FindAuto(s, from + 1)
  }

  /** `is_auto_type`: scan the occurrences of `auto` from left to right; one
      glued to an identifier character on either side is skipped and the scan
      resumes one position further on. Every index read lies inside the
      string: the character before is read only when `pos != 0`, the one after
      only when `pos + 3 < size - 1`. */
  method IsAutoType(typeName: string) returns (b: bool)
    ensures b <==> HasStandaloneAuto(typeName)
  {
    var pos := FindAuto(typeName, 0);
    while pos.Some?
      invariant pos.Some? ==> AutoAt(typeName, pos.value)
      invariant forall q: nat :: q < (if pos.Some? then pos.value else |typeName|) ==> !StandaloneAt(typeName, q)
      decreases if pos.Some? then |typeName| - pos.value + 1 else 0
    {
      var p := pos.value;
      if p != 0 {
        if IsAsciiAlnum(typeName[p - 1]) || typeName[p - 1] == '_' {
          pos := FindAuto(typeName, p + 1);
          continue;
        }
      }
      // |typeName| >= 4 here, so `size - 1` does not wrap around.
      if p + 3 < |typeName| - 1 {
        if IsAsciiAlnum(typeName[p + 3 + 1]) || typeName[p + 3 + 1] == '_' {
          pos := FindAuto(typeName, p + 1);
          continue;
        }
      }
      assert StandaloneAt(typeName, p);
      return true;
    }
    return false;
  }

  /** The keyword alone, and the keyword among punctuation, are placeholders. */
  lemma StandaloneExamples()
    ensures HasStandaloneAuto("auto")
    ensures HasStandaloneAuto("const auto&")
  {
    assert StandaloneAt("auto", 0);
    assert StandaloneAt("const auto&", 6);
  }

  /** A rejected occurrence does not end the scan: the second `auto` is found. */
  lemma SkippedOccurrenceExample()
    ensures !StandaloneAt("x_auto auto", 2)
    ensures HasStandaloneAuto("x_auto auto")
  {
    assert StandaloneAt("x_auto auto", 7);
  }

  /** `auto` inside a longer identifier, and the empty spelling, are not placeholders. */
  lemma NotStandaloneExamples()
    ensures !HasStandaloneAuto("autos")
    ensures !HasStandaloneAuto("my_autoType")
    ensures !HasStandaloneAuto("")
  {
  }
}
