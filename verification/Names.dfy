/** Text comparison without regard to ASCII case: `FString::operator==`, the NOCASE
    collation of the permission tables and the comparators of `MergeStringArrays`. */
module Names {
  function Lower(c: char): char {
    if 'A' <= c <= 'Z' then c - 'A' + 'a' else c
  }

  function Fold(s: string): (r: string)
    ensures |r| == |s|
  {
    seq(|s|, i requires 0 <= i < |s| => Lower(s[i]))
  }

  predicate Same(a: string, b: string) {
    Fold(a) == Fold(b)
  }

  /** `TArray<FString>::Contains`. */
  predicate Lists(names: seq<string>, name: string) {
    exists i :: 0 <= i < |names| && Same(names[i], name)
  }

  lemma {:induction false} ListsNone(name: string)
    ensures !Lists([], name)
  {
  }

  /** Lexicographic order, as of `std::string` and of text in the database. */
  predicate Less(a: string, b: string) {
    if b == [] then false
    else if a == [] then true
    else if a[0] != b[0] then a[0] < b[0]
    else Less(a[1..], b[1..])
  }

  lemma {:induction false} LessIrreflexive(s: string)
    ensures !Less(s, s)
  {
    if s != [] {
      LessIrreflexive(s[1..]);
    }
  }

  lemma {:induction false} LessTransitive(a: string, b: string, c: string)
    requires Less(a, b) && Less(b, c)
    ensures Less(a, c)
  {
    if a != [] && a[0] == b[0] == c[0] {
      LessTransitive(a[1..], b[1..], c[1..]);
    }
  }

  lemma {:induction false} LessTotal(a: string, b: string)
    ensures Less(a, b) || a == b || Less(b, a)
  {
    if a != [] && b != [] && a[0] == b[0] {
      LessTotal(a[1..], b[1..]);
      if a[1..] == b[1..] {
        assert a == [a[0]] + a[1..] && b == [b[0]] + b[1..];
      }
    }
  }
}
