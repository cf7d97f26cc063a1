/** Lists of names stored as text, every name followed by a comma: `FString::ParseIntoArray`
    splits them, string appends join them. */
module NameLists {
  import opened Names

  const COMMA: char := ','

  /** The position of the first comma, or the end. */
  function CommaFrom(s: string, from: nat): (k: nat)
    requires from <= |s|
    ensures from <= k <= |s|
    ensures forall i :: from <= i < k ==> s[i] != COMMA
    ensures k < |s| ==> s[k] == COMMA
    decreases |s| - from
  {
    if from == |s| || s[from] == COMMA then from else CommaFrom(s, from + 1)
  }

  function Piece(s: string): seq<string> {
    if s == [] then [] else [s]
  }

  /** The pieces between commas, empty ones left out. */
  function Split(s: string): seq<string> {
    var k := CommaFrom(s, 0);
    if k == |s| then Piece(s) else Piece(s[..k]) + Split(s[k + 1..])
  }

  /** `ParseIntoArray(out, ",", true)`. */
  method ParseIntoArray(s: string) returns (out: seq<string>)
    ensures out == Split(s)
  {
    hide Split;
    out := [];
    var start := 0;
    assert s[0..] == s;
    var at := NextComma(s, start);
    while at < |s|
      invariant start <= at <= |s| && at == CommaFrom(s, start)
      invariant out + Split(s[start..]) == Split(s)
      decreases |s| - start
    {
      SplitAt(s, start);
      Regroup(out, Piece(s[start..at]), Split(s[at + 1..]));
      if at > start {
        out := out + [s[start..at]];
      }
      start := at + 1;
      at := NextComma(s, start);
    }
    SplitAt(s, start);
    if start < |s| {
      out := out + [s[start..]];
    }
  }

  lemma {:induction false} Regroup(a: seq<string>, b: seq<string>, c: seq<string>)
    ensures a + (b + c) == (a + b) + c
    ensures a + [] == a
  {
  }

  method NextComma(s: string, start: nat) returns (at: nat)
    requires start <= |s|
    ensures at == CommaFrom(s, start)
  {
    at := start;
    while at < |s| && s[at] != COMMA
      invariant start <= at <= |s|
      invariant forall i :: start <= i < at ==> s[i] != COMMA
    {
      at := at + 1;
    }
  }

  lemma {:induction false} SplitWhole(s: string)
    requires COMMA !in s
    ensures Split(s) == Piece(s)
  {
  }

  lemma {:induction false} SplitFirst(s: string, k: nat)
    requires k < |s| && s[k] == COMMA && COMMA !in s[..k]
    ensures Split(s) == Piece(s[..k]) + Split(s[k + 1..])
  {
  }

  /** A comma separates, whatever stands on its sides. */
  lemma {:induction false} SplitConcat(a: string, b: string)
    ensures Split(a + ([COMMA] + b)) == Split(a) + Split(b)
    decreases |a|
  {
    hide Split;
    var s := a + ([COMMA] + b);
    var k := CommaFrom(a, 0);
    assert s[..k] == a[..k];
    SplitFirst(s, k);
    if k == |a| {
      assert a[..k] == a && s[k + 1..] == b;
      SplitWhole(a);
    } else {
      SplitFirst(a, k);
      assert s[k + 1..] == a[k + 1..] + ([COMMA] + b);
      SplitConcat(a[k + 1..], b);
      Regroup(Piece(a[..k]), Split(a[k + 1..]), Split(b));
    }
  }

  lemma {:induction false} SplitAt(s: string, start: nat)
    requires start <= |s|
    ensures var at := CommaFrom(s, start);
            && (at < |s| ==> Split(s[start..]) == Piece(s[start..at]) + Split(s[at + 1..]))
            && (at == |s| ==> Split(s[start..]) == Piece(s[start..]))
  {
    hide Split;
    var at := CommaFrom(s, start);
    SplitWhole(s[start..at]);
    if at < |s| {
      assert s[start..] == s[start..at] + ([COMMA] + s[at + 1..]);
      SplitConcat(s[start..at], s[at + 1..]);
    } else {
      assert s[start..at] == s[start..];
    }
  }

  /** `new_groups += current + ","`. */
  function Join(names: seq<string>): string {
    if names == [] then [] else Join(names[..|names| - 1]) + (names[|names| - 1] + [COMMA])
  }

  /** A name that survives being stored. */
  predicate GoodName(name: string) {
    name != [] && COMMA !in name
  }

  predicate GoodNames(names: seq<string>) {
    forall i :: 0 <= i < |names| ==> GoodName(names[i])
  }

  lemma {:induction false} SplitIsGood(s: string)
    ensures GoodNames(Split(s))
    decreases |s|
  {
    var k := CommaFrom(s, 0);
    if k < |s| {
      SplitIsGood(s[k + 1..]);
    }
  }

  /** Reading a single name back gives it exactly when it is not empty and has no comma. */
  lemma {:induction false} SplitOneIff(name: string)
    ensures Split(name) == [name] <==> GoodName(name)
  {
    SplitIsGood(name);
    assert Split(name) == [name] ==> GoodName(Split(name)[0]);
    if GoodName(name) {
      SplitWhole(name);
    }
  }

  /** Empty or closed by a comma. */
  predicate Terminated(s: string) {
    s == [] || s[|s| - 1] == COMMA
  }

  /** Appending a name and a comma appends what the name itself splits into. */
  lemma {:induction false} SplitAppended(s: string, name: string)
    requires Terminated(s)
    ensures Split(s + (name + [COMMA])) == Split(s) + Split(name)
    ensures Terminated(s + (name + [COMMA]))
  {
    hide Split;
    SplitClosed(name);
    if s == [] {
      SplitWhole(s);
      assert s + (name + [COMMA]) == name + [COMMA];
    } else {
      var a := s[..|s| - 1];
      assert s == a + [COMMA];
      assert s + (name + [COMMA]) == a + ([COMMA] + (name + [COMMA]));
      SplitConcat(a, name + [COMMA]);
      SplitClosed(a);
    }
  }

  lemma {:induction false} SplitClosed(a: string)
    ensures Split(a + [COMMA]) == Split(a)
  {
    hide Split;
    SplitConcat(a, []);
    SplitWhole([]);
    assert a + ([COMMA] + []) == a + [COMMA];
  }

  /** So the stored list gains exactly that name if and only if the name is a good one. */
  lemma {:induction false} AppendIsExact(s: string, name: string)
    requires Terminated(s)
    ensures Split(s + (name + [COMMA])) == Split(s) + [name] <==> GoodName(name)
  {
    SplitAppended(s, name);
    SplitOneIff(name);
    if Split(s) + Split(name) == Split(s) + [name] {
      assert Split(name) == (Split(s) + Split(name))[|Split(s)|..];
      assert [name] == (Split(s) + [name])[|Split(s)|..];
    }
  }

  /** Splitting undoes joining. */
  lemma {:induction false} SplitUndoesJoin(names: seq<string>)
    requires GoodNames(names)
    ensures Split(Join(names)) == names && Terminated(Join(names))
  {
    if names == [] {
      SplitWhole([]);
    } else {
      var n := |names| - 1;
      SplitUndoesJoin(names[..n]);
      SplitAppended(Join(names[..n]), names[n]);
      SplitOneIff(names[n]);
      assert names == names[..n] + [names[n]];
    }
  }

  // ---------------------------------------------------------------- names without case

  function Folded(names: seq<string>): set<string> {
    set i | 0 <= i < |names| :: Fold(names[i])
  }

  lemma {:induction false} ListedIff(names: seq<string>, name: string)
    ensures Lists(names, name) <==> Fold(name) in Folded(names)
  {
  }

  predicate FoldDistinct(names: seq<string>) {
    forall i, j :: 0 <= i < j < |names| ==> !Same(names[i], names[j])
  }

  /** The loop that copies every name but one. */
  function Without(names: seq<string>, name: string): seq<string> {
    if names == [] then []
    else
      var n := |names| - 1;
      Without(names[..n], name) + (if Same(names[n], name) then [] else [names[n]])
  }

  lemma {:induction false} WithoutIsRemoval(names: seq<string>, name: string)
    ensures Folded(Without(names, name)) == Folded(names) - {Fold(name)}
  {
    hide Folded, Fold;
    if names == [] {
      FoldedNone();
    } else {
      var n := |names| - 1;
      WithoutIsRemoval(names[..n], name);
      FoldedAppend(names[..n], names[n]);
      assert names == names[..n] + [names[n]];
      FoldedAppend(Without(names[..n], name), names[n]);
      assert Without(names[..n], name) + [] == Without(names[..n], name);
    }
  }

  lemma {:induction false} FoldedNone()
    ensures Folded([]) == {}
  {
  }

  lemma {:induction false} WithoutGood(names: seq<string>, name: string)
    requires GoodNames(names)
    ensures GoodNames(Without(names, name))
  {
    if names != [] {
      WithoutGood(names[..|names| - 1], name);
    }
  }

  lemma {:induction false} WithoutDistinct(names: seq<string>, name: string)
    requires FoldDistinct(names)
    ensures FoldDistinct(Without(names, name))
  {
    hide Fold, Same, Folded, FoldDistinct;
    if names != [] {
      var n := |names| - 1;
      DistinctAppend(names[..n], names[n]);
      assert names == names[..n] + [names[n]];
      WithoutDistinct(names[..n], name);
      WithoutIsRemoval(names[..n], name);
      DistinctAppend(Without(names[..n], name), names[n]);
      assert Without(names[..n], name) + [] == Without(names[..n], name);
    } else {
      DistinctNone();
    }
  }

  lemma {:induction false} DistinctNone()
    ensures FoldDistinct([])
  {
  }

  /** A new name keeps a list free of repetitions exactly when it is not listed yet. */
  lemma {:induction false} DistinctAppend(names: seq<string>, name: string)
    ensures FoldDistinct(names + [name]) <==> FoldDistinct(names) && Fold(name) !in Folded(names)
  {
    hide Fold;
    var more := names + [name];
    assert more[|names|] == name;
    assert forall i :: 0 <= i < |names| ==> more[i] == names[i];
    if FoldDistinct(more) {
      assert forall i :: 0 <= i < |names| ==> !Same(more[i], more[|names|]);
    }
  }

  lemma {:induction false} FoldedAppend(names: seq<string>, name: string)
    ensures Folded(names + [name]) == Folded(names) + {Fold(name)}
  {
    hide Fold;
    var more := names + [name];
    assert more[|names|] == name;
    assert forall i :: 0 <= i < |names| ==> more[i] == names[i];
  }
}
