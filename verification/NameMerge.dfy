/** `MergeStringArrays`: both arrays are sorted with regard to case, then merged and made unique
    without regard to it. */
module NameMerge {
  import opened Names

  /** Not after, without regard to case. */
  predicate AtMost(a: string, b: string) {
    !Less(Fold(b), Fold(a))
  }

  /** The comparator of the union: strictly before, without regard to case. */
  predicate CaseLess(a: string, b: string) {
    Less(Fold(a), Fold(b))
  }

  lemma {:induction false} Order(a: string, b: string)
    ensures CaseLess(a, b) ==> AtMost(a, b) && !Same(a, b)
    ensures AtMost(a, b) && !Same(a, b) ==> CaseLess(a, b)
    ensures Same(a, b) ==> AtMost(a, b) && AtMost(b, a)
    ensures !CaseLess(a, b) ==> AtMost(b, a)
    ensures AtMost(a, b) && AtMost(b, a) ==> Same(a, b)
    ensures CaseLess(a, b) ==> !AtMost(b, a)
  {
    hide Fold;
    LessTotal(Fold(a), Fold(b));
    LessIrreflexive(Fold(a));
    if Less(Fold(a), Fold(b)) && Less(Fold(b), Fold(a)) {
      LessTransitive(Fold(a), Fold(b), Fold(a));
    }
  }

  lemma {:induction false} AtMostTransitive(a: string, b: string, c: string)
    requires AtMost(a, b) && AtMost(b, c)
    ensures AtMost(a, c)
    ensures CaseLess(a, b) || CaseLess(b, c) ==> CaseLess(a, c)
  {
    hide Fold;
    var x, y, z := Fold(a), Fold(b), Fold(c);
    LessTotal(x, y);
    LessTotal(y, z);
    LessTotal(x, z);
    if Less(x, y) && Less(y, z) {
      LessTransitive(x, y, z);
    }
    if Less(z, x) && Less(x, y) {
      LessTransitive(z, x, y);
    }
    if Less(y, z) && Less(z, x) {
      LessTransitive(y, z, x);
    }
    LessIrreflexive(x);
  }

  // ---------------------------------------------------------------- std::sort

  predicate SortedNames(v: seq<string>) {
    forall i, j :: 0 <= i < j < |v| ==> !Less(v[j], v[i])
  }

  function Insert(x: string, v: seq<string>): seq<string> {
    if v == [] then [x]
    else if Less(v[0], x) then [v[0]] + Insert(x, v[1..])
    else [x] + v
  }

  /** `std::sort`; by `SortIsTheOnlyOne` every sorting algorithm has this result. */
  function Sort(v: seq<string>): seq<string> {
    if v == [] then [] else Insert(v[0], Sort(v[1..]))
  }

  lemma {:induction false} InsertHas(x: string, v: seq<string>)
    ensures multiset(Insert(x, v)) == multiset(v) + multiset{x}
  {
    if v != [] {
      assert v == [v[0]] + v[1..];
      if Less(v[0], x) {
        InsertHas(x, v[1..]);
      }
    }
  }

  lemma {:induction false} LowerBound(x: string, y: string, z: string)
    requires !Less(y, x) && !Less(z, y)
    ensures !Less(z, x)
  {
    LessTotal(x, y);
    LessTotal(y, z);
    if Less(z, x) {
      if Less(x, y) {
        LessTransitive(z, x, y);
      }
    }
  }

  lemma {:induction false} InsertSorted(x: string, v: seq<string>)
    requires SortedNames(v)
    ensures SortedNames(Insert(x, v))
  {
    hide Less;
    if v != [] {
      var head, rest := v[0], v[1..];
      if Less(head, x) {
        InsertSorted(x, rest);
        InsertHas(x, rest);
        var r := Insert(x, rest);
        AfterIsNot(head, x);
        forall j | 0 <= j < |r|
          ensures !Less(r[j], head)
        {
          assert r[j] in multiset(rest) + multiset{x};
          if r[j] != x {
            assert r[j] in rest;
            var k :| 0 <= k < |rest| && rest[k] == r[j];
            assert v[k + 1] == r[j];
          }
        }
      } else {
        forall j | 0 <= j < |v|
          ensures !Less(v[j], x)
        {
          if j > 0 {
            LowerBound(x, head, v[j]);
          }
        }
      }
    }
  }

  lemma {:induction false} AfterIsNot(a: string, b: string)
    requires Less(a, b)
    ensures !Less(b, a)
  {
    LessIrreflexive(a);
    if Less(b, a) {
      LessTransitive(a, b, a);
    }
  }

  lemma {:induction false} SortSorts(v: seq<string>)
    ensures SortedNames(Sort(v)) && multiset(Sort(v)) == multiset(v)
  {
    if v != [] {
      SortSorts(v[1..]);
      InsertSorted(v[0], Sort(v[1..]));
      InsertHas(v[0], Sort(v[1..]));
      assert v == [v[0]] + v[1..];
    }
  }

  lemma {:induction false} HeadIsLeast(v: seq<string>, x: string)
    requires SortedNames(v) && x in v
    ensures !Less(x, v[0])
  {
    hide Less;
    LessIrreflexive(v[0]);
    var i :| 0 <= i < |v| && v[i] == x;
  }

  lemma {:induction false} SameHead(v: seq<string>, w: seq<string>)
    requires SortedNames(v) && SortedNames(w) && multiset(v) == multiset(w) && v != []
    ensures w != [] && v[0] == w[0]
  {
    hide Less, SortedNames;
    assert v[0] in multiset(w);
    assert w[0] in multiset(v);
    HeadIsLeast(w, v[0]);
    HeadIsLeast(v, w[0]);
    LessTotal(v[0], w[0]);
  }

  lemma {:induction false} SameRest(v: seq<string>, w: seq<string>)
    requires v != [] && w != [] && v[0] == w[0] && multiset(v) == multiset(w)
    ensures multiset(v[1..]) == multiset(w[1..])
  {
    assert v == [v[0]] + v[1..] && w == [w[0]] + w[1..];
    assert multiset(v[1..]) == multiset(v) - multiset{v[0]};
  }

  /** The order is total, so a sorted arrangement is unique. */
  lemma {:induction false} SortedIsUnique(v: seq<string>, w: seq<string>)
    requires SortedNames(v) && SortedNames(w) && multiset(v) == multiset(w)
    ensures v == w
    decreases |v|
  {
    hide Less;
    assert |multiset(v)| == |multiset(w)|;
    if v != [] {
      SameHead(v, w);
      SameRest(v, w);
      SortedIsUnique(v[1..], w[1..]);
      assert v == [v[0]] + v[1..] && w == [w[0]] + w[1..];
    }
  }

  lemma {:induction false} SortIsTheOnlyOne(v: seq<string>, w: seq<string>)
    requires SortedNames(w) && multiset(w) == multiset(v)
    ensures w == Sort(v)
  {
    SortSorts(v);
    SortedIsUnique(w, Sort(v));
  }

  // ---------------------------------------------------------------- std::set_union, std::unique_copy

  function Union(a: seq<string>, b: seq<string>): seq<string>
    decreases |a| + |b|
  {
    if a == [] then b
    else if b == [] then a
    else if CaseLess(b[0], a[0]) then [b[0]] + Union(a, b[1..])
    else [a[0]] + Union(a[1..], if CaseLess(a[0], b[0]) then b else b[1..])
  }

  /** What is copied after `kept`, the name copied last. */
  function UniqueAfter(kept: string, v: seq<string>): seq<string>
    decreases |v|
  {
    if v == [] then []
    else if Same(kept, v[0]) then UniqueAfter(kept, v[1..])
    else [v[0]] + UniqueAfter(v[0], v[1..])
  }

  function Unique(v: seq<string>): seq<string> {
    if v == [] then [] else [v[0]] + UniqueAfter(v[0], v[1..])
  }

  function Merge(first: seq<string>, second: seq<string>): seq<string> {
    Unique(Union(Sort(first), Sort(second)))
  }

  /** The two-pointer loop of `std::set_union`. */
  method SetUnion(a: seq<string>, b: seq<string>) returns (merged: seq<string>)
    ensures merged == Union(a, b)
  {
    hide CaseLess;
    merged := [];
    var i, j := 0, 0;
    assert a[0..] == a && b[0..] == b;
    while i < |a|
      invariant i <= |a| && j <= |b|
      invariant merged + Union(a[i..], b[j..]) == Union(a, b)
      decreases |a| - i, |b| - j
    {
      if j == |b| {
        return merged + a[i..];
      }
      UnionStep(a, b, i, j);
      if CaseLess(b[j], a[i]) {
        Regroup(merged, b[j], Union(a[i..], b[j + 1..]));
        merged := merged + [b[j]];
        j := j + 1;
      } else {
        Regroup(merged, a[i], Union(a[i + 1..], if CaseLess(a[i], b[j]) then b[j..] else b[j + 1..]));
        merged := merged + [a[i]];
        if !CaseLess(a[i], b[j]) {
          j := j + 1;
        }
        i := i + 1;
      }
    }
    merged := merged + b[j..];
  }

  lemma {:induction false} UnionStep(a: seq<string>, b: seq<string>, i: nat, j: nat)
    requires i < |a| && j < |b|
    ensures Union(a[i..], b[j..]) ==
            if CaseLess(b[j], a[i]) then [b[j]] + Union(a[i..], b[j + 1..])
            else [a[i]] + Union(a[i + 1..], if CaseLess(a[i], b[j]) then b[j..] else b[j + 1..])
  {
  }

  lemma {:induction false} Regroup(a: seq<string>, x: string, c: seq<string>)
    ensures a + ([x] + c) == (a + [x]) + c
  {
  }

  method UniqueCopy(v: seq<string>) returns (unique: seq<string>)
    ensures unique == Unique(v)
  {
    hide Same;
    unique := [];
    if v == [] {
      return;
    }
    var kept := v[0];
    unique := [kept];
    var i := 1;
    while i < |v|
      invariant 1 <= i <= |v|
      invariant unique + UniqueAfter(kept, v[i..]) == Unique(v)
    {
      assert v[i..][1..] == v[i + 1..];
      if !Same(kept, v[i]) {
        Regroup(unique, v[i], UniqueAfter(v[i], v[i + 1..]));
        kept := v[i];
        unique := unique + [kept];
      }
      i := i + 1;
    }
  }

  method MergeStringArrays(first: seq<string>, second: seq<string>) returns (r: seq<string>)
    ensures r == Merge(first, second)
    ensures forall x :: x in r ==> x in first || x in second
    ensures forall name :: Lists(r, name) <==> Lists(first, name) || Lists(second, name)
  {
    hide Merge;
    MergeNames(first, second);
    var merged := SetUnion(Sort(first), Sort(second));
    r := UniqueCopy(merged);
    MergeIs(first, second);
  }

  lemma {:induction false} MergeIs(first: seq<string>, second: seq<string>)
    ensures Merge(first, second) == Unique(Union(Sort(first), Sort(second)))
  {
  }

  // ---------------------------------------------------------------- which names

  lemma {:induction false} ListsCons(head: string, rest: seq<string>, name: string)
    ensures Lists([head] + rest, name) <==> Same(head, name) || Lists(rest, name)
  {
    hide Same;
    var v := [head] + rest;
    if Lists(rest, name) {
      var i :| 0 <= i < |rest| && Same(rest[i], name);
      assert v[i + 1] == rest[i];
    }
    assert v[0] == head;
  }

  lemma {:induction false} UnionNames(a: seq<string>, b: seq<string>, name: string)
    ensures Lists(Union(a, b), name) <==> Lists(a, name) || Lists(b, name)
    decreases |a| + |b|
  {
    hide Lists, Same;
    if a == [] {
      ListsNone(name);
    } else if b == [] {
      ListsNone(name);
    } else {
      assert a == [a[0]] + a[1..] && b == [b[0]] + b[1..];
      ListsCons(a[0], a[1..], name);
      ListsCons(b[0], b[1..], name);
      if CaseLess(b[0], a[0]) {
        UnionNames(a, b[1..], name);
        ListsCons(b[0], Union(a, b[1..]), name);
      } else {
        var c := if CaseLess(a[0], b[0]) then b else b[1..];
        UnionNames(a[1..], c, name);
        ListsCons(a[0], Union(a[1..], c), name);
        if c != b {
          Order(a[0], b[0]);
          Order(b[0], a[0]);
          SameClass(a[0], b[0], name);
        }
      }
    }
  }

  lemma {:induction false} SameClass(a: string, b: string, name: string)
    requires Same(a, b)
    ensures Same(a, name) <==> Same(b, name)
  {
  }

  lemma {:induction false} UniqueAfterNames(kept: string, v: seq<string>, name: string)
    ensures Lists([kept] + UniqueAfter(kept, v), name) <==> Lists([kept] + v, name)
    decreases |v|
  {
    hide Lists, Same;
    ListsCons(kept, v, name);
    ListsCons(kept, UniqueAfter(kept, v), name);
    if v != [] {
      assert v == [v[0]] + v[1..];
      ListsCons(v[0], v[1..], name);
      if Same(kept, v[0]) {
        SameClass(kept, v[0], name);
        UniqueAfterNames(kept, v[1..], name);
        ListsCons(kept, v[1..], name);
      } else {
        UniqueAfterNames(v[0], v[1..], name);
      }
    }
  }

  lemma {:induction false} UnionSpelling(a: seq<string>, b: seq<string>, x: string)
    ensures x in Union(a, b) ==> x in a || x in b
    decreases |a| + |b|
  {
    hide CaseLess;
    if a != [] && b != [] {
      if CaseLess(b[0], a[0]) {
        UnionSpelling(a, b[1..], x);
      } else {
        UnionSpelling(a[1..], if CaseLess(a[0], b[0]) then b else b[1..], x);
      }
    }
  }

  lemma {:induction false} UniqueAfterSpelling(kept: string, v: seq<string>, x: string)
    ensures x in UniqueAfter(kept, v) ==> x in v
    decreases |v|
  {
    hide Same;
    if v != [] {
      UniqueAfterSpelling(if Same(kept, v[0]) then kept else v[0], v[1..], x);
    }
  }

  lemma {:induction false} SortNames(v: seq<string>, name: string)
    ensures Lists(Sort(v), name) <==> Lists(v, name)
    ensures name in Sort(v) <==> name in v
  {
    hide Same, Sort;
    SortSorts(v);
    var s := Sort(v);
    if Lists(s, name) {
      var i :| 0 <= i < |s| && Same(s[i], name);
      assert s[i] in multiset(v);
    }
    if Lists(v, name) {
      var i :| 0 <= i < |v| && Same(v[i], name);
      assert v[i] in multiset(s);
    }
    assert name in multiset(s) <==> name in multiset(v);
  }

  /** The result holds exactly the names of the two arrays, without regard to case, each in a
      spelling of the arrays. */
  lemma {:induction false} MergeNames(first: seq<string>, second: seq<string>)
    ensures forall name :: Lists(Merge(first, second), name) <==> Lists(first, name) || Lists(second, name)
    ensures forall x :: x in Merge(first, second) ==> x in first || x in second
  {
    hide Lists, Same, Sort, Union;
    var u := Union(Sort(first), Sort(second));
    forall name: string
      ensures Lists(Merge(first, second), name) <==> Lists(first, name) || Lists(second, name)
    {
      SortNames(first, name);
      SortNames(second, name);
      UnionNames(Sort(first), Sort(second), name);
      if u != [] {
        UniqueAfterNames(u[0], u[1..], name);
        assert [u[0]] + u[1..] == u;
      }
    }
    forall x | x in Merge(first, second)
      ensures x in first || x in second
    {
      if u != [] {
        UniqueAfterSpelling(u[0], u[1..], x);
      }
      UnionSpelling(Sort(first), Sort(second), x);
      SortNames(first, x);
      SortNames(second, x);
    }
  }

  // ---------------------------------------------------------------- in which order

  predicate AllAtLeast(x: string, v: seq<string>) {
    forall i :: 0 <= i < |v| ==> AtMost(x, v[i])
  }

  /** Ascending without regard to case, repetitions allowed. */
  predicate CaseSorted(v: seq<string>) {
    v != [] ==> AllAtLeast(v[0], v[1..]) && CaseSorted(v[1..])
  }

  predicate AllAfter(x: string, v: seq<string>) {
    forall i :: 0 <= i < |v| ==> CaseLess(x, v[i])
  }

  /** Strictly ascending without regard to case, and so without repetition. */
  predicate StrictlySorted(v: seq<string>) {
    v != [] ==> AllAfter(v[0], v[1..]) && StrictlySorted(v[1..])
  }

  /** Every name of `b` is matched, without regard to case, by one of `a`. */
  lemma {:induction false} BoundTransfers(x: string, a: seq<string>, b: seq<string>)
    requires AllAtLeast(x, a)
    requires forall name :: Lists(b, name) ==> Lists(a, name)
    ensures AllAtLeast(x, b)
  {
    hide CaseLess, AtMost;
    forall i | 0 <= i < |b|
      ensures AtMost(x, b[i])
    {
      assert Same(b[i], b[i]);
      assert Lists(b, b[i]);
      assert Lists(a, b[i]);
      var k :| 0 <= k < |a| && Same(a[k], b[i]);
      Order(a[k], b[i]);
      AtMostTransitive(x, a[k], b[i]);
    }
  }

  lemma {:induction false} UnionCovers(a: seq<string>, b: seq<string>)
    ensures forall name :: Lists(a, name) ==> Lists(Union(a, b), name)
    ensures forall name :: Lists(b, name) ==> Lists(Union(a, b), name)
  {
    hide Lists;
    forall name: string {
      UnionNames(a, b, name);
    }
  }

  /** The union is ascending only if both inputs are: none of their names gets out of line. */
  lemma {:induction false} UnionSortedNeeds(a: seq<string>, b: seq<string>)
    requires CaseSorted(Union(a, b))
    ensures CaseSorted(a) && CaseSorted(b)
    decreases |a| + |b|
  {
    hide CaseLess, AtMost, AllAtLeast, Lists;
    if a != [] && b != [] {
      var u := Union(a, b);
      if CaseLess(b[0], a[0]) {
        var rest := Union(a, b[1..]);
        assert u == [b[0]] + rest && u[1..] == rest;
        UnionSortedNeeds(a, b[1..]);
        UnionCovers(a, b[1..]);
        BoundTransfers(b[0], rest, b[1..]);
      } else {
        var c := if CaseLess(a[0], b[0]) then b else b[1..];
        var rest := Union(a[1..], c);
        assert u == [a[0]] + rest && u[1..] == rest;
        UnionSortedNeeds(a[1..], c);
        UnionCovers(a[1..], c);
        BoundTransfers(a[0], rest, a[1..]);
        if c != b {
          BoundTransfers(a[0], rest, b[1..]);
          SameBound(a[0], b[0], b[1..]);
        }
      }
    }
  }

  lemma {:induction false} SameBound(x: string, y: string, v: seq<string>)
    requires !CaseLess(x, y) && AllAtLeast(x, v)
    ensures AllAtLeast(y, v)
  {
    hide CaseLess, AtMost;
    Order(x, y);
    forall i | 0 <= i < |v|
      ensures AtMost(y, v[i])
    {
      AtMostTransitive(y, x, v[i]);
    }
  }

  lemma {:induction false} UnionBound(x: string, a: seq<string>, b: seq<string>)
    requires AllAtLeast(x, a) && AllAtLeast(x, b)
    ensures AllAtLeast(x, Union(a, b))
  {
    hide CaseLess, AtMost, Union;
    var u := Union(a, b);
    forall i | 0 <= i < |u|
      ensures AtMost(x, u[i])
    {
      UnionSpelling(a, b, u[i]);
      assert u[i] in u;
    }
  }

  lemma {:induction false} WholeBound(x: string, v: seq<string>)
    requires v != [] && CaseSorted(v) && AtMost(x, v[0])
    ensures AllAtLeast(x, v)
  {
    hide CaseLess, AtMost;
    forall i | 0 <= i < |v|
      ensures AtMost(x, v[i])
    {
      if i > 0 {
        assert v[1..][i - 1] == v[i];
        AtMostTransitive(x, v[0], v[i]);
      }
    }
  }

  lemma {:induction false} UnionSorted(a: seq<string>, b: seq<string>)
    requires CaseSorted(a) && CaseSorted(b)
    ensures CaseSorted(Union(a, b))
    decreases |a| + |b|
  {
    hide CaseLess, AtMost, AllAtLeast;
    if a != [] && b != [] {
      var u := Union(a, b);
      Order(a[0], b[0]);
      Order(b[0], a[0]);
      if CaseLess(b[0], a[0]) {
        UnionSorted(a, b[1..]);
        WholeBound(b[0], a);
        UnionBound(b[0], a, b[1..]);
        assert u[1..] == Union(a, b[1..]);
      } else {
        var c := if CaseLess(a[0], b[0]) then b else b[1..];
        UnionSorted(a[1..], c);
        WholeBound(a[0], b);
        TailBound(a[0], b);
        UnionBound(a[0], a[1..], c);
        assert u[1..] == Union(a[1..], c);
      }
    }
  }

  lemma {:induction false} TailBound(x: string, v: seq<string>)
    requires v != [] && AllAtLeast(x, v)
    ensures AllAtLeast(x, v[1..])
  {
  }

  /** Copying without repeats gives a strictly ascending result exactly from an ascending one. */
  lemma {:induction false} UniqueAfterSorted(kept: string, v: seq<string>)
    ensures StrictlySorted([kept] + UniqueAfter(kept, v)) <==> CaseSorted([kept] + v)
    decreases |v|
  {
    hide CaseLess, AtMost, AllAtLeast, AllAfter, Same;
    var r := UniqueAfter(kept, v);
    assert ([kept] + r)[1..] == r && ([kept] + v)[1..] == v;
    if v == [] {
      NothingBounds(kept);
    } else {
      assert v == [v[0]] + v[1..];
      assert ([kept] + v[1..])[1..] == v[1..];
      if Same(kept, v[0]) {
        UniqueAfterSorted(kept, v[1..]);
        BoundCons(kept, v[0], v[1..]);
        Order(kept, v[0]);
        EqualBound(kept, v[0], v[1..]);
      } else {
        UniqueAfterSorted(v[0], v[1..]);
        BoundCons(kept, v[0], v[1..]);
        Order(kept, v[0]);
        AfterCons(kept, v[0], UniqueAfter(v[0], v[1..]));
        ChainBound(kept, v[0], v[1..]);
        ChainAfter(kept, v[0], UniqueAfter(v[0], v[1..]));
      }
    }
  }

  lemma {:induction false} NothingBounds(x: string)
    ensures AllAtLeast(x, []) && AllAfter(x, [])
  {
  }

  lemma {:induction false} BoundCons(x: string, y: string, v: seq<string>)
    ensures AllAtLeast(x, [y] + v) <==> AtMost(x, y) && AllAtLeast(x, v)
  {
    hide AtMost;
    var w := [y] + v;
    assert w[0] == y && forall i :: 0 <= i < |v| ==> w[i + 1] == v[i];
  }

  lemma {:induction false} AfterCons(x: string, y: string, v: seq<string>)
    ensures AllAfter(x, [y] + v) <==> CaseLess(x, y) && AllAfter(x, v)
  {
    hide CaseLess;
    var w := [y] + v;
    assert w[0] == y && forall i :: 0 <= i < |v| ==> w[i + 1] == v[i];
  }

  lemma {:induction false} EqualBound(x: string, y: string, v: seq<string>)
    requires Same(x, y)
    ensures AllAtLeast(x, v) <==> AllAtLeast(y, v)
  {
  }

  lemma {:induction false} ChainBound(x: string, y: string, v: seq<string>)
    requires !Same(x, y)
    ensures AtMost(x, y) && AllAtLeast(y, v) ==> AllAtLeast(x, v)
  {
    hide AtMost, CaseLess, Same;
    if AtMost(x, y) && AllAtLeast(y, v) {
      forall i | 0 <= i < |v|
        ensures AtMost(x, v[i])
      {
        AtMostTransitive(x, y, v[i]);
      }
    }
  }

  lemma {:induction false} ChainAfter(x: string, y: string, v: seq<string>)
    ensures CaseLess(x, y) && AllAfter(y, v) ==> AllAfter(x, v)
  {
    hide AtMost, CaseLess, Same;
    if CaseLess(x, y) && AllAfter(y, v) {
      forall i | 0 <= i < |v|
        ensures CaseLess(x, v[i])
      {
        Order(x, y);
        Order(y, v[i]);
        AtMostTransitive(x, y, v[i]);
      }
    }
  }

  /** The result is strictly ascending, and so free of repetitions, if and only if both arrays,
      sorted with regard to case, are also ascending without regard to it. */
  lemma {:induction false} MergeSortedIff(first: seq<string>, second: seq<string>)
    ensures StrictlySorted(Merge(first, second)) <==> CaseSorted(Sort(first)) && CaseSorted(Sort(second))
  {
    hide Sort, Union;
    var a, b := Sort(first), Sort(second);
    var u := Union(a, b);
    if u != [] {
      assert u == [u[0]] + u[1..];
      UniqueAfterSorted(u[0], u[1..]);
    }
    if CaseSorted(u) {
      UnionSortedNeeds(a, b);
    }
    if CaseSorted(a) && CaseSorted(b) {
      UnionSorted(a, b);
    }
  }

  lemma {:induction false} StrictHasNoRepeats(v: seq<string>, i: nat, j: nat)
    requires StrictlySorted(v) && i < j < |v|
    ensures !Same(v[i], v[j])
    decreases i
  {
    hide CaseLess, Same;
    if i == 0 {
      assert v[1..][j - 1] == v[j];
      Order(v[0], v[j]);
    } else {
      assert v[1..][i - 1] == v[i] && v[1..][j - 1] == v[j];
      StrictHasNoRepeats(v[1..], i - 1, j - 1);
    }
  }

  /** Capitals sort before small letters, so the arrays B, a and a give a, B, a. */
  lemma {:induction false} RepeatedNameCounterexample()
    ensures Merge(["B", "a"], ["a"]) == ["a", "B", "a"]
  {
  }

  /** The condition of `MergeSortedIff` is not needed for freedom from repeats: B, a and nothing
      give B, a. */
  lemma {:induction false} NoRepeatsWithoutOrder()
    ensures Merge(["B", "a"], []) == ["B", "a"] && !Same("B", "a")
    ensures !StrictlySorted(["B", "a"])
  {
    assert Less("B", "a") && !Less("a", "B");
    assert ["B", "a"][1..] == ["a"] && ["a"][1..] == [];
    assert Sort(["a"]) == ["a"];
    assert Sort(["B", "a"]) == ["B", "a"];
    assert Fold("a") == "a" && Fold("B") == "b";
    assert Union(["B", "a"], []) == ["B", "a"];
    assert UniqueAfter("B", ["a"]) == ["a"];
    assert !CaseLess("B", "a");
  }
}
