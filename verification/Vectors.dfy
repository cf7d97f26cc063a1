/** The idiom `v.erase(std::remove(v.begin(), v.end(), *iter), v.end())`. The value to
    remove is a reference into the vector, so the shifting elements overwrite it. */
module Vectors {
  predicate Distinct<T(==)>(v: seq<T>) {
    forall i, j :: 0 <= i < j < |v| ==> v[i] != v[j]
  }

  /** What the idiom is meant to compute: `v` without any `x`, in order. */
  function Except<T(==)>(v: seq<T>, x: T): seq<T> {
    if v == [] then [] else (if v[0] == x then [] else [v[0]]) + Except(v[1..], x)
  }

  lemma {:induction false} ExceptHas<T>(v: seq<T>, x: T, y: T)
    ensures y in Except(v, x) <==> y in v && y != x
  {
    if v != [] {
      ExceptHas(v[1..], x, y);
    }
  }

  lemma {:induction false} ExceptConcat<T>(v: seq<T>, w: seq<T>, x: T)
    ensures Except(v + w, x) == Except(v, x) + Except(w, x)
  {
    if v == [] {
      assert v + w == w;
    } else {
      assert (v + w)[1..] == v[1..] + w;
      ExceptConcat(v[1..], w, x);
    }
  }

  lemma {:induction false} ExceptAppend<T>(v: seq<T>, y: T, x: T)
    ensures Except(v + [y], x) == if y == x then Except(v, x) else Except(v, x) + [y]
  {
    ExceptConcat(v, [y], x);
    assert [y][1..] == [];
    assert Except([y], x) == if y == x then [] else [y];
  }

  lemma {:induction false} ExceptAbsent<T>(v: seq<T>, x: T)
    requires x !in v
    ensures Except(v, x) == v
  {
    if v != [] {
      ExceptAbsent(v[1..], x);
    }
  }

  lemma {:induction false} ExceptRun<T>(v: seq<T>, x: T)
    requires forall i :: 0 <= i < |v| ==> v[i] == x
    ensures Except(v, x) == []
  {
    if v != [] {
      ExceptRun(v[1..], x);
    }
  }

  /** The end of the block of elements equal to `v[at]` that starts at `at`. */
  function RunEnd<T(==)>(v: seq<T>, at: nat, i: nat): (q: nat)
    requires at < i <= |v|
    requires forall k :: at <= k < i ==> v[k] == v[at]
    ensures i <= q <= |v|
    ensures forall k :: at <= k < q ==> v[k] == v[at]
    ensures q < |v| ==> v[q] != v[at]
    decreases |v| - i
  {
    if i < |v| && v[i] == v[at] then RunEnd(v, at, i + 1) else i
  }

  /** What the idiom computes: once the first survivor has moved into slot `at`, it is
      that survivor's value, not the original one, that is compared and dropped. */
  function ErasedAliased<T(==)>(v: seq<T>, at: nat): seq<T>
    requires at < |v|
  {
    var q := RunEnd(v, at, at + 1);
    if q == |v| then v[..at] else v[..at] + [v[q]] + Except(v[q + 1..], v[q])
  }

  /** What is left of the first `i` elements: the block equal to `v[at]` ends at `q`, and
      from then on it is `v[q]` that is compared. */
  ghost function ErasedSoFar<T>(v: seq<T>, at: nat, q: nat, i: nat): seq<T>
    requires at < q <= |v| && at < i <= |v|
    decreases i
  {
    if i == at + 1 then v[..at]
    else
      var kept := ErasedSoFar(v, at, q, i - 1);
      if i <= q || (q < i - 1 && v[i - 1] == v[q]) then kept else kept + [v[i - 1]]
  }

  lemma {:induction false} ErasedSoFarClosed<T>(v: seq<T>, at: nat, q: nat, i: nat)
    requires at < q <= |v| && at < i <= |v|
    ensures ErasedSoFar(v, at, q, i) ==
            if i <= q then v[..at] else v[..at] + [v[q]] + Except(v[q + 1..i], v[q])
    decreases i
  {
    if at + 1 < i {
      ErasedSoFarClosed(v, at, q, i - 1);
      if i == q + 1 {
        assert v[q + 1..i] == [];
      } else if q < i {
        assert v[q + 1..i] == v[q + 1..i - 1] + [v[i - 1]];
        ExceptAppend(v[q + 1..i - 1], v[i - 1], v[q]);
        Associate(v[..at] + [v[q]], Except(v[q + 1..i - 1], v[q]), [v[i - 1]]);
      }
    }
  }

  lemma {:induction false} ErasedAtEnd<T>(v: seq<T>, at: nat)
    requires at < |v|
    ensures ErasedSoFar(v, at, RunEnd(v, at, at + 1), |v|) == ErasedAliased(v, at)
  {
    var q := RunEnd(v, at, at + 1);
    ErasedSoFarClosed(v, at, q, |v|);
    if q < |v| {
      assert v[q + 1..|v|] == v[q + 1..];
    }
  }

  /** `std::remove(begin, end, buf[at])` in place; `end` is the returned iterator. */
  method RemoveInPlace<T(==)>(buf: array<T>, at: nat) returns (end: nat)
    requires at < buf.Length
    requires forall k :: 0 <= k < at ==> buf[k] != buf[at]
    modifies buf
    ensures end <= buf.Length
    ensures buf[..end] == ErasedAliased(old(buf[..]), at)
  {
    hide ErasedAliased, Except;
    ghost var v := buf[..];
    ghost var q := RunEnd(v, at, at + 1);
    end := at;
    var i := at + 1;
    while i < buf.Length
      invariant at <= end < i <= buf.Length
      invariant forall k :: i <= k < buf.Length ==> buf[k] == v[k]
      invariant buf[..end] == ErasedSoFar(v, at, q, i)
      invariant if i <= q then end == at && buf[at] == v[at] else at < end && buf[at] == v[q]
    {
      ghost var kept := buf[..end];
      if buf[i] != buf[at] {
        buf[end] := buf[i];
        end := end + 1;
        assert buf[..end] == kept + [v[i]];
      }
      i := i + 1;
    }
    ErasedAtEnd(v, at);
  }

  /** The whole idiom on a vector, `at` being what `find_if` returned. */
  method EraseRemove<T(==)>(v: seq<T>, at: nat) returns (r: seq<T>)
    requires at < |v|
    requires forall k :: 0 <= k < at ==> v[k] != v[at]
    ensures r == ErasedAliased(v, at)
  {
    var buf := new T[|v|](i requires 0 <= i < |v| => v[i]);
    assert buf[..] == v;
    var end := RemoveInPlace(buf, at);
    r := buf[..end];
  }

  lemma {:induction false} ExceptDiffers<T>(v: seq<T>, x: T, y: T)
    requires x != y
    ensures Except(v, x) == Except(v, y) <==> x !in v && y !in v
  {
    if x !in v && y !in v {
      ExceptAbsent(v, x);
      ExceptAbsent(v, y);
    } else if x in v {
      ExceptHas(v, y, x);
      ExceptHas(v, x, x);
    } else {
      ExceptHas(v, x, y);
      ExceptHas(v, y, y);
    }
  }

  lemma {:induction false} ExceptBlocks<T>(a: seq<T>, b: seq<T>, c: seq<T>, x: T)
    requires x !in a
    requires forall i :: 0 <= i < |b| ==> b[i] == x
    ensures Except(a + (b + c), x) == a + Except(c, x)
  {
    ExceptConcat(a, b + c, x);
    ExceptConcat(b, c, x);
    ExceptAbsent(a, x);
    ExceptRun(b, x);
    assert [] + Except(c, x) == Except(c, x);
  }

  lemma {:induction false} ExceptSplit<T>(v: seq<T>, at: nat)
    requires at < |v|
    requires forall k :: 0 <= k < at ==> v[k] != v[at]
    ensures var q := RunEnd(v, at, at + 1);
            Except(v, v[at]) == v[..at] + Except(v[q..], v[at])
  {
    var q := RunEnd(v, at, at + 1);
    ExceptBlocks(v[..at], v[at..q], v[q..], v[at]);
    assert v == v[..at] + (v[at..q] + v[q..]);
  }

  /** Exactly when the idiom does what is meant: the removed value occurs in one block only,
      and the element after that block does not occur again. */
  lemma {:induction false} ErasedAliasedExact<T>(v: seq<T>, at: nat)
    requires at < |v|
    requires forall k :: 0 <= k < at ==> v[k] != v[at]
    ensures var q := RunEnd(v, at, at + 1);
            ErasedAliased(v, at) == Except(v, v[at]) <==>
            q == |v| || (v[at] !in v[q + 1..] && v[q] !in v[q + 1..])
  {
    var q := RunEnd(v, at, at + 1);
    ExceptSplit(v, at);
    if q < |v| {
      var rest := v[q + 1..];
      assert v[q..] == [v[q]] + rest;
      assert Except(v, v[at]) == (v[..at] + [v[q]]) + Except(rest, v[at]);
      assert ErasedAliased(v, at) == (v[..at] + [v[q]]) + Except(rest, v[q]);
      CancelPrefix(v[..at] + [v[q]], Except(rest, v[q]), Except(rest, v[at]));
      ExceptDiffers(rest, v[q], v[at]);
    }
  }

  lemma {:induction false} Associate<T>(a: seq<T>, b: seq<T>, c: seq<T>)
    ensures a + (b + c) == (a + b) + c
  {
  }

  lemma {:induction false} CancelPrefix<T>(p: seq<T>, a: seq<T>, b: seq<T>)
    ensures p + a == p + b <==> a == b
  {
    if p + a == p + b {
      assert a == (p + a)[|p|..];
      assert b == (p + b)[|p|..];
    }
  }

  lemma {:induction false} LaterAbsent<T>(v: seq<T>, i: nat, k: nat)
    requires i < k <= |v| && Distinct(v)
    ensures v[i] !in v[k..]
  {
  }

  lemma {:induction false} DistinctWithout<T>(v: seq<T>, at: nat)
    requires at < |v| && Distinct(v)
    ensures Distinct(v[..at] + v[at + 1..])
  {
  }

  /** On a duplicate-free vector the idiom removes exactly the element found. */
  lemma {:induction false} ErasedDistinct<T>(v: seq<T>, at: nat)
    requires at < |v| && Distinct(v)
    ensures ErasedAliased(v, at) == Except(v, v[at]) == v[..at] + v[at + 1..]
    ensures Distinct(ErasedAliased(v, at))
  {
    var q := RunEnd(v, at, at + 1);
    assert q == at + 1 by {
      assert at + 1 < |v| ==> v[at] != v[at + 1];
    }
    LaterAbsent(v, at, q);
    if q < |v| {
      LaterAbsent(v, at, q + 1);
      LaterAbsent(v, q, q + 1);
    }
    DistinctWithout(v, at);
    ErasedSlice(v, at);
  }

  lemma {:induction false} ErasedSlice<T>(v: seq<T>, at: nat)
    requires at < |v|
    requires forall k :: 0 <= k < at ==> v[k] != v[at]
    requires RunEnd(v, at, at + 1) == at + 1
    requires v[at] !in v[at + 1..]
    requires at + 1 < |v| ==> v[at] !in v[at + 2..] && v[at + 1] !in v[at + 2..]
    ensures ErasedAliased(v, at) == Except(v, v[at]) == v[..at] + v[at + 1..]
  {
    ErasedAliasedExact(v, at);
    ExceptSplit(v, at);
    ExceptAbsent(v[at + 1..], v[at]);
  }

  /** With a repeated neighbour it removes too much: here 2 disappears altogether. */
  lemma {:induction false} ErasedAliasedCounterexample()
    ensures ErasedAliased([1, 2, 3, 2], 0) == [2, 3] != Except([1, 2, 3, 2], 1)
  {
  }
}
