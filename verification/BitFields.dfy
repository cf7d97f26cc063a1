/** Reading and writing a bit field of a word through shifts and masks. A word is the sequence
    of its bits, the lowest first; masks are 64 bits wide whatever the width of the word. */
module BitFields {
  type Word = seq<bool>

  const WIDE: nat := 64

  function Ones(): (r: Word)
    ensures |r| == WIDE
  {
    seq(WIDE, _ => true)
  }

  function ShiftRight(w: Word, k: nat): (r: Word)
    ensures |r| == |w|
  {
    seq(|w|, i requires 0 <= i < |w| => i + k < |w| && w[i + k])
  }

  function ShiftLeft(w: Word, k: nat): (r: Word)
    ensures |r| == |w|
  {
    seq(|w|, i requires 0 <= i < |w| => k <= i && w[i - k])
  }

  function And(a: Word, b: Word): (r: Word)
    requires |a| == |b|
    ensures |r| == |a|
  {
    seq(|a|, i requires 0 <= i < |a| => a[i] && b[i])
  }

  function Or(a: Word, b: Word): (r: Word)
    requires |a| == |b|
    ensures |r| == |a|
  {
    seq(|a|, i requires 0 <= i < |a| => a[i] || b[i])
  }

  function Not(a: Word): (r: Word)
    ensures |r| == |a|
  {
    seq(|a|, i requires 0 <= i < |a| => !a[i])
  }

  /** Conversion of an unsigned word to 64 bits. */
  function Widen(w: Word): (r: Word)
    requires |w| <= WIDE
    ensures |r| == WIDE
  {
    seq(WIDE, i requires 0 <= i < WIDE => i < |w| && w[i])
  }

  /** `~0ULL >> (64 - n)`. */
  function Mask(n: nat): (r: Word)
    requires 1 <= n <= WIDE
    ensures |r| == WIDE
  {
    ShiftRight(Ones(), WIDE - n)
  }

  /** The field lies inside the word. */
  predicate Fits(w: Word, position: nat, n: nat) {
    1 <= n && position + n <= |w| <= WIDE
  }

  /** `GetNativeBitField`. */
  function Get(w: Word, position: nat, n: nat): (r: Word)
    requires Fits(w, position, n)
    ensures |r| == |w|
  {
    And(Widen(ShiftRight(w, position)), Mask(n))[..|w|]
  }

  /** `SetNativeBitField` on a word that holds `w`; `v` is the new value converted to the type
      of the word. */
  function Set(w: Word, position: nat, n: nat, v: Word): (r: Word)
    requires Fits(w, position, n) && |v| == |w|
    ensures |r| == |w|
  {
    var mask := ShiftLeft(Mask(n), position);
    Or(And(Widen(w), Not(mask)), And(Widen(ShiftLeft(v, position)), mask))[..|w|]
  }

  // ---------------------------------------------------------------- bit by bit

  lemma {:induction false} GetBit(w: Word, position: nat, n: nat, i: nat)
    requires Fits(w, position, n) && i < |w|
    ensures Get(w, position, n)[i] == (i < n && w[position + i])
  {
    assert Widen(ShiftRight(w, position))[i] == ShiftRight(w, position)[i];
    assert Mask(n)[i] == (i < n);
  }

  lemma {:induction false} GetIsField(w: Word, position: nat, n: nat)
    requires Fits(w, position, n)
    ensures Get(w, position, n) == w[position..position + n] + seq(|w| - n, _ => false)
  {
    hide Get;
    forall i | 0 <= i < |w|
      ensures Get(w, position, n)[i] == (w[position..position + n] + seq(|w| - n, _ => false))[i]
    {
      GetBit(w, position, n, i);
    }
  }

  lemma {:induction false} SetBit(w: Word, position: nat, n: nat, v: Word, i: nat)
    requires Fits(w, position, n) && |v| == |w| && i < |w|
    ensures Set(w, position, n, v)[i] == if position <= i < position + n then v[i - position] else w[i]
  {
    var mask := ShiftLeft(Mask(n), position);
    assert mask[i] == (position <= i < position + n);
    assert Widen(w)[i] == w[i];
    assert Widen(ShiftLeft(v, position))[i] == (position <= i && v[i - position]);
  }

  /** The bits of the field are replaced, all others stay. */
  lemma {:induction false} SetIsSplice(w: Word, position: nat, n: nat, v: Word)
    requires Fits(w, position, n) && |v| == |w|
    ensures Set(w, position, n, v) == w[..position] + v[..n] + w[position + n..]
  {
    hide Set;
    forall i | 0 <= i < |w|
      ensures Set(w, position, n, v)[i] == (w[..position] + v[..n] + w[position + n..])[i]
    {
      SetBit(w, position, n, v, i);
    }
  }

  predicate Apart(p1: nat, n1: nat, p2: nat, n2: nat) {
    p1 + n1 <= p2 || p2 + n2 <= p1
  }

  /** A write does not affect the reading of a field beside it. */
  lemma {:induction false} SetKeepsOthers(w: Word, p1: nat, n1: nat, v: Word, p2: nat, n2: nat)
    requires Fits(w, p1, n1) && Fits(w, p2, n2) && |v| == |w| && Apart(p1, n1, p2, n2)
    ensures Get(Set(w, p1, n1, v), p2, n2) == Get(w, p2, n2)
  {
    hide Get, Set;
    var u := Set(w, p1, n1, v);
    forall i | 0 <= i < |w|
      ensures Get(u, p2, n2)[i] == Get(w, p2, n2)[i]
    {
      GetBit(w, p2, n2, i);
      GetBit(u, p2, n2, i);
      if i < n2 {
        SetBit(w, p1, n1, v, p2 + i);
      }
    }
  }

  /** Writes to fields that do not overlap commute. */
  lemma {:induction false} SetsCommute(w: Word, p1: nat, n1: nat, v1: Word, p2: nat, n2: nat, v2: Word)
    requires Fits(w, p1, n1) && Fits(w, p2, n2) && |v1| == |w| && |v2| == |w| && Apart(p1, n1, p2, n2)
    ensures Set(Set(w, p1, n1, v1), p2, n2, v2) == Set(Set(w, p2, n2, v2), p1, n1, v1)
  {
    hide Set;
    var a, b := Set(w, p1, n1, v1), Set(w, p2, n2, v2);
    forall i | 0 <= i < |w|
      ensures Set(a, p2, n2, v2)[i] == Set(b, p1, n1, v1)[i]
    {
      SetBit(w, p1, n1, v1, i);
      SetBit(w, p2, n2, v2, i);
      SetBit(a, p2, n2, v2, i);
      SetBit(b, p1, n1, v1, i);
    }
  }

  // ---------------------------------------------------------------- as numbers

  function Pow2(n: nat): (r: nat)
    ensures r > 0
  {
    if n == 0 then 1 else 2 * Pow2(n - 1)
  }

  function Value(w: Word): nat {
    if w == [] then 0 else (if w[0] then 1 else 0) + 2 * Value(w[1..])
  }

  /** Conversion of a number to a word of `width` bits. */
  function Encode(v: nat, width: nat): (r: Word)
    ensures |r| == width
  {
    if width == 0 then [] else [v % 2 == 1] + Encode(v / 2, width - 1)
  }

  lemma {:induction false} ValueOfEncode(v: nat, width: nat)
    ensures Value(Encode(v, width)) == v % Pow2(width)
    decreases width
  {
    if width > 0 {
      ValueOfEncode(v / 2, width - 1);
      var r := Encode(v, width);
      assert r[1..] == Encode(v / 2, width - 1);
      HalveMod(v, Pow2(width - 1));
    }
  }

  lemma {:induction false} HalveMod(v: nat, m: nat)
    requires m > 0
    ensures v % (2 * m) == v % 2 + 2 * ((v / 2) % m)
  {
    var h := v / 2;
    var q, r := h / m, h % m;
    assert h == q * m + r;
    assert v == 2 * h + v % 2;
    assert v == q * (2 * m) + (2 * r + v % 2);
    assert 0 <= 2 * r + v % 2 < 2 * m;
    ModUnique(v, 2 * m, q, 2 * r + v % 2);
  }

  lemma {:induction false} Multiple(d: int, m: int)
    requires m > 0 && d != 0
    ensures d * m >= m || d * m <= -m
  {
  }

  lemma {:induction false} ModUnique(v: nat, m: nat, q: nat, r: nat)
    requires m > 0 && v == q * m + r && r < m
    ensures v % m == r
  {
    var d := v / m - q;
    assert d * m == v / m * m - q * m;
    if d != 0 {
      Multiple(d, m);
    }
  }

  lemma {:induction false} EncodePrefix(v: nat, width: nat, n: nat)
    requires n <= width
    ensures Encode(v, width)[..n] == Encode(v, n)
    decreases n
  {
    if n > 0 {
      EncodePrefix(v / 2, width - 1, n - 1);
      var r := Encode(v, width);
      assert r[..n] == [r[0]] + r[1..][..n - 1];
      assert r[1..] == Encode(v / 2, width - 1);
    }
  }

  lemma Carry(bit: int, x: int, p: int, v: int)
    ensures bit + 2 * (x + p * v) == (bit + 2 * x) + (2 * p) * v
  {
  }

  lemma {:induction false} ValueCons(bit: bool, w: Word)
    ensures Value([bit] + w) == (if bit then 1 else 0) + 2 * Value(w)
  {
  }

  lemma {:induction false} ValueConcat(a: Word, b: Word)
    ensures Value(a + b) == Value(a) + Pow2(|a|) * Value(b)
  {
    hide Value;
    if a == [] {
      assert a + b == b;
      ValueOfNothing();
    } else {
      var rest := a[1..];
      assert a == [a[0]] + rest && a + b == [a[0]] + (rest + b);
      ValueConcat(rest, b);
      ValueCons(a[0], rest);
      ValueCons(a[0], rest + b);
      Carry(if a[0] then 1 else 0, Value(rest), Pow2(|rest|), Value(b));
    }
  }

  lemma {:induction false} ValueOfNothing()
    ensures Value([]) == 0
  {
  }

  lemma {:induction false} ValueOfZeros(k: nat)
    ensures Value(seq(k, _ => false)) == 0
    decreases k
  {
    if k > 0 {
      assert seq(k, _ => false)[1..] == seq(k - 1, _ => false);
      ValueOfZeros(k - 1);
    }
  }

  lemma {:induction false} GetValue(w: Word, position: nat, n: nat)
    requires Fits(w, position, n)
    ensures Value(Get(w, position, n)) == Value(w[position..position + n])
  {
    hide Get;
    GetIsField(w, position, n);
    ValueConcat(w[position..position + n], seq(|w| - n, _ => false));
    ValueOfZeros(|w| - n);
  }

  /** Reading after writing `v` gives `v` modulo the size of the field, for every width of word,
      position and length. */
  lemma {:induction false} ReadAfterWrite(w: Word, position: nat, n: nat, v: nat)
    requires Fits(w, position, n)
    ensures Value(Get(Set(w, position, n, Encode(v, |w|)), position, n)) == v % Pow2(n)
  {
    hide Get, Set;
    var e := Encode(v, |w|);
    var u := Set(w, position, n, e);
    SetIsSplice(w, position, n, e);
    GetValue(u, position, n);
    assert u[position..position + n] == e[..n];
    EncodePrefix(v, |w|, n);
    ValueOfEncode(v, n);
  }

  /** As numbers: the write exchanges the field's share of the word and nothing else. */
  lemma {:induction false} WriteConserves(w: Word, position: nat, n: nat, v: nat)
    requires Fits(w, position, n)
    ensures var u := Set(w, position, n, Encode(v, |w|));
            Value(u) - Pow2(position) * (v % Pow2(n)) ==
            Value(w) - Pow2(position) * Value(Get(w, position, n))
  {
    hide Get, Set, Value, Pow2, Encode;
    var e := Encode(v, |w|);
    SetIsSplice(w, position, n, e);
    GetValue(w, position, n);
    EncodePrefix(v, |w|, n);
    ValueOfEncode(v, n);
    var low, field, high := w[..position], w[position..position + n], w[position + n..];
    assert w == low + (field + high);
    assert low + e[..n] + high == low + (e[..n] + high);
    Splice(low, field, high);
    Splice(low, e[..n], high);
  }

  lemma {:induction false} Splice(low: Word, field: Word, high: Word)
    ensures Value(low + (field + high)) ==
            Value(low) + Pow2(|low|) * Value(field) + Pow2(|low|) * (Pow2(|field|) * Value(high))
  {
    hide Value, Pow2;
    ValueConcat(low, field + high);
    ValueConcat(field, high);
    Distributes(Pow2(|low|), Value(field), Pow2(|field|) * Value(high));
  }

  lemma Distributes(a: int, b: int, c: int)
    ensures a * (b + c) == a * b + a * c
  {
  }

  // ---------------------------------------------------------------- in memory

  class Memory {
    var words: map<nat, Word>

    method GetNativeBitField(address: nat, position: nat, n: nat) returns (value: nat)
      requires address in words && Fits(words[address], position, n)
      ensures value == Value(words[address][position..position + n])
    {
      GetValue(words[address], position, n);
      value := Value(Get(words[address], position, n));
    }

    method SetNativeBitField(address: nat, position: nat, n: nat, value: nat)
      requires address in words && Fits(words[address], position, n)
      modifies this
      ensures words.Keys == old(words).Keys
      ensures forall a :: a in words && a != address ==> words[a] == old(words)[a]
      ensures var was := old(words)[address];
              words[address] == was[..position] + Encode(value, n) + was[position + n..]
    {
      var w := words[address];
      SetIsSplice(w, position, n, Encode(value, |w|));
      EncodePrefix(value, |w|, n);
      words := words[address := Set(w, position, n, Encode(value, |w|))];
    }
  }
}
