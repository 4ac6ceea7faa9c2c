/** Counting with a customised alphabet of digits (utils/index.go). */
module DigitIncrement {
  import opened Arithmetic

  // ---------------------------------------------------------------------------
  // Digits
  // ---------------------------------------------------------------------------

  /** The reference search: the last position of `c`, or -1. */
  function DigitIndex(digits: string, c: char): (i: int)
    ensures -1 <= i < |digits|
    ensures i >= 0 ==> digits[i] == c
    ensures forall j :: i < j < |digits| ==> digits[j] != c
  {
    if digits == "" then -1
    else if digits[|digits| - 1] == c then |digits| - 1
    else DigitIndex(digits[..|digits| - 1], c)
  }

  ghost predicate IsTable(digits: string, table: map<char, int>) {
    forall c :: (c in table <==> c in digits) && (c in table ==> table[c] == DigitIndex(digits, c))
  }

  /** The increment: the last digit that is not the greatest moves on, the digits behind
      it start over. A character that is no digit counts as the greatest. */
  function Increment(val: string, digits: string): (r: string)
    requires digits != "" || val == ""
    ensures |r| == |val|
  {
    if val == "" then ""
    else
      var front, i := val[..|val| - 1], DigitIndex(digits, val[|val| - 1]);
      if 0 <= i < |digits| - 1 then front + [digits[i + 1]] else Increment(front, digits) + [digits[0]]
  }

  class DigitTables {
    var cached: map<string, map<char, int>>

    ghost predicate Valid()
      reads this
    {
      forall d :: d in cached ==> IsTable(d, cached[d])
    }

    constructor ()
      ensures Valid()
    {
      cached := map[];
    }

    /** The memoised table answers what a direct search would. */
    method GetDigitIndex(digits: string, c: char) returns (idx: int)
      requires Valid()
      modifies this
      ensures Valid() && idx == DigitIndex(digits, c)
      ensures cached.Keys == old(cached.Keys) + {digits}
    {
      var m;
      if digits in cached {
        m := cached[digits];
      } else {
        m := map[];
        var i := 0;
        while i < |digits|
          invariant 0 <= i <= |digits| && IsTable(digits[..i], m)
        {
          assert digits[..i + 1][..i] == digits[..i];
          assert digits[..i + 1] == digits[..i] + [digits[i]];
          m := m[digits[i] := i];
          i := i + 1;
        }
        assert digits[..i] == digits;
        cached := cached[digits := m];
      }
      idx := if c in m then m[c] else -1;
    }

    method IncreaseValue(val: string, digits: string) returns (r: string)
      requires Valid() && (digits != "" || val == "")
      modifies this
      ensures Valid() && r == Increment(val, digits)
    {
      var bvals := new char[|val|](i requires 0 <= i < |val| => val[i]);
      var maxidx, bvalslen := |digits| - 1, |val|;
      var resetidx := bvalslen;
      var i := bvalslen - 1;
      assert bvals[..] == val;
      while i >= 0
        invariant -1 <= i < bvalslen && resetidx == i + 1 && Valid()
        invariant bvals[..] == val
        invariant forall j :: i < j < bvalslen ==> !(0 <= DigitIndex(digits, val[j]) < |digits| - 1)
      {
        var idx := GetDigitIndex(digits, bvals[i]);
        if 0 <= idx && maxidx > idx {
          bvals[i] := digits[idx + 1];
          break;
        }
        resetidx := i;
        i := i - 1;
      }
      ResetFrom(bvals, resetidx, digits);
      r := bvals[..];
      IncrementIs(val, digits, i, r);
    }

    static method ResetFrom(bvals: array<char>, from: nat, digits: string)
      requires from <= bvals.Length && (digits != "" || from == bvals.Length)
      modifies bvals
      ensures forall j :: 0 <= j < bvals.Length ==> bvals[j] == if j < from then old(bvals[j]) else digits[0]
    {
      var resetidx := from;
      while resetidx < bvals.Length
        invariant from <= resetidx <= bvals.Length
        invariant forall j :: 0 <= j < bvals.Length ==> bvals[j] == if from <= j < resetidx then digits[0] else old(bvals[j])
      {
        bvals[resetidx] := digits[0];
        resetidx := resetidx + 1;
      }
    }
  }

  /** The loops compute the increment: everything from `k` on carries. */
  lemma {:induction false} IncrementIs(val: string, digits: string, i: int, r: string)
    requires digits != "" || val == ""
    requires -1 <= i < |val| && |r| == |val|
    requires forall j :: i < j < |val| ==> !(0 <= DigitIndex(digits, val[j]) < |digits| - 1) && r[j] == digits[0]
    requires forall j :: 0 <= j < i ==> r[j] == val[j]
    requires i >= 0 ==> 0 <= DigitIndex(digits, val[i]) < |digits| - 1 && r[i] == digits[DigitIndex(digits, val[i]) + 1]
    ensures r == Increment(val, digits)
    decreases |val|
  {
    if val != "" {
      var front := val[..|val| - 1];
      if i < |val| - 1 {
        IncrementIs(front, digits, i, r[..|r| - 1]);
        assert r == r[..|r| - 1] + [digits[0]];
      } else {
        assert r == front + [r[i]];
      }
    }
  }

  // ---------------------------------------------------------------------------
  // Numbers
  // ---------------------------------------------------------------------------

  ghost predicate Alphabet(digits: string) {
    digits != "" && forall i, j :: 0 <= i < j < |digits| ==> digits[i] != digits[j]
  }

  ghost predicate Over(val: string, digits: string) {
    forall c :: c in val ==> c in digits
  }

  function Power(base: nat, n: nat): (p: nat)
    ensures base >= 1 ==> p >= 1
  {
    if n == 0 then 1 else base * Power(base, n - 1)
  }

  /** The number a string of digits spells. */
  function Value(val: string, digits: string): int {
    if val == "" then 0 else Value(val[..|val| - 1], digits) * |digits| + DigitIndex(digits, val[|val| - 1])
  }

  lemma DigitKnown(digits: string, c: char)
    requires c in digits
    ensures 0 <= DigitIndex(digits, c)
  {
  }

  lemma IndexOfDigit(digits: string, i: nat)
    requires Alphabet(digits) && i < |digits|
    ensures DigitIndex(digits, digits[i]) == i
  {
    var j := DigitIndex(digits, digits[i]);
    DigitKnown(digits, digits[i]);
    assert digits[j] == digits[i];
  }

  lemma {:induction false} ValueBounds(val: string, digits: string)
    requires Alphabet(digits) && Over(val, digits)
    ensures 0 <= Value(val, digits) < Power(|digits|, |val|)
  {
    if val != "" {
      var front, last := val[..|val| - 1], val[|val| - 1];
      assert Over(front, digits) && last in val;
      ValueBounds(front, digits);
      DigitKnown(digits, last);
      Scale(Value(front, digits), Power(|digits|, |front|), |digits|, DigitIndex(digits, last));
    }
  }

  lemma Scale(v: int, p: int, b: int, d: int)
    requires 0 <= v < p && 0 <= d < b
    ensures 0 <= v * b + d < b * p
  {
    assert v * b <= (p - 1) * b;
  }

  lemma {:induction false} IncrementOver(val: string, digits: string)
    requires Alphabet(digits) && Over(val, digits)
    ensures Over(Increment(val, digits), digits)
  {
    if val != "" {
      assert Over(val[..|val| - 1], digits);
      IncrementOver(val[..|val| - 1], digits);
    }
  }

  /** One more, starting again at the end. */
  function Wrapped(v: int, m: int): int {
    if v + 1 < m then v + 1 else 0
  }

  lemma WrappedIsModulo(v: int, m: int)
    requires 0 <= v < m
    ensures Wrapped(v, m) == (v + 1) % m
  {
    if v + 1 < m {
      SmallModulo(v + 1, m);
    } else {
      WholeModulo(m);
    }
  }

  lemma Carry(v: int, p: int, b: int)
    requires 0 <= v < p && b >= 1
    ensures Wrapped(v, p) * b == Wrapped(v * b + b - 1, b * p)
  {
    assert v * b + b == (v + 1) * b;
    if v + 1 < p {
      Scale(v + 1, p, b, 0);
    }
  }

  lemma {:induction false} IncrementWraps(val: string, digits: string)
    requires Alphabet(digits) && Over(val, digits)
    ensures Value(Increment(val, digits), digits) == Wrapped(Value(val, digits), Power(|digits|, |val|))
  {
    if val != "" {
      var front, last := val[..|val| - 1], val[|val| - 1];
      assert Over(front, digits) && last in val;
      DigitKnown(digits, last);
      ValueBounds(front, digits);
      var v, p := Value(front, digits), Power(|digits|, |front|);
      if DigitIndex(digits, last) < |digits| - 1 {
        ValueSnoc(front, digits, DigitIndex(digits, last) + 1);
        Scale(v, p, |digits|, DigitIndex(digits, last) + 1);
      } else {
        IncrementWraps(front, digits);
        IncrementOver(front, digits);
        ValueSnoc(Increment(front, digits), digits, 0);
        Carry(v, p, |digits|);
      }
    }
  }

  /** The increment adds one, modulo the number of strings of that length. */
  lemma IncrementAddsOne(val: string, digits: string)
    requires Alphabet(digits) && Over(val, digits)
    ensures Value(Increment(val, digits), digits) == (Value(val, digits) + 1) % Power(|digits|, |val|)
  {
    IncrementWraps(val, digits);
    ValueBounds(val, digits);
    WrappedIsModulo(Value(val, digits), Power(|digits|, |val|));
  }

  /** One more digit behind. */
  lemma ValueSnoc(front: string, digits: string, i: nat)
    requires Alphabet(digits) && Over(front, digits) && i < |digits|
    ensures Over(front + [digits[i]], digits)
    ensures Value(front + [digits[i]], digits) == Value(front, digits) * |digits| + i
  {
    IndexOfDigit(digits, i);
    assert (front + [digits[i]])[..|front|] == front;
  }

  // ---------------------------------------------------------------------------
  // The cycle
  // ---------------------------------------------------------------------------

  function Iterate(val: string, digits: string, k: nat): (r: string)
    requires digits != ""
    ensures |r| == |val|
  {
    if k == 0 then val else Increment(Iterate(val, digits, k - 1), digits)
  }

  lemma {:induction false} IterateOver(val: string, digits: string, k: nat)
    requires Alphabet(digits) && Over(val, digits)
    ensures Over(Iterate(val, digits, k), digits)
  {
    if k > 0 {
      IterateOver(val, digits, k - 1);
      IncrementOver(Iterate(val, digits, k - 1), digits);
    }
  }

  lemma {:induction false} IterateAdds(val: string, digits: string, k: nat)
    requires Alphabet(digits) && Over(val, digits)
    ensures Over(Iterate(val, digits, k), digits)
    ensures Value(Iterate(val, digits, k), digits) == (Value(val, digits) + k) % Power(|digits|, |val|)
  {
    IterateOver(val, digits, k);
    if k == 0 {
      ValueBounds(val, digits);
      SmallModulo(Value(val, digits), Power(|digits|, |val|));
    } else {
      IterateAdds(val, digits, k - 1);
      IncrementAddsOne(Iterate(val, digits, k - 1), digits);
      AddOneModulo(Value(val, digits) + k - 1, Power(|digits|, |val|));
    }
  }

  lemma {:induction false} ValueInjective(a: string, b: string, digits: string)
    requires Alphabet(digits) && Over(a, digits) && Over(b, digits) && |a| == |b|
    requires Value(a, digits) == Value(b, digits)
    ensures a == b
  {
    if a != "" {
      var fa, fb, la, lb := a[..|a| - 1], b[..|b| - 1], a[|a| - 1], b[|b| - 1];
      assert la in a && lb in b && Over(fa, digits) && Over(fb, digits);
      DigitKnown(digits, la);
      DigitKnown(digits, lb);
      ModuloOf(Value(fa, digits), DigitIndex(digits, la), |digits|);
      ModuloOf(Value(fb, digits), DigitIndex(digits, lb), |digits|);
      assert DigitIndex(digits, la) == DigitIndex(digits, lb) && la == lb;
      SameFactor(Value(fa, digits), Value(fb, digits), |digits|);
      ValueInjective(fa, fb, digits);
      assert a == fa + [la] && b == fb + [lb];
    }
  }

  lemma SameFactor(x: int, y: int, b: int)
    requires b >= 1 && x * b == y * b
    ensures x == y
  {
  }

  /** After as many increments as there are strings of that length, the start is back. */
  lemma CycleReturns(val: string, digits: string)
    requires Alphabet(digits) && Over(val, digits)
    ensures Iterate(val, digits, Power(|digits|, |val|)) == val
  {
    var m := Power(|digits|, |val|);
    ValueBounds(val, digits);
    IterateAdds(val, digits, m);
    ModuloOf(1, Value(val, digits), m);
    ValueInjective(Iterate(val, digits, m), val, digits);
  }

  lemma Reaches(val: string, digits: string, target: string) returns (k: nat)
    requires Alphabet(digits) && Over(val, digits) && Over(target, digits) && |target| == |val|
    ensures k < Power(|digits|, |val|) && Iterate(val, digits, k) == target
  {
    var m, v, t := Power(|digits|, |val|), Value(val, digits), Value(target, digits);
    ValueBounds(val, digits);
    ValueBounds(target, digits);
    k := if t >= v then t - v else t - v + m;
    IterateAdds(val, digits, k);
    ModuloOf(if t >= v then 0 else 1, t, m);
    ValueInjective(Iterate(val, digits, k), target, digits);
  }

  lemma RemaindersDiffer(v: int, j: nat, k: nat, m: nat, a: int, b: int, r: int, q: int)
    requires j < k < m && v + j == a * m + r && v + k == b * m + q
    ensures r != q
  {
    assert (b - a) * m == k - j - (q - r);
    MultipleBounds(b - a, m);
  }

  /** After `k` increments the value is the remainder that `k` more than the start leaves. */
  lemma StepValue(val: string, digits: string, k: nat) returns (a: int)
    requires Alphabet(digits) && Over(val, digits)
    ensures Value(val, digits) + k == a * Power(|digits|, |val|) + Value(Iterate(val, digits, k), digits)
  {
    IterateAdds(val, digits, k);
    a := QuotientOf(Value(val, digits) + k, Power(|digits|, |val|), Value(Iterate(val, digits, k), digits));
  }

  lemma StepsDiffer(val: string, digits: string, j: nat, k: nat)
    requires Alphabet(digits) && Over(val, digits) && j < k < Power(|digits|, |val|)
    ensures Iterate(val, digits, j) != Iterate(val, digits, k)
  {
    var a := StepValue(val, digits, j);
    var b := StepValue(val, digits, k);
    RemaindersDiffer(Value(val, digits), j, k, Power(|digits|, |val|), a, b,
                     Value(Iterate(val, digits, j), digits), Value(Iterate(val, digits, k), digits));
  }

  /** On the way every string of that length over the alphabet is met exactly once. */
  lemma CycleVisitsEachOnce(val: string, digits: string, target: string)
    requires Alphabet(digits) && Over(val, digits) && Over(target, digits) && |target| == |val|
    ensures exists k: nat :: k < Power(|digits|, |val|) && Iterate(val, digits, k) == target
    ensures forall j: nat, k: nat ::
              j < k < Power(|digits|, |val|) ==> Iterate(val, digits, j) != Iterate(val, digits, k)
  {
    var k := Reaches(val, digits, target);
    forall j: nat, k: nat | j < k < Power(|digits|, |val|)
      ensures Iterate(val, digits, j) != Iterate(val, digits, k)
    {
      StepsDiffer(val, digits, j, k);
    }
  }
}
