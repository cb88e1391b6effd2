// Signed numbers of five digits in base 10^9.
module BigNumber {

  const LIMIT: nat := 1_000_000_000

  function Power(i: nat): nat {
    if i == 0 then 1 else LIMIT * Power(i - 1)
  }

  // The value of the lowest i digits.
  function Low(ds: seq<nat>, i: nat): nat
    requires i <= |ds|
  {
    if i == 0 then 0 else Low(ds, i - 1) + ds[i - 1] * Power(i - 1)
  }

  function Magnitude(ds: seq<nat>): nat {
    Low(ds, |ds|)
  }

  ghost predicate Proper(ds: seq<nat>) {
    |ds| == 5 && forall i :: 0 <= i < 5 ==> ds[i] < LIMIT
  }

  function Value(ds: seq<nat>, sign: int): int {
    if sign < 0 then 0 - Magnitude(ds) else Magnitude(ds)
  }

  // Zero has no sign.
  ghost predicate Canonical(ds: seq<nat>, sign: int) {
    Proper(ds) && (sign == 0 || (sign == -1 && Magnitude(ds) > 0))
  }

  // ---------- digits and magnitudes ----------

  lemma Distribute(a: nat, b: nat, p: nat)
    ensures (a + b) * p == a * p + b * p
  {
  }

  lemma MulLess(a: nat, b: nat, p: nat)
    requires a < b
    ensures a * p + p <= b * p
  {
    Distribute(a, 1, p);
    MulOrder(a + 1, b, p);
  }

  lemma MulOrder(a: nat, b: nat, p: nat)
    requires a <= b
    ensures a * p <= b * p
  {
  }

  lemma {:induction false} LowBound(ds: seq<nat>, i: nat)
    requires i <= |ds| && forall j :: 0 <= j < i ==> ds[j] < LIMIT
    ensures Low(ds, i) < Power(i)
  {
    if i > 0 {
      LowBound(ds, i - 1);
      MulLess(ds[i - 1], LIMIT, Power(i - 1));
    }
  }

  lemma {:induction false} SameLow(ds: seq<nat>, es: seq<nat>, i: nat)
    requires i <= |ds| && i <= |es| && ds[..i] == es[..i]
    ensures Low(ds, i) == Low(es, i)
  {
    if i > 0 {
      assert ds[..i - 1] == ds[..i][..i - 1] == es[..i - 1];
      assert ds[i - 1] == ds[..i][i - 1] == es[i - 1];
      SameLow(ds, es, i - 1);
    }
  }

  // The highest digit that differs decides.
  lemma {:induction false} Decides(ds: seq<nat>, es: seq<nat>, i: nat, n: nat)
    requires i < n <= |ds| == |es| && forall j :: 0 <= j < n ==> ds[j] < LIMIT
    requires ds[i] < es[i] && forall j :: i < j < n ==> ds[j] == es[j]
    ensures Low(ds, n) < Low(es, n)
    decreases n
  {
    if i == n - 1 {
      LowBound(ds, i);
      MulLess(ds[i], es[i], Power(i));
    } else {
      Decides(ds, es, i, n - 1);
    }
  }

  lemma {:induction false} Zeros(ds: seq<nat>, n: nat)
    requires n <= |ds|
    ensures Low(ds, n) == 0 <==> forall j :: 0 <= j < n ==> ds[j] == 0
  {
    if n > 0 {
      Zeros(ds, n - 1);
      PowerPositive(n - 1);
      MulOrder(if ds[n - 1] > 0 then 1 else 0, ds[n - 1], Power(n - 1));
    }
  }

  lemma PowerPositive(n: nat)
    ensures Power(n) > 0
  {
  }

  // Equal magnitudes have equal digits.
  lemma SameDigits(ds: seq<nat>, es: seq<nat>)
    requires Proper(ds) && Proper(es) && Magnitude(ds) == Magnitude(es)
    ensures ds == es
  {
    if ds != es {
      var i := HighestDifference(ds, es, 5);
      if ds[i] < es[i] {
        Decides(ds, es, i, 5);
      } else {
        Decides(es, ds, i, 5);
      }
    }
  }

  ghost function HighestDifference(ds: seq<nat>, es: seq<nat>, n: nat): (i: nat)
    requires n <= |ds| == |es| && exists j :: 0 <= j < n && ds[j] != es[j]
    ensures i < n && ds[i] != es[i] && forall j :: i < j < n ==> ds[j] == es[j]
  {
    if ds[n - 1] != es[n - 1] then n - 1 else HighestDifference(ds, es, n - 1)
  }

  // One column of an addition.
  lemma Column(a: nat, b: nat, c: nat, s: nat, c': nat, low: nat, i: nat)
    requires a + b + c == s + c' * LIMIT
    ensures low + c * Power(i) + a * Power(i) + b * Power(i) == low + s * Power(i) + c' * Power(i + 1)
  {
    var p := Power(i);
    Distribute(a + b, c, p);
    Distribute(a, b, p);
    Distribute(s, c' * LIMIT, p);
    assert (c' * LIMIT) * p == c' * (LIMIT * p);
  }

  // ---------- the operations ----------

  datatype Comparison = LessThan | EqualTo | GreaterThan

  function Order(x: int, y: int): Comparison {
    if x < y then LessThan else if x == y then EqualTo else GreaterThan
  }

  class BigNum {
    const digits: array<nat>
    var sign: int

    constructor ()
      ensures digits.Length == 5 && fresh(digits) && digits[..] == [0, 0, 0, 0, 0] && sign == 0
    {
      digits := new nat[5](_ => 0);
      sign := 0;
    }
  }

  ghost predicate Number(n: BigNum)
    reads n, n.digits
  {
    n.digits.Length == 5 && -1 <= n.sign <= 0
  }

  // Either the same number or one that shares nothing with it.
  ghost predicate Apart(r: BigNum, a: BigNum) {
    r == a || r.digits != a.digits
  }

  method Compare(a: BigNum, b: BigNum) returns (c: Comparison)
    requires Number(a) && Number(b) && Proper(a.digits[..]) && Proper(b.digits[..])
    ensures Canonical(a.digits[..], a.sign) && Canonical(b.digits[..], b.sign) ==>
      c == Order(Value(a.digits[..], a.sign), Value(b.digits[..], b.sign))
    ensures c == Order(Value(a.digits[..], a.sign), Value(b.digits[..], b.sign)) <==>
      a.sign == b.sign || Magnitude(a.digits[..]) > 0 || Magnitude(b.digits[..]) > 0
  {
    ghost var ds, es := a.digits[..], b.digits[..];
    if a.sign == b.sign {
      var negative := a.sign < 0;
      var i := 5;
      while i > 0
        invariant 0 <= i <= 5 && forall j :: i <= j < 5 ==> ds[j] == es[j]
      {
        i := i - 1;
        if a.digits[i] < b.digits[i] {
          Decides(ds, es, i, 5);
          return if !negative then LessThan else GreaterThan;
        }
        if a.digits[i] > b.digits[i] {
          Decides(es, ds, i, 5);
          return if negative then LessThan else GreaterThan;
        }
      }
      assert ds == es;
      return EqualTo;
    }
    return if a.sign < b.sign then LessThan else GreaterThan;
  }

  method AbsoluteLessThan(a: BigNum, b: BigNum) returns (less: bool)
    requires Number(a) && Number(b) && Proper(a.digits[..]) && Proper(b.digits[..])
    ensures less <==> Magnitude(a.digits[..]) < Magnitude(b.digits[..])
  {
    ghost var ds, es := a.digits[..], b.digits[..];
    var i := 5;
    while i > 0
      invariant 0 <= i <= 5 && forall j :: i <= j < 5 ==> ds[j] == es[j]
    {
      i := i - 1;
      if a.digits[i] < b.digits[i] {
        Decides(ds, es, i, 5);
        return true;
      }
      if a.digits[i] > b.digits[i] {
        Decides(es, ds, i, 5);
        return false;
      }
    }
    assert ds == es;
    return false;
  }

  // r = -a, where r may be a.
  method Neg(r: BigNum, a: BigNum)
    requires Number(r) && Number(a) && Apart(r, a)
    modifies r, r.digits
    ensures Number(r) && r.digits[..] == old(a.digits[..])
    ensures Value(r.digits[..], r.sign) == -old(Value(a.digits[..], a.sign))
    ensures old(Canonical(a.digits[..], a.sign)) ==> Canonical(r.digits[..], r.sign)
  {
    ghost var ds := a.digits[..];
    r.sign := a.sign;
    for i := 0 to 5
      invariant r.digits[..i] == ds[..i] && a.digits[i..] == ds[i..] && r.sign == old(a.sign)
    {
      r.digits[i] := a.digits[i];
    }
    assert r.digits[..] == ds;
    Zeros(ds, 5);
    var isZero := true;
    for i := 0 to 5
      invariant isZero <==> forall j :: 0 <= j < i ==> ds[j] == 0
    {
      if r.digits[i] != 0 {
        isZero := false;
        break;
      }
    }
    if !isZero {
      r.sign := r.sign * r.sign - 1;
    }
  }

  lemma LowSnoc(ds: seq<nat>, d: nat)
    ensures Magnitude(ds + [d]) == Magnitude(ds) + d * Power(|ds|)
  {
    assert (ds + [d])[..|ds|] == ds[..|ds|];
    SameLow(ds + [d], ds, |ds|);
  }

  // What the columns below i carry over.  The test leaves a digit that equals the limit.
  function Carry(ds: seq<nat>, es: seq<nat>, i: nat): (c: nat)
    requires i <= |ds| && i <= |es|
    ensures c <= 1
  {
    if i == 0 then 0 else if ds[i - 1] + es[i - 1] + Carry(ds, es, i - 1) > LIMIT then 1 else 0
  }

  ghost predicate FullColumn(ds: seq<nat>, es: seq<nat>, i: nat)
    requires i < |ds| && i < |es|
  {
    ds[i] + es[i] + Carry(ds, es, i) == LIMIT
  }

  // Two halves of the limit make a digit that is out of range.
  lemma FullColumnHappens()
    ensures FullColumn([500_000_000, 0, 0, 0, 0], [500_000_000, 0, 0, 0, 0], 0)
  {
  }

  method AddMagnitudes(r: BigNum, a: BigNum, b: BigNum) returns (carry: nat)
    requires Number(r) && Number(a) && Number(b) && Apart(r, a) && Apart(r, b)
    requires Proper(a.digits[..]) && Proper(b.digits[..])
    modifies r.digits
    ensures carry <= 1
    ensures Magnitude(r.digits[..]) + carry * Power(5) == old(Magnitude(a.digits[..]) + Magnitude(b.digits[..]))
    ensures forall i :: 0 <= i < 5 ==> r.digits[i] <= LIMIT
    ensures forall i :: 0 <= i < 5 ==> (r.digits[i] == LIMIT <==> FullColumn(old(a.digits[..]), old(b.digits[..]), i))
  {
    hide Magnitude, Power, Low;
    ghost var ds, es, out: seq<nat> := a.digits[..], b.digits[..], [];
    NoColumns(ds, es);
    carry := 0;
    for i := 0 to 5
      invariant carry == Carry(ds, es, i) && |out| == i && r.digits[..i] == out
      invariant forall j :: i <= j < 5 ==> a.digits[j] == ds[j] && b.digits[j] == es[j]
      invariant Magnitude(out) + carry * Power(i) == Low(ds, i) + Low(es, i)
      invariant forall j :: 0 <= j < i ==> out[j] <= LIMIT && (out[j] == LIMIT <==> FullColumn(ds, es, j))
    {
      var result := a.digits[i] + b.digits[i] + carry;
      ghost var was := carry;
      if result > LIMIT {
        carry := 1;
        result := result - LIMIT;
      } else {
        carry := 0;
      }
      ColumnAdded(ds, es, i, out, was, result, carry);
      r.digits[i] := result;
      out := out + [result];
    }
    assert r.digits[..] == out;
  }

  lemma ColumnAdded(ds: seq<nat>, es: seq<nat>, i: nat, out: seq<nat>, was: nat, result: nat, carry: nat)
    requires i < |ds| && i < |es| && |out| == i && ds[i] + es[i] + was == result + carry * LIMIT
    requires Magnitude(out) + was * Power(i) == Low(ds, i) + Low(es, i)
    ensures Magnitude(out + [result]) + carry * Power(i + 1) == Low(ds, i + 1) + Low(es, i + 1)
  {
    hide Power;
    Column(ds[i], es[i], was, result, carry, Magnitude(out), i);
    LowSnoc(out, result);
  }

  lemma NoColumns(ds: seq<nat>, es: seq<nat>)
    ensures Magnitude([]) + 0 * Power(0) == Low(ds, 0) + Low(es, 0)
    ensures Magnitude(ds) == Low(ds, |ds|) && Magnitude(es) == Low(es, |es|)
  {
  }

  // The digits of the difference of two magnitudes, the larger first.
  method SubtractMagnitudes(r: BigNum, big: BigNum, small: BigNum) returns (carry: nat)
    requires Number(r) && Number(big) && Number(small) && Apart(r, big) && Apart(r, small)
    requires Proper(big.digits[..]) && Proper(small.digits[..])
    requires Magnitude(small.digits[..]) <= Magnitude(big.digits[..])
    modifies r.digits
    ensures carry == 0 && Proper(r.digits[..])
    ensures Magnitude(r.digits[..]) == old(Magnitude(big.digits[..]) - Magnitude(small.digits[..]))
  {
    ghost var ds, es, out: seq<nat> := big.digits[..], small.digits[..], [];
    carry := 0;
    for i := 0 to 5
      invariant carry <= 1 && |out| == i && r.digits[..i] == out
      invariant forall j :: i <= j < 5 ==> big.digits[j] == ds[j] && small.digits[j] == es[j]
      invariant Magnitude(out) + Low(es, i) == Low(ds, i) + carry * Power(i)
      invariant forall j :: 0 <= j < i ==> out[j] < LIMIT
    {
      var result: int := big.digits[i] - small.digits[i] - carry;
      ghost var was := carry;
      if result < 0 {
        carry := 1;
        result := result + LIMIT;
      } else {
        carry := 0;
      }
      Borrow(ds[i], es[i], was, result, carry, i);
      LowSnoc(out, result);
      r.digits[i] := result;
      out := out + [result];
    }
    assert r.digits[..] == out;
    LowBound(out, 5);
  }

  lemma Borrow(a: nat, b: nat, c: nat, s: nat, c': nat, i: nat)
    requires s + b + c == a + c' * LIMIT
    ensures s * Power(i) + b * Power(i) + c * Power(i) == a * Power(i) + c' * Power(i + 1)
  {
    var p := Power(i);
    Distribute(s + b, c, p);
    Distribute(s, b, p);
    Distribute(a, c' * LIMIT, p);
    assert (c' * LIMIT) * p == c' * (LIMIT * p);
  }

  // r = a + b, where r may be a or b.
  method Add(r: BigNum, a: BigNum, b: BigNum) returns (carry: nat)
    requires Number(r) && Number(a) && Number(b) && Apart(r, a) && Apart(r, b)
    requires Proper(a.digits[..]) && Proper(b.digits[..])
    modifies r, r.digits
    ensures Number(r) && forall i :: 0 <= i < 5 ==> r.digits[i] <= LIMIT
    // equal signs: nothing is lost, and the digits are in range except in full columns
    ensures old(a.sign == b.sign) ==>
      && carry <= 1 && r.sign == old(a.sign)
      && Magnitude(r.digits[..]) + carry * Power(5) == old(Magnitude(a.digits[..]) + Magnitude(b.digits[..]))
      && forall i :: 0 <= i < 5 ==> (r.digits[i] == LIMIT <==> FullColumn(old(a.digits[..]), old(b.digits[..]), i))
    // different signs: exact, and canonical unless a negative number meets its opposite
    ensures old(a.sign != b.sign) ==>
      && carry == 0
      && Value(r.digits[..], r.sign) == old(Value(a.digits[..], a.sign) + Value(b.digits[..], b.sign))
      && (Canonical(r.digits[..], r.sign) <==>
            old(a.sign == 0 || Magnitude(a.digits[..]) != Magnitude(b.digits[..])))
  {
    if a.sign == b.sign {
      var sign := a.sign;
      carry := AddMagnitudes(r, a, b);
      r.sign := sign;
    } else {
      var less := AbsoluteLessThan(a, b);
      var big, small := if less then b else a, if less then a else b;
      carry := SubtractMagnitudes(r, big, small);
      r.sign := if big.sign < 0 then -1 else 0;
    }
  }

  // r = a - b.
  method Sub(r: BigNum, a: BigNum, b: BigNum) returns (carry: nat)
    requires Number(r) && Number(a) && Number(b) && Apart(r, a) && Apart(r, b)
    requires Canonical(a.digits[..], a.sign) && Canonical(b.digits[..], b.sign)
    modifies r, r.digits
    ensures Number(r) && carry <= 1
    ensures Value(r.digits[..], r.sign) + (if old(a.sign) < 0 then -1 else 1) * carry * Power(5)
         == old(Value(a.digits[..], a.sign) - Value(b.digits[..], b.sign))
  {
    hide Magnitude, Power;
    var nb := new BigNum();
    Neg(nb, b);
    carry := Add(r, a, nb);
  }
}
