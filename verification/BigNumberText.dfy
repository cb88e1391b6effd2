// Big numbers from and to machine integers and decimal text.
module BigNumberText {
  import opened BigNumber

  const LIMIT2: nat := 1_000_000_000_000_000_000
  const LIMIT3: nat := 1_000_000_000_000_000_000_000_000_000
  const LIMIT4: nat := 1_000_000_000_000_000_000_000_000_000_000_000_000

  lemma Powers()
    ensures Power(1) == LIMIT && Power(2) == LIMIT2 && Power(3) == LIMIT3 && Power(4) == LIMIT4
  {
  }

  lemma Unrolled(ds: seq<nat>)
    requires |ds| == 5
    ensures Magnitude(ds) == ds[0] + ds[1] * LIMIT + ds[2] * LIMIT2 + ds[3] * LIMIT3 + ds[4] * LIMIT4
  {
    Powers();
    assert Low(ds, 1) == ds[0];
    assert Low(ds, 2) == Low(ds, 1) + ds[1] * Power(1);
    assert Low(ds, 3) == Low(ds, 2) + ds[2] * Power(2);
    assert Low(ds, 4) == Low(ds, 3) + ds[3] * Power(3);
  }

  // ---------- machine integers ----------

  const UINT64_END: nat := 0x1_0000_0000_0000_0000
  const UINT128_END: nat := 0x1_0000_0000_0000_0000_0000_0000_0000_0000

  // What is left of a number in an unsigned integer of 64 or 128 bits.
  function Unsigned64(x: nat): nat {
    x % UINT64_END
  }

  function Unsigned128(x: nat): nat {
    x % UINT128_END
  }

  lemma UnsignedInRange(x: nat)
    ensures x < UINT64_END ==> Unsigned64(x) == x
    ensures x < UINT128_END ==> Unsigned128(x) == x
  {
  }

  method InitWithUInt64(r: BigNum, inNum: nat)
    requires Number(r) && inNum < UINT64_END
    modifies r, r.digits
    ensures Canonical(r.digits[..], r.sign) && Value(r.digits[..], r.sign) == inNum
  {
    var num := inNum;
    var dig2 := num / LIMIT2;
    num := num - dig2 * LIMIT2;
    var dig1 := num / LIMIT;
    r.sign := 0;
    r.digits[0] := num - dig1 * LIMIT;
    r.digits[1] := dig1;
    r.digits[2] := dig2;
    r.digits[3] := 0;
    r.digits[4] := 0;
    Unrolled(r.digits[..]);
  }

  // The magnitude, when it fits; the sign is not looked at.
  method GetUInt64(n: BigNum) returns (result: nat)
    requires Number(n)
    ensures Magnitude(n.digits[..]) < UINT64_END ==> result == Magnitude(n.digits[..])
  {
    hide Magnitude, Unsigned64;
    Unrolled(n.digits[..]);
    HighZero(n.digits[..]);
    result := n.digits[0];
    UnsignedInRange(result + n.digits[1] * LIMIT);
    result := Unsigned64(result + n.digits[1] * LIMIT);
    UnsignedInRange(result + n.digits[2] * LIMIT2);
    result := Unsigned64(result + n.digits[2] * LIMIT2);
  }

  // Nothing that fits 64 bits needs a fourth digit.
  lemma HighZero(ds: seq<nat>)
    requires |ds| == 5
    ensures Magnitude(ds) < UINT64_END ==> ds[3] == 0 && ds[4] == 0
  {
    Unrolled(ds);
  }

  method InitWithUInt128(r: BigNum, inNum: nat)
    requires Number(r) && inNum < UINT128_END
    modifies r, r.digits
    ensures Canonical(r.digits[..], r.sign) && Value(r.digits[..], r.sign) == inNum
  {
    var num := inNum;
    var dig4 := num / LIMIT4;
    num := num - dig4 * LIMIT4;
    var dig3 := num / LIMIT3;
    num := num - dig3 * LIMIT3;
    var dig2 := num / LIMIT2;
    num := num - dig2 * LIMIT2;
    var dig1 := num / LIMIT;
    r.sign := 0;
    r.digits[0] := num - dig1 * LIMIT;
    r.digits[1] := dig1;
    r.digits[2] := dig2;
    r.digits[3] := dig3;
    r.digits[4] := dig4;
    Unrolled(r.digits[..]);
  }

  method GetUInt128(n: BigNum) returns (result: nat)
    requires Number(n)
    ensures Magnitude(n.digits[..]) < UINT128_END ==> result == Magnitude(n.digits[..])
  {
    hide Magnitude, Unsigned128;
    Unrolled(n.digits[..]);
    result := n.digits[0];
    UnsignedInRange(result + n.digits[1] * LIMIT);
    result := Unsigned128(result + n.digits[1] * LIMIT);
    UnsignedInRange(result + n.digits[2] * LIMIT2);
    result := Unsigned128(result + n.digits[2] * LIMIT2);
    UnsignedInRange(result + n.digits[3] * LIMIT3);
    result := Unsigned128(result + n.digits[3] * LIMIT3);
    UnsignedInRange(result + n.digits[4] * LIMIT4);
    result := Unsigned128(result + n.digits[4] * LIMIT4);
  }

  const INT64_LIMIT: int := 0x8000_0000_0000_0000
  const INT128_LIMIT: int := 0x8000_0000_0000_0000_0000_0000_0000_0000

  // What is left of a number in a signed integer of 64 or 128 bits.
  function Wrapped64(x: int): int {
    (x + INT64_LIMIT) % (2 * INT64_LIMIT) - INT64_LIMIT
  }

  function Wrapped128(x: int): int {
    (x + INT128_LIMIT) % (2 * INT128_LIMIT) - INT128_LIMIT
  }

  lemma WrappedInRange(x: int)
    ensures -INT64_LIMIT <= x < INT64_LIMIT ==> Wrapped64(x) == x
    ensures x == INT64_LIMIT ==> Wrapped64(x) == -INT64_LIMIT
    ensures -INT128_LIMIT <= x < INT128_LIMIT ==> Wrapped128(x) == x
    ensures x == INT128_LIMIT ==> Wrapped128(x) == -INT128_LIMIT
  {
  }

  method InitWithInt64(r: BigNum, inNum: int)
    requires Number(r) && -INT64_LIMIT <= inNum < INT64_LIMIT
    modifies r, r.digits
    ensures Canonical(r.digits[..], r.sign) && Value(r.digits[..], r.sign) == inNum
  {
    hide Magnitude;
    InitWithUInt64(r, if inNum < 0 then -1 * inNum else inNum);
    if inNum < 0 {
      r.sign := -1;
    }
  }

  // The least integer comes back too, by wrapping around twice.
  method GetInt64(n: BigNum) returns (result: int)
    requires Number(n) && Proper(n.digits[..])
    ensures -INT64_LIMIT <= Value(n.digits[..], n.sign) < INT64_LIMIT ==> result == Value(n.digits[..], n.sign)
  {
    hide Magnitude, Wrapped64, Wrapped128;
    Unrolled(n.digits[..]);
    HighZero(n.digits[..]);
    result := n.digits[0];
    WrappedInRange(result + n.digits[1] * LIMIT);
    result := Wrapped64(result + n.digits[1] * LIMIT);
    WrappedInRange(result + n.digits[2] * LIMIT2);
    result := Wrapped64(result + n.digits[2] * LIMIT2);
    if n.sign < 0 {
      WrappedInRange(-1 * result);
      result := Wrapped64(-1 * result);
    }
  }

  method InitWithInt128(r: BigNum, inNum: int)
    requires Number(r) && -INT128_LIMIT <= inNum < INT128_LIMIT
    modifies r, r.digits
    ensures Canonical(r.digits[..], r.sign) && Value(r.digits[..], r.sign) == inNum
  {
    hide Magnitude;
    InitWithUInt128(r, if inNum < 0 then -1 * inNum else inNum);
    if inNum < 0 {
      r.sign := -1;
    }
  }

  method GetInt128(n: BigNum) returns (result: int)
    requires Number(n) && Proper(n.digits[..])
    ensures -INT128_LIMIT <= Value(n.digits[..], n.sign) < INT128_LIMIT ==> result == Value(n.digits[..], n.sign)
  {
    hide Magnitude, Wrapped64, Wrapped128;
    Unrolled(n.digits[..]);
    result := n.digits[0];
    WrappedInRange(result + n.digits[1] * LIMIT);
    result := Wrapped128(result + n.digits[1] * LIMIT);
    WrappedInRange(result + n.digits[2] * LIMIT2);
    result := Wrapped128(result + n.digits[2] * LIMIT2);
    WrappedInRange(result + n.digits[3] * LIMIT3);
    result := Wrapped128(result + n.digits[3] * LIMIT3);
    WrappedInRange(result + n.digits[4] * LIMIT4);
    result := Wrapped128(result + n.digits[4] * LIMIT4);
    if n.sign < 0 {
      WrappedInRange(-1 * result);
      result := Wrapped128(-1 * result);
    }
  }

  // ---------- decimal text ----------

  predicate Numeral(s: string) {
    forall i :: 0 <= i < |s| ==> '0' <= s[i] <= '9'
  }

  function Digit(c: char): nat
    requires '0' <= c <= '9'
  {
    (c - '0') as int
  }

  function Ten(n: nat): (p: nat)
    ensures p > 0
  {
    if n == 0 then 1 else 10 * Ten(n - 1)
  }

  function Decimal(s: string): nat
    requires Numeral(s)
  {
    if s == "" then 0 else 10 * Decimal(s[..|s| - 1]) + Digit(s[|s| - 1])
  }

  // The lowest n decimal digits of d.
  function Padded(d: nat, n: nat): (s: string)
    ensures |s| == n && Numeral(s)
  {
    if n == 0 then "" else Padded(d / 10, n - 1) + ['0' + (d % 10) as char]
  }

  lemma {:induction false} PaddedDecimal(d: nat, n: nat)
    requires d < Ten(n)
    ensures Decimal(Padded(d, n)) == d
  {
    if n > 0 {
      PaddedDecimal(d / 10, n - 1);
      assert Padded(d, n)[..n - 1] == Padded(d / 10, n - 1);
      assert Digit(Padded(d, n)[n - 1]) == d % 10;
    }
  }

  lemma TenNine()
    ensures Ten(9) == LIMIT
  {
    assert Ten(5) == 100000;
  }

  lemma {:induction false} DecimalBound(s: string)
    requires Numeral(s)
    ensures Decimal(s) < Ten(|s|)
    decreases |s|
  {
    if s != "" {
      DecimalBound(s[..|s| - 1]);
    }
  }

  lemma DecimalSnoc(s: string, c: char)
    requires Numeral(s) && '0' <= c <= '9'
    ensures Numeral(s + [c]) && Decimal(s + [c]) == 10 * Decimal(s) + Digit(c)
  {
    assert (s + [c])[..|s|] == s;
  }

  lemma TenTimes(d: nat, t: nat, v: nat, c: nat)
    ensures 10 * (d * t + v) + c == d * (10 * t) + (10 * v + c)
  {
    assert 10 * (d * t) == d * (10 * t);
  }

  // A numeral followed by another.
  lemma {:induction false} DecimalAppend(s: string, t: string)
    requires Numeral(s) && Numeral(t)
    ensures Numeral(s + t) && Decimal(s + t) == Decimal(s) * Ten(|t|) + Decimal(t)
    decreases |t|
  {
    hide Decimal, Digit;
    if t == "" {
      NoDigits();
      assert s + t == s;
    } else {
      var t', c := t[..|t| - 1], t[|t| - 1];
      DecimalAppend(s, t');
      assert t == t' + [c] && s + t == (s + t') + [c];
      DecimalSnoc(t', c);
      DecimalSnoc(s + t', c);
      TenTimes(Decimal(s), Ten(|t'|), Decimal(t'), Digit(c));
    }
  }

  lemma {:induction false} LeadingZeros(s: string, n: nat)
    requires Numeral(s) && n <= |s| && forall i :: 0 <= i < n ==> s[i] == '0'
    ensures Decimal(s[n..]) == Decimal(s)
  {
    assert s[..n] + s[n..] == s;
    DecimalAppend(s[..n], s[n..]);
    AllZeros(s[..n]);
  }

  lemma {:induction false} AllZeros(s: string)
    requires Numeral(s) && forall i :: 0 <= i < |s| ==> s[i] == '0'
    ensures Decimal(s) == 0
    decreases |s|
  {
    if s != "" {
      AllZeros(s[..|s| - 1]);
    }
  }

  // Nine digits for each digit in base 10^9, the highest first.
  function Digits(ds: seq<nat>): (s: string)
    ensures |s| == 9 * |ds| && Numeral(s)
  {
    if ds == [] then "" else Padded(ds[|ds| - 1], 9) + Digits(ds[..|ds| - 1])
  }

  lemma Thousand(n: nat)
    ensures Ten(n + 3) == 1000 * Ten(n)
  {
    assert Ten(n + 1) == 10 * Ten(n);
    assert Ten(n + 2) == 10 * Ten(n + 1);
  }

  lemma {:induction false} PowerTen(n: nat)
    ensures Power(n) == Ten(9 * n)
  {
    if n > 0 {
      PowerTen(n - 1);
      Thousand(9 * n - 9);
      Thousand(9 * n - 6);
      Thousand(9 * n - 3);
    }
  }

  lemma NoDigits()
    ensures Decimal("") == 0 && Magnitude([]) == 0
  {
  }

  lemma {:induction false} DigitsDecimal(ds: seq<nat>)
    requires forall i :: 0 <= i < |ds| ==> ds[i] < LIMIT
    ensures Decimal(Digits(ds)) == Magnitude(ds)
    decreases |ds|
  {
    hide Magnitude, Decimal, Padded, Ten, Power;
    if ds == [] {
      NoDigits();
    } else {
      var ds', d := ds[..|ds| - 1], ds[|ds| - 1];
      DigitsDecimal(ds');
      TenNine();
      PaddedDecimal(d, 9);
      DecimalAppend(Padded(d, 9), Digits(ds'));
      PowerTen(|ds'|);
      assert ds == ds' + [d];
      LowSnoc(ds', d);
    }
  }

  // ---------- writing and reading text ----------

  function SignText(sign: int, plus: bool): string {
    if sign < 0 then "-" else if plus then "+" else ""
  }

  // How many zeros a numeral begins with.
  function ZerosBefore(s: string): (n: nat)
    ensures n <= |s| && (forall i :: 0 <= i < n ==> s[i] == '0') && (n < |s| ==> s[n] != '0')
  {
    if s != "" && s[0] == '0' then 1 + ZerosBefore(s[1..]) else 0
  }

  // As many zeros as given.
  function Zeros0(n: nat): (s: string)
    ensures |s| == n && forall i :: 0 <= i < n ==> s[i] == '0'
  {
    seq(n, _ => '0')
  }

  // Writes a number into a buffer: a sign, and with leading zeros the low digits, as many as there is
  // room for, or without them the high ones.
  method ToCString(n: BigNum, leadingZeros: bool, leadingPlus: bool, buflen: nat) returns (text: string)
    requires Number(n) && Proper(n.digits[..]) && |SignText(n.sign, leadingPlus)| < buflen
    ensures |text| < buflen
    ensures exists body ::
      && text == SignText(n.sign, leadingPlus) + body
      && Writes(body, Magnitude(n.digits[..]), leadingZeros, buflen - |SignText(n.sign, leadingPlus)| - 1)
  {
    hide Decimal, Magnitude, Ten, Numeral, Writes;
    text := "";
    var room := buflen;
    if n.sign < 0 {
      text := "-";
      room := room - 1;
    } else if leadingPlus {
      text := "+";
      room := room - 1;
    }
    DigitsDecimal(n.digits[..]);
    var tmp := Digits(n.digits[..]);
    ghost var magnitude := Magnitude(n.digits[..]);
    ghost var body: string;
    if leadingZeros {
      var tocopy := if room < 46 then room else 46;
      var zeros := Zeros0(room - tocopy);
      WritesLow(tmp, magnitude, room, tocopy);
      text := text + (zeros + tmp[46 - tocopy..]);
      body := zeros + tmp[46 - tocopy..];
    } else {
      var s := 0;
      while s < |tmp| && tmp[s] == '0'
        invariant s <= |tmp| && forall i :: 0 <= i < s ==> tmp[i] == '0'
      {
        s := s + 1;
      }
      if s == |tmp| {
        s := s - 1;
      }
      var rest := tmp[s..];
      WritesHigh(tmp, s, magnitude, room);
      if room <= |rest| {
        rest := rest[..room - 1];
      }
      text := text + rest;
      body := rest;
    }
    assert Writes(body, magnitude, leadingZeros, room - 1);
  }

  // The numeral of a magnitude with no zero that is not needed.
  ghost predicate Shortest(full: string, magnitude: nat) {
    Numeral(full) && full != "" && Decimal(full) == magnitude && (|full| > 1 ==> full[0] != '0')
  }

  // What a numeral in the room given is to a magnitude: all its low digits, after zeros, or its high
  // ones.
  ghost predicate Writes(body: string, magnitude: nat, leadingZeros: bool, room: nat) {
    && Numeral(body) && |body| - ZerosBefore(body) <= 45
    && if leadingZeros then |body| == room && Decimal(body) == magnitude % Ten(room)
       else exists full :: Shortest(full, magnitude) && body == if room < |full| then full[..room] else full
  }

  // It writes the magnitude exactly when its digits fit.
  lemma WritesWhole(body: string, magnitude: nat, leadingZeros: bool, room: nat)
    requires Writes(body, magnitude, leadingZeros, room)
    ensures Decimal(body) == magnitude <==> magnitude < Ten(room)
  {
    hide Decimal, Ten;
    if leadingZeros {
      DecimalBound(body);
      ModBelow(magnitude, Ten(room));
    } else {
      var full :| Shortest(full, magnitude) && body == if room < |full| then full[..room] else full;
      DecimalBound(body);
      if |full| <= room {
        TenOrder(|full|, room);
      } else if |full| == 1 {
        NoDigits();
        TenNone();
      } else {
        FirstDigit(full);
        TenOrder(room, |full| - 1);
      }
    }
  }

  lemma TenNone()
    ensures Ten(0) == 1
  {
  }

  // A numeral that does not begin with 0 is not less than the power of its length.
  lemma FirstDigit(s: string)
    requires Numeral(s) && s != "" && s[0] != '0'
    ensures Ten(|s| - 1) <= Decimal(s)
  {
    hide Ten;
    assert s == [s[0]] + s[1..];
    DecimalAppend([s[0]], s[1..]);
    assert Decimal([s[0]]) == 10 * Decimal([s[0]][..0]) + Digit(s[0]) >= 1;
    AtLeastOnce(Decimal([s[0]]), Ten(|s| - 1));
  }

  lemma AtLeastOnce(a: nat, t: nat)
    requires a >= 1
    ensures a * t >= t
  {
  }

  lemma ModBelow(b: nat, t: nat)
    ensures t > 0 ==> (b % t == b <==> b < t)
  {
  }

  lemma ModUnique(a: nat, t: nat, b: nat)
    requires b < t
    ensures (a * t + b) % t == b
  {
    if a > 0 {
      ModUnique(a - 1, t, b);
      ModStep((a - 1) * t + b, t);
      assert (a - 1) * t + b + t == a * t + b;
    }
  }

  lemma ModStep(x: nat, t: nat)
    requires t > 0
    ensures (x + t) % t == x % t
  {
    assert x + t == (x / t + 1) * t + x % t;
    SameQuotient(x / t + 1, x % t, (x + t) / t, (x + t) % t, t);
  }

  lemma SameQuotient(p: nat, b: nat, q: nat, r: nat, t: nat)
    requires p * t + b == q * t + r && b < t && r < t
    ensures p == q && b == r
  {
    Farther(p, q, t);
    Farther(q, p, t);
  }

  lemma Farther(p: nat, q: nat, t: nat)
    ensures p < q ==> p * t + t <= q * t
  {
    if p < q {
      Distribute(q - p, p, t);
      assert (q - p) + p == q;
      AtLeastOnce(q - p, t);
    }
  }

  // The low digits.
  lemma LowDigits(s: string, k: nat)
    requires Numeral(s) && k <= |s|
    ensures Ten(|s| - k) > 0 && Decimal(s[k..]) == Decimal(s) % Ten(|s| - k)
  {
    hide Decimal, Ten;
    assert s == s[..k] + s[k..];
    DecimalAppend(s[..k], s[k..]);
    DecimalBound(s[k..]);
    ModUnique(Decimal(s[..k]), Ten(|s| - k), Decimal(s[k..]));
  }

  lemma WritesLow(tmp: string, magnitude: nat, room: nat, tocopy: nat)
    requires Numeral(tmp) && |tmp| == 45 && Decimal(tmp) == magnitude
    requires 0 < room && tocopy == if room < 46 then room else 46
    ensures Writes(Zeros0(room - tocopy) + tmp[46 - tocopy..], magnitude, true, room - 1)
  {
    hide Decimal, Ten, ZerosBefore;
    var low := tmp[46 - tocopy..];
    WithZeros(room - tocopy, low);
    LowDigits(tmp, 46 - tocopy);
    if 46 <= room {
      DecimalBound(tmp);
      TenOrder(45, room - 1);
      ModBelow(magnitude, Ten(room - 1));
    }
  }

  lemma WritesHigh(tmp: string, s: nat, magnitude: nat, room: nat)
    requires Numeral(tmp) && |tmp| == 45 && Decimal(tmp) == magnitude && s < 45 && 0 < room
    requires forall i :: 0 <= i < s ==> tmp[i] == '0'
    requires s < 44 ==> tmp[s] != '0'
    ensures Writes(if room <= |tmp[s..]| then tmp[s..][..room - 1] else tmp[s..], magnitude, false, room - 1)
  {
    hide Decimal, ZerosBefore;
    LeadingZeros(tmp, s);
    assert Shortest(tmp[s..], magnitude);
  }

  lemma WithZeros(n: nat, s: string)
    requires Numeral(s)
    ensures Numeral(Zeros0(n) + s) && Decimal(Zeros0(n) + s) == Decimal(s)
    ensures |Zeros0(n) + s| - ZerosBefore(Zeros0(n) + s) <= |s|
  {
    var all := Zeros0(n) + s;
    LeadingZeros(all, n);
    assert all[n..] == s;
    ZerosAtLeast(all, n);
  }

  lemma {:induction false} ZerosAtLeast(s: string, n: nat)
    requires n <= |s| && forall i :: 0 <= i < n ==> s[i] == '0'
    ensures n <= ZerosBefore(s)
  {
    if n > 0 {
      ZerosAtLeast(s[1..], n - 1);
    }
  }

  // What a text says: its sign and its numeral.
  function Unsigned(text: string): string {
    if text != "" && (text[0] == '-' || text[0] == '+') then text[1..] else text
  }

  // Reads a sign and a numeral, nine digits at a time from its end.
  method FromCString(r: BigNum, text: string)
    requires Number(r) && Numeral(Unsigned(text))
    requires |Unsigned(text)| - ZerosBefore(Unsigned(text)) <= 45
    modifies r, r.digits
    ensures Number(r) && Proper(r.digits[..])
    ensures Magnitude(r.digits[..]) == Decimal(Unsigned(text))
    ensures r.sign == if text != "" && text[0] == '-' then -1 else 0
  {
    hide Decimal, Magnitude, Power, Ten;
    ghost var body := Unsigned(text);
    for i := 0 to 5
      invariant forall j :: 0 <= j < i ==> r.digits[j] == 0
    {
      r.digits[i] := 0;
    }
    r.sign := 0;
    var at := 0;
    if text != "" && text[0] == '-' {
      r.sign := -1;
      at := 1;
    } else if text != "" && text[0] == '+' {
      at := 1;
    }
    var working := text[at..];
    var skip := ZerosBefore(working);
    LeadingZeros(working, skip);
    working := working[skip..];
    ReadDigits(r, working);
  }

  method ReadDigits(r: BigNum, numeral: string)
    requires Number(r) && r.digits[..] == [0, 0, 0, 0, 0] && Numeral(numeral) && |numeral| <= 45
    modifies r.digits
    ensures Proper(r.digits[..]) && Magnitude(r.digits[..]) == Decimal(numeral)
  {
    hide Decimal, Magnitude, Power, Ten;
    var working := numeral;
    var curDigit := 0;
    ghost var out: seq<nat> := [];
    ReadNone(working);
    while curDigit + 1 < 5 && 9 < |working|
      invariant curDigit == |out| <= 4 && r.digits[..curDigit] == out
      invariant forall j :: curDigit <= j < 5 ==> r.digits[j] == 0
      invariant forall j :: 0 <= j < curDigit ==> out[j] < LIMIT
      invariant Numeral(working) && |working| + 9 * curDigit <= 45
      invariant Magnitude(out) + Decimal(working) * Power(curDigit) == Decimal(numeral)
      decreases |working|
    {
      var split := |working| - 9;
      ReadNine(working, split, out);
      var digit := Decimal(working[split..]);
      r.digits[curDigit] := digit;
      out := out + [digit];
      working := working[..split];
      curDigit := curDigit + 1;
    }
    ReadLast(working);
    var digit := Decimal(working);
    r.digits[curDigit] := digit;
    LowSnoc(out, digit);
    out := out + [digit];
    ZeroAbove(out, r.digits[..]);
  }

  lemma ReadNone(s: string)
    requires Numeral(s)
    ensures Magnitude([]) + Decimal(s) * Power(0) == Decimal(s)
  {
  }

  lemma ReadNine(s: string, split: nat, out: seq<nat>)
    requires Numeral(s) && |s| == split + 9
    ensures Decimal(s[split..]) < LIMIT
    ensures Magnitude(out + [Decimal(s[split..])]) + Decimal(s[..split]) * Power(|out| + 1)
         == Magnitude(out) + Decimal(s) * Power(|out|)
  {
    hide Decimal, Magnitude, Power, Ten;
    assert s == s[..split] + s[split..];
    DecimalAppend(s[..split], s[split..]);
    TenNine();
    DecimalBound(s[split..]);
    LowSnoc(out, Decimal(s[split..]));
    PowerUp(Decimal(s[..split]), Decimal(s[split..]), |out|);
  }

  lemma PowerUp(h: nat, l: nat, i: nat)
    ensures (h * LIMIT + l) * Power(i) == h * Power(i + 1) + l * Power(i)
  {
    Distribute(h * LIMIT, l, Power(i));
    assert (h * LIMIT) * Power(i) == h * (LIMIT * Power(i));
  }

  lemma ReadLast(s: string)
    requires Numeral(s) && |s| <= 9
    ensures Decimal(s) < LIMIT
  {
    TenNine();
    DecimalBound(s);
    TenOrder(|s|, 9);
  }

  lemma {:induction false} TenOrder(m: nat, n: nat)
    requires m <= n
    ensures Ten(m) <= Ten(n)
    decreases n
  {
    if m < n {
      TenOrder(m, n - 1);
    }
  }

  lemma {:induction false} ZeroAbove(out: seq<nat>, ds: seq<nat>)
    requires |out| <= |ds| && ds[..|out|] == out && forall j :: |out| <= j < |ds| ==> ds[j] == 0
    ensures Magnitude(ds) == Magnitude(out)
    decreases |ds|
  {
    if |out| == |ds| {
      assert ds == out;
    } else {
      var ds' := ds[..|ds| - 1];
      assert ds'[..|out|] == ds[..|out|];
      ZeroAbove(out, ds');
      assert ds == ds' + [0];
      LowSnoc(ds', 0);
    }
  }

  lemma TextParts(sign: int, plus: bool, body: string)
    requires Numeral(body)
    ensures Unsigned(SignText(sign, plus) + body) == body
    ensures var text := SignText(sign, plus) + body; text != "" && text[0] == '-' <==> sign < 0
  {
  }

  lemma WritesNumeral(body: string, magnitude: nat, leadingZeros: bool, room: nat)
    requires Writes(body, magnitude, leadingZeros, room)
    ensures Numeral(body) && |body| - ZerosBefore(body) <= 45
  {
  }

  // A canonical number, written and read again, is the same exactly when its digits fit the buffer.
  method WriteThenRead(n: BigNum, leadingZeros: bool, leadingPlus: bool, buflen: nat)
    returns (text: string, again: BigNum)
    requires Number(n) && Canonical(n.digits[..], n.sign) && |SignText(n.sign, leadingPlus)| < buflen
    ensures fresh(again) && Number(again)
    ensures again.digits[..] == n.digits[..] && again.sign == n.sign
      <==> Magnitude(n.digits[..]) < Ten(buflen - |SignText(n.sign, leadingPlus)| - 1)
  {
    hide Decimal, Magnitude, Ten, Writes, Numeral, SignText, Unsigned;
    text := ToCString(n, leadingZeros, leadingPlus, buflen);
    ghost var room := buflen - |SignText(n.sign, leadingPlus)| - 1;
    ghost var body :| text == SignText(n.sign, leadingPlus) + body &&
      Writes(body, Magnitude(n.digits[..]), leadingZeros, room);
    WritesNumeral(body, Magnitude(n.digits[..]), leadingZeros, room);
    TextParts(n.sign, leadingPlus, body);
    WritesWhole(body, Magnitude(n.digits[..]), leadingZeros, room);
    again := new BigNum();
    FromCString(again, text);
    if Decimal(body) == Magnitude(n.digits[..]) {
      SameDigits(again.digits[..], n.digits[..]);
    }
  }
}
