// The units of text in UTF-8 and UTF-16: sections 3 and 4 of RFC 3629, sections 2.1 and 2.2 of
// RFC 2781.
module Utf8Units {

  type Byte = x: int | 0 <= x <= 0xFF
  type UniChar = x: int | 0 <= x <= 0xFFFF

  predicate IsHigh(c: int) {
    0xD800 <= c <= 0xDBFF
  }

  predicate IsLow(c: int) {
    0xDC00 <= c <= 0xDFFF
  }

  predicate IsScalar(cp: int) {
    0 <= cp <= 0x10FFFF && !(0xD800 <= cp <= 0xDFFF)
  }

  type Scalar = cp: int | 0 <= cp <= 0x10FFFF && !(0xD800 <= cp <= 0xDFFF)

  // A character, or a lead byte 0xA9 that starts none but is let through.
  datatype Unit = Char(cp: Scalar) | Stray

  // ---------- the two encodings ----------

  // A byte that continues a character, with its lowest six bits.
  function Trail(bits: nat): Byte {
    0x80 + bits % 0x40
  }

  function Length8(cp: Scalar): nat {
    if cp < 0x80 then 1 else if cp < 0x800 then 2 else if cp < 0x10000 then 3 else 4
  }

  // The first byte, with the bits that are left.
  function Lead(cp: Scalar): Byte {
    if cp < 0x80 then cp
    else if cp < 0x800 then 0xC0 + cp / 0x40
    else if cp < 0x10000 then 0xE0 + cp / 0x40 / 0x40
    else 0xF0 + cp / 0x40 / 0x40 / 0x40
  }

  function Utf8(cp: Scalar): (bs: seq<Byte>)
    ensures |bs| == Length8(cp) && bs[0] == Lead(cp)
  {
    if cp < 0x80 then [Lead(cp)]
    else if cp < 0x800 then [Lead(cp), Trail(cp)]
    else if cp < 0x10000 then [Lead(cp), Trail(cp / 0x40), Trail(cp)]
    else [Lead(cp), Trail(cp / 0x40 / 0x40), Trail(cp / 0x40), Trail(cp)]
  }

  function High(cp: Scalar): UniChar
    requires cp >= 0x10000
  {
    0xD800 + (cp - 0x10000) / 0x400
  }

  function Low(cp: Scalar): UniChar
    requires cp >= 0x10000
  {
    0xDC00 + (cp - 0x10000) % 0x400
  }

  function AsChar(cp: Scalar): UniChar
    requires cp < 0x10000
  {
    cp
  }

  function Utf16(cp: Scalar): (cs: seq<UniChar>)
    ensures 1 <= |cs| <= 2
  {
    if cp < 0x10000 then [AsChar(cp)] else [High(cp), Low(cp)]
  }

  function Bytes(u: Unit): (bs: seq<Byte>)
    ensures 1 <= |bs| <= 4
  {
    match u
    case Char(cp) => Utf8(cp)
    case Stray => [0xA9]
  }

  // A stray byte is read as the replacement character.
  function Chars(u: Unit): (cs: seq<UniChar>)
    ensures 1 <= |cs| <= 2
  {
    match u
    case Char(cp) => Utf16(cp)
    case Stray => [0xFFFD]
  }

  function AllBytes(us: seq<Unit>): (bs: seq<Byte>)
    ensures |us| <= |bs|
  {
    if us == [] then [] else AllBytes(us[..|us| - 1]) + Bytes(us[|us| - 1])
  }

  function AllChars(us: seq<Unit>): (cs: seq<UniChar>)
    ensures |us| <= |cs|
  {
    if us == [] then [] else AllChars(us[..|us| - 1]) + Chars(us[|us| - 1])
  }

  // ---------- the first unit of a byte string ----------

  ghost predicate Starts(b: seq<Byte>, cp: Scalar) {
    Utf8(cp) <= b
  }

  function Trailing(head: Byte): nat {
    if head < 0xC0 then 0 else if head < 0xE0 then 1 else if head < 0xF0 then 2
    else if head < 0xF8 then 3 else if head < 0xFC then 4 else 5
  }

  predicate IsTrail(b: Byte) {
    0x80 <= b < 0xC0
  }

  // Whether the first bytes, as many as their head announces, are one character.
  predicate IsLegal(b: seq<Byte>, length: nat)
    requires length <= |b| && b != [] && length == Trailing(b[0]) + 1
  {
    && length <= 4
    && (forall i :: 1 <= i < length ==> IsTrail(b[i]))
    && !((0x80 <= b[0] < 0xC2) || b[0] > 0xF4)
    && !((b[0] == 0xE0 && b[1] < 0xA0) || (b[0] == 0xED && b[1] > 0x9F) || (b[0] == 0xF0 && b[1] < 0x90)
           || (b[0] == 0xF4 && b[1] > 0x8F))
  }

  function Offset(extra: nat): nat {
    if extra == 0 then 0 else if extra == 1 then 0x3080 else if extra == 2 then 0xE2080 else 0x3C82080
  }

  function Assemble(b: seq<Byte>, extra: nat): int
    requires extra < |b| && extra <= 3
  {
    (if extra == 0 then b[0]
     else if extra == 1 then b[0] * 0x40 + b[1]
     else if extra == 2 then (b[0] * 0x40 + b[1]) * 0x40 + b[2]
     else ((b[0] * 0x40 + b[1]) * 0x40 + b[2]) * 0x40 + b[3]) - Offset(extra)
  }

  lemma Starts1(b: seq<Byte>, cp: Scalar)
    requires cp < 0x80
    ensures Starts(b, cp) <==> |b| >= 1 && b[0] == cp
  {
  }

  lemma Starts2(b: seq<Byte>, cp: Scalar)
    requires 0x80 <= cp < 0x800
    ensures Starts(b, cp) <==> |b| >= 2 && b[0] == Lead(cp) && b[1] == Trail(cp)
  {
    hide Lead, Trail;
  }

  lemma Starts3(b: seq<Byte>, cp: Scalar)
    requires 0x800 <= cp < 0x10000
    ensures Starts(b, cp) <==> |b| >= 3 && b[0] == Lead(cp) && b[1] == Trail(cp / 0x40) && b[2] == Trail(cp)
  {
    hide Lead, Trail;
  }

  lemma Starts4(b: seq<Byte>, cp: Scalar)
    requires 0x10000 <= cp
    ensures Starts(b, cp) <==>
      |b| >= 4 && b[0] == Lead(cp) && b[1] == Trail(cp / 0x40 / 0x40) && b[2] == Trail(cp / 0x40) && b[3] == Trail(cp)
  {
    hide Lead, Trail;
  }

  lemma Split(high: nat, low: nat)
    requires low < 0x40
    ensures (high * 0x40 + low) / 0x40 == high && (high * 0x40 + low) % 0x40 == low
  {
  }

  // What passes the check is the encoding of the character assembled from it.
  lemma LegalSound(b: seq<Byte>)
    requires b != [] && Trailing(b[0]) + 1 <= |b| && IsLegal(b, Trailing(b[0]) + 1)
    ensures Trailing(b[0]) <= 3 && IsScalar(Assemble(b, Trailing(b[0])))
    ensures Starts(b, Assemble(b, Trailing(b[0]))) && Length8(Assemble(b, Trailing(b[0]))) == Trailing(b[0]) + 1
  {
    hide Starts, Utf8;
    var cp := Assemble(b, Trailing(b[0]));
    if b[0] < 0x80 {
      Starts1(b, cp);
    } else if b[0] < 0xE0 {
      Starts2(b, cp);
    } else if b[0] < 0xF0 {
      Sound3(b);
    } else {
      Sound4(b);
    }
  }

  lemma Sound3(b: seq<Byte>)
    requires |b| >= 3 && 0xE0 <= b[0] < 0xF0 && IsTrail(b[1]) && IsTrail(b[2])
    requires !(b[0] == 0xE0 && b[1] < 0xA0) && !(b[0] == 0xED && b[1] > 0x9F)
    ensures IsScalar(Assemble(b, 2)) && Starts(b, Assemble(b, 2)) && Length8(Assemble(b, 2)) == 3
  {
    hide Starts, Utf8;
    var cp := Assemble(b, 2);
    var b0: int, b1: int, b2: int := b[0] - 0xE0, b[1] - 0x80, b[2] - 0x80;
    Split(b0 * 0x40 + b1, b2);
    Split(b0, b1);
    Starts3(b, cp);
  }

  lemma Sound4(b: seq<Byte>)
    requires |b| >= 4 && 0xF0 <= b[0] <= 0xF4 && IsTrail(b[1]) && IsTrail(b[2]) && IsTrail(b[3])
    requires !(b[0] == 0xF0 && b[1] < 0x90) && !(b[0] == 0xF4 && b[1] > 0x8F)
    ensures IsScalar(Assemble(b, 3)) && Starts(b, Assemble(b, 3)) && Length8(Assemble(b, 3)) == 4
  {
    hide Starts, Utf8;
    var cp := Assemble(b, 3);
    var b0: int, b1: int, b2: int, b3: int := b[0] - 0xF0, b[1] - 0x80, b[2] - 0x80, b[3] - 0x80;
    Split((b0 * 0x40 + b1) * 0x40 + b2, b3);
    Split(b0 * 0x40 + b1, b2);
    Split(b0, b1);
    Starts4(b, cp);
  }

  // Every encoding of a character passes it, and gives back that character.
  lemma LegalComplete(b: seq<Byte>, cp: Scalar)
    requires Starts(b, cp)
    ensures b != [] && Trailing(b[0]) + 1 == Length8(cp) <= |b|
    ensures IsLegal(b, Trailing(b[0]) + 1) && Assemble(b, Trailing(b[0])) == cp
  {
    hide Starts, Utf8;
    if cp < 0x80 {
      Starts1(b, cp);
    } else if cp < 0x800 {
      Starts2(b, cp);
    } else if cp < 0x10000 {
      Starts3(b, cp);
    } else {
      Starts4(b, cp);
    }
  }

  // ---------- reading units one by one ----------

  datatype First = One(unit: Unit) | NoUnit

  // The unit that a byte string begins with: a character, or else a stray byte.
  ghost function First8(b: seq<Byte>): First {
    if exists cp: Scalar :: Starts(b, cp) then
      var cp: Scalar :| Starts(b, cp);
      One(Char(cp))
    else if b != [] && b[0] == 0xA9 then One(Stray)
    else NoUnit
  }

  // A string begins with one character at most.
  lemma FirstChar(b: seq<Byte>, cp: Scalar)
    requires Starts(b, cp)
    ensures First8(b) == One(Char(cp))
  {
    hide Starts, IsLegal, Assemble, Trailing;
    var other: Scalar :| Starts(b, other) && First8(b) == One(Char(other));
    LegalComplete(b, cp);
    LegalComplete(b, other);
  }

  lemma FirstOf(u: Unit, rest: seq<Byte>)
    ensures First8(Bytes(u) + rest) == One(u)
  {
    var b := Bytes(u) + rest;
    if u.Char? {
      FirstChar(b, u.cp);
    } else {
      forall cp: Scalar ensures !Starts(b, cp) {
        if Starts(b, cp) {
          LegalComplete(b, cp);
        }
      }
    }
  }

  lemma FirstBytes(b: seq<Byte>)
    requires First8(b).One?
    ensures Bytes(First8(b).unit) <= b
  {
  }

  ghost predicate Starts16(s: seq<UniChar>, cp: Scalar) {
    Utf16(cp) <= s
  }

  ghost function First16(s: seq<UniChar>): First {
    if exists cp: Scalar :: Starts16(s, cp) then
      var cp: Scalar :| Starts16(s, cp);
      One(Char(cp))
    else NoUnit
  }

  function Pair(high: UniChar, low: UniChar): (cp: Scalar)
    requires IsHigh(high) && IsLow(low)
    ensures cp >= 0x10000 && High(cp) == high && Low(cp) == low
  {
    (high - 0xD800) * 0x400 + (low - 0xDC00) + 0x10000
  }

  lemma Starts16Is(s: seq<UniChar>, cp: Scalar)
    ensures cp < 0x10000 ==> (Starts16(s, cp) <==> s != [] && s[0] == cp)
    ensures cp >= 0x10000 ==> (Starts16(s, cp) <==> |s| >= 2 && s[0] == High(cp) && s[1] == Low(cp))
  {
    hide High, Low;
  }

  lemma HighLow(cp: Scalar)
    requires cp >= 0x10000
    ensures IsHigh(High(cp)) && IsLow(Low(cp)) && Pair(High(cp), Low(cp)) == cp
  {
  }

  lemma First16Char(s: seq<UniChar>, cp: Scalar)
    requires Starts16(s, cp)
    ensures First16(s) == One(Char(cp))
  {
    hide Starts16, High, Low, Pair;
    var other: Scalar :| Starts16(s, other) && First16(s) == One(Char(other));
    Starts16Is(s, cp);
    Starts16Is(s, other);
    if cp >= 0x10000 { HighLow(cp); }
    if other >= 0x10000 { HighLow(other); }
  }

  // What surrogates decide.
  lemma First16Is(s: seq<UniChar>)
    requires s != []
    ensures !IsHigh(s[0]) && !IsLow(s[0]) ==> First16(s) == One(Char(s[0]))
    ensures IsHigh(s[0]) && |s| >= 2 && IsLow(s[1]) ==> First16(s) == One(Char(Pair(s[0], s[1])))
    ensures IsHigh(s[0]) && !(|s| >= 2 && IsLow(s[1])) ==> First16(s).NoUnit?
    ensures IsLow(s[0]) ==> First16(s).NoUnit?
  {
    hide Starts16, High, Low, Pair;
    if !IsHigh(s[0]) && !IsLow(s[0]) {
      Starts16Is(s, s[0]);
      First16Char(s, s[0]);
    } else if IsHigh(s[0]) && |s| >= 2 && IsLow(s[1]) {
      Starts16Is(s, Pair(s[0], s[1]));
      First16Char(s, Pair(s[0], s[1]));
    } else {
      forall cp: Scalar ensures !Starts16(s, cp) {
        Starts16Is(s, cp);
        if cp >= 0x10000 { HighLow(cp); }
      }
    }
  }

  lemma First16Of(cp: Scalar, rest: seq<UniChar>)
    ensures First16(Utf16(cp) + rest) == One(Char(cp))
  {
    First16Char(Utf16(cp) + rest, cp);
  }

  // ---------- strings of units ----------

  lemma AllSnoc(us: seq<Unit>, u: Unit)
    ensures AllBytes(us + [u]) == AllBytes(us) + Bytes(u)
    ensures AllChars(us + [u]) == AllChars(us) + Chars(u)
  {
    assert (us + [u])[..|us|] == us;
  }

  // us are the first units of b, read in turn.
  ghost predicate Reads8(b: seq<Byte>, us: seq<Unit>) {
    && AllBytes(us) <= b
    && (forall i :: 0 <= i < |us| ==> Reads8At(b, us, i))
  }

  ghost predicate Reads8At(b: seq<Byte>, us: seq<Unit>, i: nat)
    requires i < |us|
  {
    |AllBytes(us[..i])| <= |b| && First8(b[|AllBytes(us[..i])|..]) == One(us[i])
  }

  // What is left after them.
  function Rest8(b: seq<Byte>, us: seq<Unit>): seq<Byte>
    requires |AllBytes(us)| <= |b|
  {
    b[|AllBytes(us)|..]
  }

  lemma Reads8None(b: seq<Byte>)
    ensures Reads8(b, []) && Rest8(b, []) == b
  {
  }

  lemma Reads8Snoc(b: seq<Byte>, us: seq<Unit>, u: Unit)
    requires Reads8(b, us) && First8(Rest8(b, us)) == One(u)
    ensures Reads8(b, us + [u]) && Rest8(b, us + [u]) == Rest8(b, us)[|Bytes(u)|..]
  {
    hide AllBytes, AllChars, Bytes, First8;
    AllSnoc(us, u);
    FirstBytes(Rest8(b, us));
    assert b == AllBytes(us) + Rest8(b, us);
    forall i | 0 <= i < |us + [u]| ensures Reads8At(b, us + [u], i) {
      if i < |us| {
        assert (us + [u])[..i] == us[..i];
        assert Reads8At(b, us, i);
      } else {
        assert (us + [u])[..i] == us;
      }
    }
  }

  // Reading in turn leaves no choice.
  lemma {:induction false} Reads8Once(b: seq<Byte>, us: seq<Unit>, vs: seq<Unit>, i: nat)
    requires Reads8(b, us) && Reads8(b, vs) && i <= |us| && i <= |vs|
    ensures us[..i] == vs[..i]
  {
    hide First8, AllBytes;
    if i > 0 {
      Reads8Once(b, us, vs, i - 1);
      assert Reads8At(b, us, i - 1) && Reads8At(b, vs, i - 1);
      assert us[..i] == us[..i - 1] + [us[i - 1]] && vs[..i] == vs[..i - 1] + [vs[i - 1]];
    }
  }

  // A string of units reads as those units, whatever follows.
  lemma {:induction false} ReadsBack8(us: seq<Unit>, rest: seq<Byte>)
    ensures Reads8(AllBytes(us) + rest, us)
    decreases |us|
  {
    hide First8, Bytes;
    if us == [] {
      Reads8None(AllBytes(us) + rest);
    } else {
      var us', u := us[..|us| - 1], us[|us| - 1];
      ReadsBack8(us', Bytes(u) + rest);
      assert us == us' + [u];
      AllSnoc(us', u);
      assert AllBytes(us') + (Bytes(u) + rest) == AllBytes(us) + rest;
      assert Rest8(AllBytes(us) + rest, us') == Bytes(u) + rest;
      FirstOf(u, rest);
      Reads8Snoc(AllBytes(us) + rest, us', u);
    }
  }

  // Read on to the end, the bytes of some units give these units and no others.
  lemma ReadsAll8(us: seq<Unit>, vs: seq<Unit>)
    requires Reads8(AllBytes(us), vs) && First8(Rest8(AllBytes(us), vs)).NoUnit?
    ensures vs == us
  {
    hide First8, Bytes;
    ReadsBack8(us, []);
    assert AllBytes(us) + [] == AllBytes(us);
    var b := AllBytes(us);
    if |vs| < |us| {
      assert Reads8At(b, us, |vs|) && vs[..|vs|] == vs;
      Reads8Once(b, us, vs, |vs|);
    } else {
      Reads8Once(b, us, vs, |us|);
      assert us == vs[..|us|];
      if |us| < |vs| {
        Longer(vs, |us|);
      }
    }
  }

  lemma {:induction false} Longer(us: seq<Unit>, i: nat)
    requires i < |us|
    ensures |AllBytes(us[..i])| < |AllBytes(us)| && |AllChars(us[..i])| < |AllChars(us)|
    decreases |us|
  {
    if i < |us| - 1 {
      Longer(us[..|us| - 1], i);
      assert us[..|us| - 1][..i] == us[..i];
    }
  }

  ghost predicate Reads16(s: seq<UniChar>, us: seq<Unit>) {
    && AllChars(us) <= s
    && (forall i :: 0 <= i < |us| ==> Reads16At(s, us, i))
  }

  ghost predicate Reads16At(s: seq<UniChar>, us: seq<Unit>, i: nat)
    requires i < |us|
  {
    |AllChars(us[..i])| <= |s| && First16(s[|AllChars(us[..i])|..]) == One(us[i])
  }

  function Rest16(s: seq<UniChar>, us: seq<Unit>): seq<UniChar>
    requires |AllChars(us)| <= |s|
  {
    s[|AllChars(us)|..]
  }

  lemma Reads16None(s: seq<UniChar>)
    ensures Reads16(s, []) && Rest16(s, []) == s
  {
  }

  lemma Reads16Snoc(s: seq<UniChar>, us: seq<Unit>, u: Unit)
    requires Reads16(s, us) && First16(Rest16(s, us)) == One(u)
    ensures Reads16(s, us + [u]) && Rest16(s, us + [u]) == Rest16(s, us)[|Chars(u)|..]
  {
    First16Chars(Rest16(s, us));
    hide AllBytes, AllChars, Chars, First16;
    AllSnoc(us, u);
    assert s == AllChars(us) + Rest16(s, us);
    forall i | 0 <= i < |us + [u]| ensures Reads16At(s, us + [u], i) {
      if i < |us| {
        assert (us + [u])[..i] == us[..i];
        assert Reads16At(s, us, i);
      } else {
        assert (us + [u])[..i] == us;
      }
    }
  }

  lemma First16Chars(s: seq<UniChar>)
    requires First16(s).One?
    ensures First16(s).unit.Char? && Chars(First16(s).unit) <= s
  {
  }

  lemma {:induction false} Reads16Once(s: seq<UniChar>, us: seq<Unit>, vs: seq<Unit>, i: nat)
    requires Reads16(s, us) && Reads16(s, vs) && i <= |us| && i <= |vs|
    ensures us[..i] == vs[..i]
  {
    hide First16, AllChars;
    if i > 0 {
      Reads16Once(s, us, vs, i - 1);
      assert Reads16At(s, us, i - 1) && Reads16At(s, vs, i - 1);
      assert us[..i] == us[..i - 1] + [us[i - 1]] && vs[..i] == vs[..i - 1] + [vs[i - 1]];
    }
  }

  // Text without stray bytes.
  predicate IsText(us: seq<Unit>) {
    forall i :: 0 <= i < |us| ==> us[i].Char?
  }

  lemma {:induction false} ReadsBack16(us: seq<Unit>, rest: seq<UniChar>)
    requires IsText(us)
    ensures Reads16(AllChars(us) + rest, us)
    decreases |us|
  {
    hide First16, Utf16;
    if us == [] {
      Reads16None(AllChars(us) + rest);
    } else {
      var us', u := us[..|us| - 1], us[|us| - 1];
      ReadsBack16(us', Chars(u) + rest);
      assert us == us' + [u];
      AllSnoc(us', u);
      assert AllChars(us') + (Chars(u) + rest) == AllChars(us) + rest;
      assert Rest16(AllChars(us) + rest, us') == Chars(u) + rest;
      First16Of(u.cp, rest);
      Reads16Snoc(AllChars(us) + rest, us', u);
    }
  }

  lemma ReadsAll16(us: seq<Unit>, vs: seq<Unit>)
    requires IsText(us) && Reads16(AllChars(us), vs) && First16(Rest16(AllChars(us), vs)).NoUnit?
    ensures vs == us
  {
    hide First16, Chars;
    ReadsBack16(us, []);
    assert AllChars(us) + [] == AllChars(us);
    var s := AllChars(us);
    if |vs| < |us| {
      assert Reads16At(s, us, |vs|) && vs[..|vs|] == vs;
      Reads16Once(s, us, vs, |vs|);
    } else {
      Reads16Once(s, us, vs, |us|);
      assert us == vs[..|us|];
      if |us| < |vs| {
        Longer(vs, |us|);
      }
    }
  }
}
