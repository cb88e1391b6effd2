// Conversion between UTF-16 and UTF-8 in the strict mode, into buffers that may be too small.
module Utf8Converters {
  import opened Utf8Units
  import SizedInts

  // What 32 bits keep of a number.
  function Wrapped(n: nat): nat {
    n % SizedInts.UINT32_LIMIT
  }

  const REPLACEMENT: int := 0xFFFD

  function BytesToWrite(ch: nat): nat {
    if ch < 0x80 then 1 else if ch < 0x800 then 2 else if ch < 0x10000 then 3 else if ch < 0x200000 then 4
    else if ch < 0x4000000 then 5 else if ch <= 0x7FFFFFFF then 6 else 0
  }

  function FirstByteMark(n: nat): Byte {
    if n <= 1 then 0 else if n == 2 then 0xC0 else if n == 3 then 0xE0 else if n == 4 then 0xF0
    else if n == 5 then 0xF8 else 0xFC
  }

  // Six bits in each byte but the first, as in UTF-8.
  function Long(number: nat): seq<Byte>
    requires 0x11_0000 <= number < 0x8000_0000
  {
    var a, b, c, d, e := number / 0x40, number / 0x40 / 0x40, number / 0x40 / 0x40 / 0x40,
      number / 0x40 / 0x40 / 0x40 / 0x40, number / 0x40 / 0x40 / 0x40 / 0x40 / 0x40;
    if number < 0x20_0000 then [0xF0 + c, Trail(b), Trail(a), Trail(number)]
    else if number < 0x400_0000 then [0xF8 + d, Trail(c), Trail(b), Trail(a), Trail(number)]
    else [0xFC + e, Trail(d), Trail(c), Trail(b), Trail(a), Trail(number)]
  }

  // The bytes of a number of up to 31 bits, or none when they do not fit.
  method ToUTF8Core(number: nat, maxByteLen: nat) returns (written: nat, bytes: seq<Byte>)
    requires number < SizedInts.UINT32_LIMIT && maxByteLen < SizedInts.UINT32_LIMIT
    ensures written == |bytes| <= maxByteLen
    ensures IsScalar(number) ==> bytes == if Length8(number) <= maxByteLen then Utf8(number) else []
    // up to 31 bits the same goes on, and anything more is written as two bytes
    ensures 0x11_0000 <= number < 0x8000_0000 ==>
      bytes == if BytesToWrite(number) <= maxByteLen then Long(number) else []
    ensures 0x8000_0000 <= number ==> bytes == if 2 <= maxByteLen then [0xFF, 0xBD] else []
  {
    hide Utf8, Long, Top, Tail;
    var ch := number;
    var bytesToWrite := BytesToWrite(ch);
    if bytesToWrite == 0 {
      bytesToWrite := 2;
      ch := REPLACEMENT;
    }
    Written(number);
    if number < 0x8000_0000 { LeadFits(number); }
    if maxByteLen < bytesToWrite {
      return 0, [];
    }
    ch, bytes := TrailBytes(ch, bytesToWrite);
    // the replacement written in two bytes has more bits than the lead byte
    var lead: Byte := if ch > 0xFF then 0xFF else FirstByteMark(bytesToWrite) + ch;
    bytes := [lead] + bytes;
    written := bytesToWrite;
  }

  // The bytes behind the first, from the last one on, and what is left for the first.
  method TrailBytes(number: nat, bytesToWrite: nat) returns (ch: nat, bytes: seq<Byte>)
    requires 1 <= bytesToWrite <= 6
    ensures ch == Top(number, bytesToWrite) && bytes == Tail(number, bytesToWrite)
    ensures |bytes| == bytesToWrite - 1
  {
    hide Top, Tail;
    ch, bytes := number, [];
    ghost var left := bytesToWrite;
    Begun(Tail(ch, left));
    if bytesToWrite >= 6 { MoreTail(ch, 6, bytes); bytes := [Trail(ch)] + bytes; ch := ch / 0x40; left := 5; }
    if bytesToWrite >= 5 { MoreTail(ch, 5, bytes); bytes := [Trail(ch)] + bytes; ch := ch / 0x40; left := 4; }
    if bytesToWrite >= 4 { MoreTail(ch, 4, bytes); bytes := [Trail(ch)] + bytes; ch := ch / 0x40; left := 3; }
    if bytesToWrite >= 3 { MoreTail(ch, 3, bytes); bytes := [Trail(ch)] + bytes; ch := ch / 0x40; left := 2; }
    if bytesToWrite >= 2 { MoreTail(ch, 2, bytes); bytes := [Trail(ch)] + bytes; ch := ch / 0x40; left := 1; }
    NoTail(ch, bytes);
  }

  // What is left of a number above the bits of the bytes behind the first, and those bytes.
  ghost function Top(ch: nat, n: nat): nat {
    if n <= 1 then ch else Top(ch / 0x40, n - 1)
  }

  ghost function Tail(ch: nat, n: nat): seq<Byte> {
    if n <= 1 then [] else Tail(ch / 0x40, n - 1) + [Trail(ch)]
  }

  lemma MoreTail(ch: nat, n: nat, bytes: seq<Byte>)
    requires n >= 2
    ensures Top(ch, n) == Top(ch / 0x40, n - 1)
    ensures Tail(ch, n) + bytes == Tail(ch / 0x40, n - 1) + ([Trail(ch)] + bytes)
  {
    assert Tail(ch, n) + bytes == Tail(ch / 0x40, n - 1) + ([Trail(ch)] + bytes);
  }

  lemma NoTail(ch: nat, bytes: seq<Byte>)
    ensures Top(ch, 1) == ch && Tail(ch, 1) + bytes == bytes
  {
  }

  lemma Begun(all: seq<Byte>)
    ensures all + [] == all
  {
  }

  // The first byte and the others make up the bytes of the number.
  lemma Written(number: nat)
    requires number < SizedInts.UINT32_LIMIT
    ensures IsScalar(number) ==>
      && BytesToWrite(number) == Length8(number) == |Utf8(number)|
      && var n := Length8(number);
      && FirstByteMark(n) + Top(number, n) <= 0xFF
      && Utf8(number) == [FirstByteMark(n) + Top(number, n)] + Tail(number, n)
    ensures 0x11_0000 <= number < 0x8000_0000 ==>
      && var n := BytesToWrite(number);
      && n == |Long(number)| && FirstByteMark(n) + Top(number, n) <= 0xFF
      && Long(number) == [FirstByteMark(n) + Top(number, n)] + Tail(number, n)
    ensures Top(REPLACEMENT, 2) > 0xFF && Tail(REPLACEMENT, 2) == [0xBD]
  {
    hide *;
    if 0x11_0000 <= number < 0x8000_0000 {
      WrittenLong(number);
    }
    if IsScalar(number) {
      WrittenScalar(number);
    }
    WrittenReplacement();
  }

  lemma WrittenReplacement()
    ensures Top(REPLACEMENT, 2) > 0xFF && Tail(REPLACEMENT, 2) == [0xBD]
  {
    UpToThree(REPLACEMENT);
    assert REPLACEMENT / 0x40 == 0x3FF && REPLACEMENT % 0x40 == 0x3D;
  }

  lemma WrittenScalar(number: nat)
    requires IsScalar(number)
    ensures var n := Length8(number);
      && BytesToWrite(number) == n == |Utf8(number)|
      && FirstByteMark(n) + Top(number, n) <= 0xFF
      && Utf8(number) == [FirstByteMark(n) + Top(number, n)] + Tail(number, n)
  {
    hide Top, Tail, Trail;
    UpToThree(number);
    UpToFour(number);
  }

  lemma WrittenLong(number: nat)
    requires 0x11_0000 <= number < 0x8000_0000
    ensures var n := BytesToWrite(number);
      && n == |Long(number)| && FirstByteMark(n) + Top(number, n) <= 0xFF
      && Long(number) == [FirstByteMark(n) + Top(number, n)] + Tail(number, n)
  {
    hide Top, Tail, Trail;
    UpToFour(number);
    UpToSix(number);
  }

  lemma LeadFits(number: nat)
    requires number < 0x8000_0000
    ensures FirstByteMark(BytesToWrite(number)) + Top(number, BytesToWrite(number)) <= 0xFF
  {
    UpToThree(number);
    UpToFour(number);
    UpToSix(number);
  }

  lemma UpToThree(ch: nat)
    ensures Top(ch, 1) == ch && Tail(ch, 1) == []
    ensures Top(ch, 2) == ch / 0x40 && Tail(ch, 2) == [Trail(ch)]
    ensures Top(ch, 3) == ch / 0x40 / 0x40 && Tail(ch, 3) == [Trail(ch / 0x40), Trail(ch)]
  {
    var a := ch / 0x40;
    assert Top(a, 2) == Top(a / 0x40, 1) && Tail(a, 2) == Tail(a / 0x40, 1) + [Trail(a)];
    assert Top(ch, 3) == Top(a, 2) && Tail(ch, 3) == Tail(a, 2) + [Trail(ch)];
  }

  lemma UpToFour(ch: nat)
    ensures Top(ch, 4) == ch / 0x40 / 0x40 / 0x40
    ensures Tail(ch, 4) == [Trail(ch / 0x40 / 0x40), Trail(ch / 0x40), Trail(ch)]
  {
    UpToThree(ch / 0x40);
  }

  lemma UpToSix(ch: nat)
    ensures Top(ch, 5) == ch / 0x40 / 0x40 / 0x40 / 0x40
    ensures Tail(ch, 5) == [Trail(ch / 0x40 / 0x40 / 0x40), Trail(ch / 0x40 / 0x40), Trail(ch / 0x40), Trail(ch)]
    ensures Top(ch, 6) == ch / 0x40 / 0x40 / 0x40 / 0x40 / 0x40
    ensures Tail(ch, 6) == [Trail(ch / 0x40 / 0x40 / 0x40 / 0x40), Trail(ch / 0x40 / 0x40 / 0x40),
      Trail(ch / 0x40 / 0x40), Trail(ch / 0x40), Trail(ch)]
  {
    UpToFour(ch / 0x40);
    UpToFour(ch / 0x40 / 0x40);
    assert Tail(ch / 0x40, 5) == Tail(ch / 0x40 / 0x40, 4) + [Trail(ch / 0x40)];
  }

  // ---------- UTF-16 to UTF-8 ----------

  // A conversion into a buffer of the given size stops before this unit, 0 standing for a buffer that
  // is only measured.  An ASCII character needs any room at all; the bytes of others must fit what
  // 32 bits keep of the room.
  ghost predicate Blocked(maxByteLen: nat, used: nat, u: Unit) {
    && maxByteLen > 0
    && (used >= maxByteLen || (|Bytes(u)| > 1 && Wrapped(maxByteLen - used) < |Bytes(u)|))
  }

  ghost predicate Passes(us: seq<Unit>, maxByteLen: nat) {
    forall i :: 0 <= i < |us| ==> PassesAt(us, i, maxByteLen)
  }

  ghost predicate PassesAt(us: seq<Unit>, i: nat, maxByteLen: nat)
    requires i < |us|
  {
    !Blocked(maxByteLen, |AllBytes(us[..i])|, us[i])
  }

  // Which units a conversion takes: none at which it would have stopped, and it does stop before the
  // next one that can be read.
  ghost predicate Taken16(characters: seq<UniChar>, maxByteLen: nat, us: seq<Unit>) {
    && Reads16(characters, us) && Passes(us, maxByteLen)
    && (First16(Rest16(characters, us)).One? ==>
          Blocked(maxByteLen, |AllBytes(us)|, First16(Rest16(characters, us)).unit))
  }

  lemma WrappedWithin(n: nat)
    ensures Wrapped(n) < SizedInts.UINT32_LIMIT && Wrapped(n) <= n
    ensures n < SizedInts.UINT32_LIMIT ==> Wrapped(n) == n
  {
  }

  lemma UnitNotEmpty(u: Unit)
    ensures |Bytes(u)| >= 1
  {
  }

  // One more unit passes, and fits.
  lemma PassesSnoc(us: seq<Unit>, u: Unit, maxByteLen: nat)
    requires Passes(us, maxByteLen) && !Blocked(maxByteLen, |AllBytes(us)|, u)
    ensures Passes(us + [u], maxByteLen)
    ensures maxByteLen > 0 ==> |AllBytes(us + [u])| <= maxByteLen
  {
    hide AllBytes, Bytes, Wrapped;
    AllSnoc(us, u);
    if maxByteLen > |AllBytes(us)| {
      WrappedWithin(maxByteLen - |AllBytes(us)|);
    }
    forall i | 0 <= i < |us + [u]| ensures PassesAt(us + [u], i, maxByteLen) {
      if i < |us| {
        assert (us + [u])[..i] == us[..i];
        assert PassesAt(us, i, maxByteLen);
      } else {
        assert (us + [u])[..i] == us;
      }
    }
  }

  // What a conversion of these units gives.
  ghost predicate Encoded(us: seq<Unit>, maxByteLen: nat, consumed: nat, bytes: seq<Byte>, usedByteLen: nat) {
    && consumed == |AllChars(us)| && usedByteLen == |AllBytes(us)|
    && bytes == if maxByteLen == 0 then [] else AllBytes(us)
  }

  // Converts as much as can be read and fits; a surrogate without its other half stops it.
  method ToUTF8(characters: seq<UniChar>, maxByteLen: nat)
    returns (consumed: nat, bytes: seq<Byte>, usedByteLen: nat)
    ensures exists us :: Taken16(characters, maxByteLen, us) && Encoded(us, maxByteLen, consumed, bytes, usedByteLen)
  {
    hide AllBytes, AllChars, First16, Reads16, Pair, Utf8, Utf16, Bytes, Chars, Wrapped, Passes;
    consumed, bytes, usedByteLen := 0, [], 0;
    ghost var us: seq<Unit> := [];
    StartUnits(characters);
    while consumed < |characters| && (maxByteLen == 0 || usedByteLen < maxByteLen)
      invariant consumed == |AllChars(us)| <= |characters| && usedByteLen == |AllBytes(us)|
      invariant Reads16(characters, us) && bytes == (if maxByteLen == 0 then [] else AllBytes(us))
      invariant Passes(us, maxByteLen) && (maxByteLen > 0 ==> usedByteLen <= maxByteLen)
      decreases |characters| - consumed
    {
      ghost var rest := Rest16(characters, us);
      First16Is(rest);
      var ch: nat := characters[consumed];
      consumed := consumed + 1;
      if ch < 0x80 {
        if maxByteLen != 0 {
          var ascii: Byte := ch;
          bytes := bytes + [ascii];
        }
        usedByteLen := usedByteLen + 1;
        AsciiUnit(ch);
        PassesSnoc(us, Char(ch), maxByteLen);
        Reads16Snoc(characters, us, Char(ch));
        AllSnoc(us, Char(ch));
        us := us + [Char(ch)];
      } else {
        if ch >= 0xD800 {
          if ch <= 0xDBFF {
            if consumed < |characters| && 0xDC00 <= characters[consumed] <= 0xDFFF {
              ch := (ch - 0xD800) * 0x400 + (characters[consumed] - 0xDC00) + 0x10000;
              consumed := consumed + 1;
              PairIs(rest, ch);
            } else {
              consumed := consumed - 1;
              break;
            }
          } else if ch <= 0xDFFF {
            consumed := consumed - 1;
            break;
          }
        }
        UnitSizes(ch);
        var written;
        if maxByteLen != 0 {
          var some;
          WrappedWithin(maxByteLen - usedByteLen);
          written, some := ToUTF8Core(ch, Wrapped(maxByteLen - usedByteLen));
          bytes := bytes + some;
        } else {
          written := BytesToWrite(ch);
        }
        if written == 0 {
          consumed := consumed - if ch < 0x10000 then 1 else 2;
          break;
        }
        usedByteLen := usedByteLen + written;
        PassesSnoc(us, Char(ch), maxByteLen);
        Reads16Snoc(characters, us, Char(ch));
        AllSnoc(us, Char(ch));
        us := us + [Char(ch)];
      }
    }
    Ended(characters, us);
    assert Taken16(characters, maxByteLen, us);
  }

  lemma StartUnits(characters: seq<UniChar>)
    ensures Reads16(characters, []) && AllBytes([]) == [] && AllChars([]) == []
    ensures forall maxByteLen :: Passes([], maxByteLen)
  {
  }

  lemma AsciiUnit(ch: Scalar)
    requires ch < 0x80
    ensures Bytes(Char(ch)) == [ch] && |Chars(Char(ch))| == 1
  {
  }

  lemma PairIs(rest: seq<UniChar>, ch: int)
    requires |rest| >= 2 && IsHigh(rest[0]) && IsLow(rest[1])
    requires ch == (rest[0] as int - 0xD800) * 0x400 + (rest[1] as int - 0xDC00) + 0x10000
    ensures IsScalar(ch) && ch >= 0x10000 && ch == Pair(rest[0], rest[1])
  {
  }

  lemma UnitSizes(ch: Scalar)
    ensures Bytes(Char(ch)) == Utf8(ch) && |Utf8(ch)| == Length8(ch) == BytesToWrite(ch)
    ensures |Chars(Char(ch))| == if ch < 0x10000 then 1 else 2
  {
  }

  // Nothing can be read from nothing, and every unit takes a byte.
  lemma Ended(characters: seq<UniChar>, us: seq<Unit>)
    requires Reads16(characters, us)
    ensures |AllChars(us)| == |characters| ==> First16(Rest16(characters, us)).NoUnit?
    ensures |AllChars(us)| <= |characters|
    ensures First16(Rest16(characters, us)).One? ==> |Bytes(First16(Rest16(characters, us)).unit)| >= 1
  {
  }

  // ---------- UTF-8 to UTF-16 ----------

  // No unit is left that can be read and would fit.
  ghost predicate FullAfter(maxLen: nat, used: nat, next: nat) {
    maxLen > 0 && used + next > maxLen
  }

  ghost predicate Taken8(bytes: seq<Byte>, maxCharLen: nat, us: seq<Unit>) {
    && Reads8(bytes, us)
    && (maxCharLen > 0 ==> |AllChars(us)| <= maxCharLen)
    && (First8(Rest8(bytes, us)).One? ==>
          FullAfter(maxCharLen, |AllChars(us)|, |Chars(First8(Rest8(bytes, us)).unit)|))
  }

  // A character of four bytes met with room for one of its two halves only.
  ghost predicate Overrun(bytes: seq<Byte>, maxCharLen: nat, us: seq<Unit>)
    requires Reads8(bytes, us)
  {
    && maxCharLen > 0 && |AllChars(us)| + 1 == maxCharLen
    && First8(Rest8(bytes, us)).One? && |Chars(First8(Rest8(bytes, us)).unit)| == 2
  }

  // Reads the unit that starts at source, if one does.
  method ReadUnit(bytes: seq<Byte>, source: nat) returns (first: First)
    requires source < |bytes|
    ensures first == First8(bytes[source..])
    ensures first.One? ==> source + |Bytes(first.unit)| <= |bytes|
  {
    hide Starts, First8, Utf8, Assemble;
    ghost var rest := bytes[source..];
    var numBytes := |bytes| - source;
    var extraBytesToRead := Trailing(bytes[source]);
    FirstCases(rest);
    if extraBytesToRead > numBytes - 1 {
      return NoUnit;
    }
    var legal := extraBytesToRead <= 3 && IsLegal(bytes[source..], extraBytesToRead + 1);
    if !legal {
      if bytes[source] == 0xA9 {
        return One(Stray);
      }
      return NoUnit;
    }
    LegalSound(rest);
    var ch := Assemble(bytes[source..], extraBytesToRead);
    return One(Char(ch));
  }

  // What the check of the first bytes decides.
  lemma FirstCases(b: seq<Byte>)
    requires b != []
    ensures Trailing(b[0]) + 1 > |b| ==> First8(b).NoUnit?
    ensures Trailing(b[0]) + 1 <= |b| && !(Trailing(b[0]) <= 3 && IsLegal(b, Trailing(b[0]) + 1)) ==>
      First8(b) == if b[0] == 0xA9 then One(Stray) else NoUnit
    ensures Trailing(b[0]) + 1 <= |b| && IsLegal(b, Trailing(b[0]) + 1) ==>
      && Trailing(b[0]) <= 3 && IsScalar(Assemble(b, Trailing(b[0])))
      && First8(b) == One(Char(Assemble(b, Trailing(b[0]))))
      && |Bytes(Char(Assemble(b, Trailing(b[0]))))| == Trailing(b[0]) + 1
  {
    hide Starts, Utf8, Assemble, IsLegal;
    if Trailing(b[0]) + 1 <= |b| && IsLegal(b, Trailing(b[0]) + 1) {
      LegalSound(b);
      FirstChar(b, Assemble(b, Trailing(b[0])));
    } else {
      forall cp: Scalar ensures !Starts(b, cp) {
        if Starts(b, cp) {
          LegalComplete(b, cp);
        }
      }
    }
  }

  ghost predicate Decoded(bytes: seq<Byte>, us: seq<Unit>, maxCharLen: nat, consumed: nat, characters: seq<UniChar>,
                          usedCharLen: nat)
    requires Reads8(bytes, us)
  {
    && consumed == |AllBytes(us)| + (if Overrun(bytes, maxCharLen, us) then 4 else 0)
    && usedCharLen == |AllChars(us)| && characters == if maxCharLen == 0 then [] else AllChars(us)
  }

  // Converts as much as can be read and fits.  The bytes of a character whose two halves do not
  // fit are consumed nevertheless.
  method FromUTF8(bytes: seq<Byte>, maxCharLen: nat)
    returns (consumed: nat, characters: seq<UniChar>, usedCharLen: nat)
    ensures exists us ::
      && Taken8(bytes, maxCharLen, us)
      && Decoded(bytes, us, maxCharLen, consumed, characters, usedCharLen)
  {
    hide AllBytes, AllChars, First8, Reads8, Bytes, Chars, Utf16;
    consumed, characters, usedCharLen := 0, [], 0;
    ghost var us: seq<Unit> := [];
    StartUnits8(bytes);
    while consumed < |bytes| && (maxCharLen == 0 || usedCharLen < maxCharLen)
      invariant consumed == |AllBytes(us)| <= |bytes| && usedCharLen == |AllChars(us)|
      invariant Reads8(bytes, us) && characters == (if maxCharLen == 0 then [] else AllChars(us))
      invariant maxCharLen > 0 ==> usedCharLen <= maxCharLen
      decreases |bytes| - consumed
    {
      var first := ReadUnit(bytes, consumed);
      if first.NoUnit? {
        break;
      }
      UnitOut(first.unit);
      match first.unit {
        case Stray =>
          if maxCharLen != 0 {
            var replacement: UniChar := REPLACEMENT;
            characters := characters + [replacement];
          }
          usedCharLen := usedCharLen + 1;
          consumed := consumed + 1;
        case Char(ch) =>
          if ch <= 0xFFFF {
            if maxCharLen != 0 {
              characters := characters + [AsChar(ch)];
            }
            usedCharLen := usedCharLen + 1;
          } else {
            if maxCharLen != 0 {
              if usedCharLen + 2 > maxCharLen {
                consumed := consumed + |Utf8(ch)|;
                break;
              }
              characters := characters + [High(ch)];
              characters := characters + [Low(ch)];
            }
            usedCharLen := usedCharLen + 2;
          }
          consumed := consumed + |Utf8(ch)|;
      }
      Reads8Snoc(bytes, us, first.unit);
      AllSnoc(us, first.unit);
      us := us + [first.unit];
    }
    Ended8(bytes, us);
    assert Taken8(bytes, maxCharLen, us);
  }

  lemma StartUnits8(bytes: seq<Byte>)
    ensures Reads8(bytes, []) && AllBytes([]) == [] && AllChars([]) == []
  {
  }

  lemma UnitOut(u: Unit)
    ensures u.Stray? ==> Chars(u) == [REPLACEMENT] && |Bytes(u)| == 1
    ensures u.Char? ==> Bytes(u) == Utf8(u.cp)
    ensures u.Char? && u.cp <= 0xFFFF ==> Chars(u) == [AsChar(u.cp)]
    ensures u.Char? && u.cp > 0xFFFF ==> Chars(u) == [High(u.cp)] + [Low(u.cp)] && |Utf8(u.cp)| == 4
  {
  }

  lemma Ended8(bytes: seq<Byte>, us: seq<Unit>)
    requires Reads8(bytes, us)
    ensures |AllBytes(us)| == |bytes| ==> First8(Rest8(bytes, us)).NoUnit?
    ensures |AllBytes(us)| <= |bytes|
    ensures First8(Rest8(bytes, us)).One? ==> 1 <= |Chars(First8(Rest8(bytes, us)).unit)| <= 2
  {
  }

  // The number of characters that a conversion without bound would give.
  method FromUTF8Len(bytes: seq<Byte>) returns (usedCharLen: nat)
    ensures exists us :: Taken8(bytes, 0, us) && usedCharLen == |AllChars(us)|
  {
    hide AllBytes, AllChars, First8, Reads8, Bytes, Chars, Utf16;
    usedCharLen := 0;
    ghost var us: seq<Unit> := [];
    var source := 0;
    StartUnits8(bytes);
    while source < |bytes|
      invariant source == |AllBytes(us)| <= |bytes| && usedCharLen == |AllChars(us)| && Reads8(bytes, us)
      decreases |bytes| - source
    {
      var first := ReadUnit(bytes, source);
      if first.NoUnit? {
        break;
      }
      UnitOut(first.unit);
      match first.unit {
        case Stray =>
          source := source + 1;
          usedCharLen := usedCharLen + 1;
        case Char(ch) =>
          source := source + |Utf8(ch)|;
          usedCharLen := usedCharLen + if ch <= 0xFFFF then 1 else 2;
      }
      Reads8Snoc(bytes, us, first.unit);
      AllSnoc(us, first.unit);
      us := us + [first.unit];
    }
    Ended8(bytes, us);
    assert Taken8(bytes, 0, us);
  }
}
