// What the two conversions do to each other's results.
module Utf8RoundTrip {
  import opened Utf8Units
  import opened Utf8Converters
  import SizedInts

  // UTF-16 in which every surrogate has its other half.
  ghost predicate WellFormed16(s: seq<UniChar>) {
    exists us :: IsText(us) && AllChars(us) == s
  }

  ghost predicate WellFormed8(b: seq<Byte>) {
    exists us :: IsText(us) && AllBytes(us) == b
  }

  lemma {:induction false} Sizes(us: seq<Unit>)
    ensures |AllChars(us)| <= |AllBytes(us)| <= 3 * |AllChars(us)|
    decreases |us|
  {
    if us != [] {
      Sizes(us[..|us| - 1]);
    }
  }

  lemma {:induction false} Text16(s: seq<UniChar>, us: seq<Unit>, n: nat)
    requires Reads16(s, us) && n <= |us|
    ensures IsText(us[..n])
  {
    if n > 0 {
      Text16(s, us, n - 1);
      assert Reads16At(s, us, n - 1);
      First16Chars(s[|AllChars(us[..n - 1])|..]);
    }
  }

  // The units that a conversion takes are determined: there is one way to read, as far as fits.
  lemma Taken8Once(b: seq<Byte>, room: nat, us: seq<Unit>, vs: seq<Unit>)
    requires Taken8(b, room, us) && Taken8(b, room, vs)
    ensures us == vs
  {
    NoMore8(b, room, us, vs);
    NoMore8(b, room, vs, us);
    Reads8Once(b, us, vs, |us|);
    assert us == us[..|us|] && vs == vs[..|us|];
  }

  lemma NoMore8(b: seq<Byte>, room: nat, us: seq<Unit>, vs: seq<Unit>)
    requires Taken8(b, room, us) && Taken8(b, room, vs)
    ensures |vs| <= |us|
  {
    hide First8, AllBytes, AllChars, Bytes, Chars;
    if |us| < |vs| {
      var n := |us|;
      Reads8Once(b, us, vs, n);
      assert us[..n] == us && vs[..n + 1] == us + [vs[n]] && Reads8At(b, vs, n);
      AllSnoc(us, vs[n]);
      Grows(vs, n + 1);
    }
  }

  lemma Taken16Once(s: seq<UniChar>, room: nat, us: seq<Unit>, vs: seq<Unit>)
    requires Taken16(s, room, us) && Taken16(s, room, vs)
    ensures us == vs
  {
    NoMore16(s, room, us, vs);
    NoMore16(s, room, vs, us);
    Reads16Once(s, us, vs, |us|);
    assert us == us[..|us|] && vs == vs[..|us|];
  }

  // What can be read past the units taken does not pass.
  lemma NoMore16(s: seq<UniChar>, room: nat, us: seq<Unit>, vs: seq<Unit>)
    requires Taken16(s, room, us) && Reads16(s, vs) && Passes(vs, room)
    ensures |vs| <= |us|
  {
    hide First16, AllBytes, AllChars, Bytes, Chars, Wrapped;
    if |us| < |vs| {
      NextPasses(s, room, us, vs);
    }
  }

  lemma NextPasses(s: seq<UniChar>, room: nat, us: seq<Unit>, vs: seq<Unit>)
    requires Reads16(s, us) && Reads16(s, vs) && Passes(vs, room) && |us| < |vs|
    ensures First16(Rest16(s, us)) == One(vs[|us|]) && !Blocked(room, |AllBytes(us)|, vs[|us|])
  {
    hide First16, AllBytes, AllChars, Bytes, Chars, Wrapped;
    var n := |us|;
    Reads16Once(s, us, vs, n);
    assert us[..n] == us && vs[..n] == us && Reads16At(s, vs, n) && PassesAt(vs, n, room);
  }

  lemma Grows(us: seq<Unit>, n: nat)
    requires n <= |us|
    ensures |AllBytes(us[..n])| <= |AllBytes(us)| && |AllChars(us[..n])| <= |AllChars(us)|
  {
    hide AllBytes, AllChars;
    if n < |us| {
      Longer(us, n);
    } else {
      assert us[..n] == us;
    }
  }

  // ---------- the room ----------

  // Nothing that can be read in turn is blocked.
  ghost predicate PassesThrough(s: seq<UniChar>, room: nat) {
    forall us :: Reads16(s, us) ==> Passes(us, room)
  }

  // Below 2^32, what fits as a whole passes.
  lemma FitsPasses(us: seq<Unit>, room: nat)
    requires |AllBytes(us)| <= room < SizedInts.UINT32_LIMIT
    ensures Passes(us, room)
  {
    hide AllBytes, Bytes, Wrapped;
    forall i | 0 <= i < |us| ensures PassesAt(us, i, room) {
      assert us[..i + 1] == us[..i] + [us[i]];
      AllSnoc(us[..i], us[i]);
      Grows(us, i + 1);
      UnitNotEmpty(us[i]);
      WrappedWithin(room - |AllBytes(us[..i])|);
    }
  }

  lemma {:induction false} PassesFits(us: seq<Unit>, room: nat)
    requires room > 0 && Passes(us, room)
    ensures |AllBytes(us)| <= room
    decreases |us|
  {
    hide AllBytes, Bytes, Wrapped;
    if us != [] {
      var us', u := us[..|us| - 1], us[|us| - 1];
      assert us == us' + [u] && PassesAt(us, |us| - 1, room);
      PassesPrefix(us, room, |us| - 1);
      PassesSnoc(us', u, room);
    } else {
      NoUnits();
    }
  }

  lemma PassesPrefix(us: seq<Unit>, room: nat, n: nat)
    requires Passes(us, room) && n <= |us|
    ensures Passes(us[..n], room)
  {
    hide AllBytes;
    forall i | 0 <= i < n ensures PassesAt(us[..n], i, room) {
      assert us[..n][..i] == us[..i] && PassesAt(us, i, room);
    }
  }

  // So in buffers of less than 2^32 bytes exactly the units are taken that can be read in turn and
  // fit, up to the first that does not.
  lemma SmallRoom(s: seq<UniChar>, room: nat, us: seq<Unit>)
    requires 0 < room < SizedInts.UINT32_LIMIT && Reads16(s, us)
    ensures Taken16(s, room, us) <==>
      && |AllBytes(us)| <= room
      && (First16(Rest16(s, us)).One? ==> |AllBytes(us)| + |Bytes(First16(Rest16(s, us)).unit)| > room)
  {
    hide AllBytes, Bytes, Wrapped, First16;
    if Passes(us, room) {
      PassesFits(us, room);
    } else if |AllBytes(us)| <= room {
      FitsPasses(us, room);
    }
    if |AllBytes(us)| <= room && First16(Rest16(s, us)).One? {
      UnitNotEmpty(First16(Rest16(s, us)).unit);
      WrappedWithin(room - |AllBytes(us)|);
    }
  }

  // Three bytes for each character are enough, as long as they are less than 2^32.
  lemma RoomEnough(s: seq<UniChar>, room: nat)
    requires 3 * |s| <= room < SizedInts.UINT32_LIMIT
    ensures PassesThrough(s, room)
  {
    forall us | Reads16(s, us) ensures Passes(us, room) {
      Sizes(us);
      FitsPasses(us, room);
    }
  }

  // From 2^32 bytes on a conversion can stop with room to spare.  A buffer of 2^32 bytes does not
  // take the two bytes of U+00E9.
  lemma LargeRoomStops()
    ensures Taken16([0xE9], SizedInts.UINT32_LIMIT, [])
    ensures WellFormed16([0xE9]) && !PassesThrough([0xE9], SizedInts.UINT32_LIMIT)
  {
    FirstBlocked([0xE9], 0xE9, SizedInts.UINT32_LIMIT);
  }

  // Three bytes for each of 1431655766 characters U+20AC are 2^32 + 2 bytes, and take none of them.
  lemma LargeTextStops(s: seq<UniChar>)
    requires |s| == 1431655766 && forall i :: 0 <= i < |s| ==> s[i] == 0x20AC
    ensures Taken16(s, 3 * |s|, [])
  {
    var euro: Scalar := 0x20AC;
    First16Of(euro, s[1..]);
    assert Utf16(euro) + s[1..] == s;
    Reads16None(s);
    NoUnits();
    UnitSizes(euro);
  }

  lemma FirstBlocked(s: seq<UniChar>, ch: Scalar, room: nat)
    requires s == Utf16(ch) && room > 0 && |Utf8(ch)| > 1 && Wrapped(room) < |Utf8(ch)|
    ensures Taken16(s, room, []) && WellFormed16(s) && !PassesThrough(s, room)
  {
    hide First16, Utf8, Utf16;
    First16Of(ch, []);
    assert Utf16(ch) + [] == s;
    Reads16None(s);
    NoUnits();
    UnitSizes(ch);
    AllSnoc([], Char(ch));
    assert [] + [Char(ch)] == [Char(ch)];
    assert IsText([Char(ch)]) && AllChars([Char(ch)]) == s;
    Reads16Snoc(s, [], Char(ch));
    assert !PassesAt([Char(ch)], 0, room);
  }

  // Strict conversion takes all of a string exactly when it is well formed and nothing is blocked.
  lemma TakesAll16(s: seq<UniChar>, room: nat, us: seq<Unit>)
    requires Taken16(s, room, us)
    ensures IsText(us) && AllChars(us) <= s
    ensures AllChars(us) == s <==> WellFormed16(s) && PassesThrough(s, room)
  {
    hide First16, Blocked, Passes, AllChars, AllBytes, Reads16At, IsText;
    assert us[..|us|] == us;
    Text16(s, us, |us|);
    if AllChars(us) == s {
      forall vs | Reads16(s, vs) ensures Passes(vs, room) {
        ReadsNoMore(s, us, vs);
        PassesPrefix(us, room, |vs|);
      }
    } else if WellFormed16(s) && PassesThrough(s, room) {
      var vs :| IsText(vs) && AllChars(vs) == s;
      TakesText(s, room, us, vs);
    }
  }

  lemma TakesText(s: seq<UniChar>, room: nat, us: seq<Unit>, vs: seq<Unit>)
    requires Taken16(s, room, us) && IsText(vs) && AllChars(vs) == s && PassesThrough(s, room)
    ensures us == vs
  {
    hide First16, Blocked, Passes, AllChars, AllBytes, Reads16At, IsText;
    ReadsBack16(vs, []);
    assert s + [] == s;
    NoMore16(s, room, us, vs);
    ReadsNoMore(s, vs, us);
    assert vs[..|us|] == vs;
  }

  // Of well-formed text it is enough that none of its characters is blocked where it stands.
  lemma PassesAsText(us: seq<Unit>, room: nat)
    requires IsText(us)
    ensures PassesThrough(AllChars(us), room) <==> Passes(us, room)
  {
    hide First16, Passes, AllChars, AllBytes, Reads16At, IsText;
    ReadsBack16(us, []);
    assert AllChars(us) + [] == AllChars(us);
    if Passes(us, room) {
      forall vs | Reads16(AllChars(us), vs) ensures Passes(vs, room) {
        ReadsNoMore(AllChars(us), us, vs);
        PassesPrefix(us, room, |vs|);
      }
    }
  }

  // Whatever else can be read of a string that has been read to its end is part of that.
  lemma ReadsNoMore(s: seq<UniChar>, us: seq<Unit>, vs: seq<Unit>)
    requires Reads16(s, us) && Reads16(s, vs) && AllChars(us) == s
    ensures |vs| <= |us| && vs == us[..|vs|]
  {
    hide First16, AllChars, AllBytes, Reads16At;
    if |us| < |vs| {
      Reads16Once(s, us, vs, |us|);
      assert vs[..|us|] == us;
      Longer(vs, |us|);
    } else {
      Reads16Once(s, us, vs, |vs|);
      assert vs[..|vs|] == vs;
    }
  }

  lemma Complete8(b: seq<Byte>, us: seq<Unit>)
    requires Taken8(b, |b|, us)
    ensures First8(Rest8(b, us)).NoUnit? && !Overrun(b, |b|, us)
    ensures AllBytes(us) == b && IsText(us) <==> WellFormed8(b)
  {
    hide First8;
    Sizes(us);
    if First8(Rest8(b, us)).One? {
      var u := First8(Rest8(b, us)).unit;
      Reads8Snoc(b, us, u);
      AllSnoc(us, u);
      Sizes(us + [u]);
    } else if WellFormed8(b) {
      var vs :| IsText(vs) && AllBytes(vs) == b;
      ReadsAll8(vs, us);
    }
  }

  // Encoding consumes all of a string exactly when it is well formed and nothing in it is blocked by
  // the room; what it consumes, encoded and strictly decoded, is the same again, with nothing left.
  method EncodeThenDecode(s: seq<UniChar>, room: nat) returns (consumed: nat, bytes: seq<Byte>, again: seq<UniChar>)
    requires room > 0
    ensures consumed <= |s| && again == s[..consumed] && WellFormed8(bytes) && |bytes| <= room
    ensures consumed == |s| <==> WellFormed16(s) && PassesThrough(s, room)
    ensures 3 * |s| <= room < SizedInts.UINT32_LIMIT ==> (consumed == |s| <==> WellFormed16(s))
  {
    hide First16, First8, WellFormed8, WellFormed16, PassesThrough, Passes, Blocked;
    var used;
    consumed, bytes, used := ToUTF8(s, room);
    ghost var us :| Taken16(s, room, us) && Encoded(us, room, consumed, bytes, used);
    TakesAll16(s, room, us);
    PassesFits(us, room);
    if 3 * |s| <= room < SizedInts.UINT32_LIMIT { RoomEnough(s, room); }
    var all, n;
    all, again, n := FromUTF8(bytes, |bytes|);
    ghost var vs :| Taken8(bytes, |bytes|, vs) && Decoded(bytes, vs, |bytes|, all, again, n);
    Complete8(bytes, vs);
    TextBytes(us);
    ReadsAll8(us, vs);
    if bytes == [] { NothingDecoded(bytes, vs); }
  }

  lemma TextBytes(us: seq<Unit>)
    requires IsText(us)
    ensures WellFormed8(AllBytes(us))
  {
  }

  lemma NothingDecoded(b: seq<Byte>, us: seq<Unit>)
    requires Reads8(b, us) && b == []
    ensures AllBytes(us) == [] == AllChars(us)
  {
    Sizes(us);
  }

  // ---------- decoding first ----------

  function ReplacedUnit(u: Unit): Unit {
    if u.Stray? then Char(REPLACEMENT) else u
  }

  // What stray bytes are read as.
  function Replaced(us: seq<Unit>): (vs: seq<Unit>)
    ensures |vs| == |us| && IsText(vs)
  {
    if us == [] then []
    else Replaced(us[..|us| - 1]) + [ReplacedUnit(us[|us| - 1])]
  }

  function Strays(us: seq<Unit>): nat {
    if us == [] then 0 else Strays(us[..|us| - 1]) + if us[|us| - 1].Stray? then 1 else 0
  }

  // Every stray byte becomes a character of three bytes.
  lemma {:induction false} ReplacedSizes(us: seq<Unit>)
    ensures AllChars(Replaced(us)) == AllChars(us)
    ensures |AllBytes(Replaced(us))| == |AllBytes(us)| + 2 * Strays(us)
    ensures IsText(us) <==> Strays(us) == 0
    ensures IsText(us) ==> Replaced(us) == us
    decreases |us|
  {
    hide AllBytes, AllChars, Bytes, Chars;
    if us != [] {
      var us', u := us[..|us| - 1], us[|us| - 1];
      ReplacedSizes(us');
      assert us == us' + [u];
      AllSnoc(us', u);
      AllSnoc(Replaced(us'), ReplacedUnit(u));
      UnitSize(u);
    }
  }

  lemma UnitSize(u: Unit)
    ensures Chars(ReplacedUnit(u)) == Chars(u) && |Bytes(ReplacedUnit(u))| == |Bytes(u)| + if u.Stray? then 2 else 0
  {
  }

  // The units read, what they took, the characters they are read as, and whether these, encoded
  // again into the room given, are what was taken.
  ghost predicate TakenBack(b: seq<Byte>, us: seq<Unit>, consumed: nat, characters: seq<UniChar>, room: nat,
                            again: seq<Byte>) {
    && Taken8(b, |b|, us) && First8(Rest8(b, us)).NoUnit?
    && consumed <= |b| && AllBytes(us) == b[..consumed] && AllChars(us) == characters
    && (again == b[..consumed] <==> IsText(us) && PassesThrough(characters, room))
  }

  // What strict decoding took from any bytes, encoded again, is those bytes exactly when no stray
  // 0xA9 was among them and nothing is blocked; it is all the bytes exactly when they are also well
  // formed.
  method DecodeThenEncode(b: seq<Byte>, room: nat) returns (consumed: nat, characters: seq<UniChar>, again: seq<Byte>)
    requires room > 0
    ensures exists us :: TakenBack(b, us, consumed, characters, room, again)
    ensures WellFormed16(characters) && WellFormed8(again)
    ensures again == b <==> WellFormed8(b) && PassesThrough(characters, room)
    ensures 3 * |characters| <= room < SizedInts.UINT32_LIMIT ==> PassesThrough(characters, room)
  {
    hide First16, First8, WellFormed8, WellFormed16, Bytes, Chars, AllBytes, AllChars, Reads8, Reads16, IsText,
      PassesThrough, Passes, Blocked;
    var used, all, n;
    consumed, characters, used := FromUTF8(b, |b|);
    ghost var us :| Taken8(b, |b|, us) && Decoded(b, us, |b|, consumed, characters, used);
    Complete8(b, us);
    if b == [] { NothingDecoded(b, us); }
    all, again, n := ToUTF8(characters, room);
    ghost var vs :| Taken16(characters, room, vs) && Encoded(vs, room, all, again, n);
    TakenPrefix(b, us);
    if 3 * |characters| <= room < SizedInts.UINT32_LIMIT { RoomEnough(characters, room); }
    TakenAgain(us, characters, room, vs);
    TextBytes(vs);
    WholeAgain(b, us, again, vs);
    assert TakenBack(b, us, consumed, characters, room, again);
  }

  // Units and those that were taken of their characters are the same when none is a stray byte and
  // nothing was blocked.
  lemma TakenAgain(us: seq<Unit>, characters: seq<UniChar>, room: nat, vs: seq<Unit>)
    requires characters == AllChars(us) && Taken16(characters, room, vs)
    ensures WellFormed16(characters) && IsText(vs)
    ensures AllBytes(vs) == AllBytes(us) <==> IsText(us) && PassesThrough(characters, room)
  {
    hide First16, First8, Bytes, Chars, AllBytes, Reads8, PassesThrough, Passes, Blocked, IsText;
    ReplacedSizes(us);
    TextChars(Replaced(us));
    TakesAll16(characters, room, vs);
    SameBytes(us, vs);
    if AllChars(vs) == characters {
      ReadsEnd(characters, vs);
      ReadsAll16(Replaced(us), vs);
    }
  }

  lemma ReadsEnd(s: seq<UniChar>, us: seq<Unit>)
    requires Reads16(s, us) && AllChars(us) == s
    ensures First16(Rest16(s, us)).NoUnit?
  {
  }

  // Units that take the same bytes are the same.
  lemma SameBytes(us: seq<Unit>, vs: seq<Unit>)
    ensures AllBytes(us) == AllBytes(vs) <==> us == vs
  {
    hide Bytes, First8;
    if AllBytes(us) == AllBytes(vs) {
      ReadsBack8(vs, []);
      assert AllBytes(vs) + [] == AllBytes(vs);
      EndsThere(AllBytes(vs), vs);
      ReadsAll8(us, vs);
    }
  }

  lemma EndsThere(b: seq<Byte>, us: seq<Unit>)
    requires Reads8(b, us) && AllBytes(us) == b
    ensures First8(Rest8(b, us)).NoUnit?
  {
  }

  lemma WholeAgain(b: seq<Byte>, us: seq<Unit>, again: seq<Byte>, vs: seq<Unit>)
    requires Reads8(b, us) && (AllBytes(us) == b && IsText(us) <==> WellFormed8(b))
    requires again == AllBytes(vs) && IsText(vs)
    ensures again == b ==> WellFormed8(b) && AllBytes(us) == again
    ensures WellFormed8(b) ==> AllBytes(us) == b && IsText(us)
  {
  }

  lemma TakenPrefix(b: seq<Byte>, us: seq<Unit>)
    requires Reads8(b, us)
    ensures |AllBytes(us)| <= |b| && b[..|AllBytes(us)|] == AllBytes(us)
  {
  }

  lemma TextChars(us: seq<Unit>)
    requires IsText(us)
    ensures WellFormed16(AllChars(us))
  {
  }

  // ---------- lengths ----------

  // The length in UTF-8 when surrogates alone are counted too, three bytes each.
  ghost function LooseLength(s: seq<UniChar>): nat
    decreases |s|
  {
    if s == [] then 0
    else if First16(s).One? then
      First16Chars(s);
      |Bytes(First16(s).unit)| + LooseLength(s[|Chars(First16(s).unit)|..])
    else 3 + LooseLength(s[1..])
  }

  lemma WrappedNone()
    ensures Wrapped(0) == 0
  {
  }

  lemma WrappedExact(n: nat)
    ensures Wrapped(n) < SizedInts.UINT32_LIMIT && (Wrapped(n) == n <==> n < SizedInts.UINT32_LIMIT)
  {
  }

  lemma WrappedSum(a: nat, b: nat)
    ensures Wrapped(Wrapped(a) + b) == Wrapped(a + b)
  {
  }

  // Adds up in 32 bits.
  method ToUTF8Len(characters: seq<UniChar>) returns (bytesToWrite: nat)
    ensures bytesToWrite == Wrapped(LooseLength(characters))
  {
    hide LooseLength, Wrapped, First16, Utf8, Utf16, Bytes, Chars, Pair;
    bytesToWrite := 0;
    WrappedNone();
    var idx := 0;
    ghost var total: nat := 0;
    while idx < |characters|
      invariant idx <= |characters| && total + LooseLength(characters[idx..]) == LooseLength(characters)
      invariant bytesToWrite == Wrapped(total)
    {
      ghost var rest := characters[idx..];
      First16Is(rest);
      LooseStep(rest);
      var ch: nat := characters[idx];
      idx := idx + 1;
      if 0xD800 <= ch <= 0xDBFF && idx < |characters| && 0xDC00 <= characters[idx] <= 0xDFFF {
        ch := (ch - 0xD800) * 0x400 + (characters[idx] - 0xDC00) + 0x10000;
        PairIs(rest, ch);
        idx := idx + 1;
      }
      if IsScalar(ch) {
        UnitSizes(ch);
      }
      WrappedSum(total, BytesToWrite(ch));
      bytesToWrite := Wrapped(bytesToWrite + BytesToWrite(ch));
      total := total + BytesToWrite(ch);
    }
    LooseNone();
    assert characters[idx..] == [];
  }

  lemma LooseNone()
    ensures LooseLength([]) == 0
  {
  }

  lemma LooseStep(s: seq<UniChar>)
    requires s != []
    ensures First16(s).One? ==>
      && |Chars(First16(s).unit)| <= |s|
      && LooseLength(s) == |Bytes(First16(s).unit)| + LooseLength(s[|Chars(First16(s).unit)|..])
    ensures First16(s).NoUnit? ==> LooseLength(s) == 3 + LooseLength(s[1..])
  {
    if First16(s).One? {
      First16Chars(s);
    }
  }

  lemma {:induction false} LooseRead(s: seq<UniChar>, us: seq<Unit>, n: nat)
    requires Reads16(s, us) && n <= |us|
    ensures |AllChars(us[..n])| <= |s|
    ensures LooseLength(s) == |AllBytes(us[..n])| + LooseLength(s[|AllChars(us[..n])|..])
  {
    hide First16, AllBytes, AllChars, Bytes, Chars;
    if n == 0 {
      NoUnits();
      assert us[..0] == [] && s[0..] == s;
    } else {
      LooseRead(s, us, n - 1);
      assert us[..n] == us[..n - 1] + [us[n - 1]];
      AllSnoc(us[..n - 1], us[n - 1]);
      assert Reads16At(s, us, n - 1);
      var at := |AllChars(us[..n - 1])|;
      First16Chars(s[at..]);
      SomeChars(us[n - 1]);
      LooseStep(s[at..]);
      assert s[at..][|Chars(us[n - 1])|..] == s[at + |Chars(us[n - 1])|..];
    }
  }

  lemma NoUnits()
    ensures AllBytes([]) == [] && AllChars([]) == []
  {
  }

  lemma SomeChars(u: Unit)
    ensures |Chars(u)| > 0
  {
  }

  lemma {:induction false} LooseBound(s: seq<UniChar>)
    ensures LooseLength(s) <= 3 * |s|
    decreases |s|
  {
    hide First16, Bytes, Chars;
    if s == [] {
      LooseNone();
    } else {
      LooseStep(s);
      if First16(s).One? {
        First16Chars(s);
        BytesPerChar(First16(s).unit);
        LooseBound(s[|Chars(First16(s).unit)|..]);
      } else {
        LooseBound(s[1..]);
      }
    }
  }

  lemma BytesPerChar(u: Unit)
    ensures 0 < |Chars(u)| && |Bytes(u)| <= 3 * |Chars(u)|
  {
  }

  // The unbounded length is what conversion needs exactly when the string is well formed, and never
  // too small.
  lemma LooseExact(s: seq<UniChar>, us: seq<Unit>)
    requires Taken16(s, 0, us)
    ensures |AllBytes(us)| <= LooseLength(s)
    ensures LooseLength(s) == |AllBytes(us)| <==> AllChars(us) == s
  {
    LooseRead(s, us, |us|);
    assert us[..|us|] == us;
    if AllChars(us) != s {
      LooseStep(Rest16(s, us));
    }
  }

  // The length as measured in 32 bits.  Strings of up to a third of 2^32 characters cannot reach
  // that, and for them it is never too small, and exact exactly when they are well formed.  For
  // well-formed strings of any length it is exact as long as their bytes can be counted in 32 bits,
  // and too small as soon as they cannot.
  lemma LengthExact(s: seq<UniChar>, us: seq<Unit>)
    requires Taken16(s, 0, us)
    ensures var measured, needed := Wrapped(LooseLength(s)), |AllBytes(us)|;
      && (3 * |s| < SizedInts.UINT32_LIMIT || LooseLength(s) < SizedInts.UINT32_LIMIT ==>
            needed <= measured && (measured == needed <==> AllChars(us) == s))
      && (AllChars(us) == s ==>
            && (measured == needed <==> needed < SizedInts.UINT32_LIMIT)
            && (measured < needed <==> SizedInts.UINT32_LIMIT <= needed))
  {
    hide LooseLength, AllBytes, AllChars, Taken16, Wrapped;
    LooseBound(s);
    LooseExact(s, us);
    WrappedExact(LooseLength(s));
  }

  // ---------- buffers that are too small ----------

  // What is consumed is what the characters given came from, unless a character of four bytes
  // met room for one of its halves.
  lemma ConsumedExact(b: seq<Byte>, room: nat, us: seq<Unit>, consumed: nat)
    requires Taken8(b, room, us) && consumed == |AllBytes(us)| + if Overrun(b, room, us) then 4 else 0
    ensures consumed <= |b|
    ensures consumed == |AllBytes(us)| <==> !Overrun(b, room, us)
  {
    if Overrun(b, room, us) {
      FirstBytes(Rest8(b, us));
    }
  }

  // The character U+10000, and room for one.
  lemma OverrunHappens()
    ensures Taken8([0xF0, 0x90, 0x80, 0x80], 1, []) && Overrun([0xF0, 0x90, 0x80, 0x80], 1, [])
  {
    var b: seq<Byte> := [0xF0, 0x90, 0x80, 0x80];
    Starts4(b, 0x10000);
    FirstChar(b, 0x10000);
    Reads8None(b);
  }
}
