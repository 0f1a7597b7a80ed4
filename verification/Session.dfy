/** Session tokens: unpadded base64url (section 5 of RFC 4648), decimal expiries, and a signature over the
    first three dot-separated fields. The keyed hash (section 2 of RFC 2104) is any function of the
    secret and the payload. */
module Session {
  import opened Options
  import opened Digits
  import B = Bytes

  type Byte = B.Byte
  type Bytes = seq<Byte>

  // ---------- base64url ----------

  function Symbol(v: int): (c: char)
    requires 0 <= v < 64
    ensures c != '.' && c != '\n' && c != '\r' && ValueOf(c) == Some(v)
  {
    if v < 26 then ('A' as int + v) as char
    else if v < 52 then ('a' as int + v - 26) as char
    else if v < 62 then ('0' as int + v - 52) as char
    else if v == 62 then '-'
    else '_'
  }

  function ValueOf(c: char): (r: Option<int>)
    ensures r.Some? ==> 0 <= r.value < 64
  {
    if 'A' <= c <= 'Z' then Some(c as int - 'A' as int)
    else if 'a' <= c <= 'z' then Some(c as int - 'a' as int + 26)
    else if '0' <= c <= '9' then Some(c as int - '0' as int + 52)
    else if c == '-' then Some(62)
    else if c == '_' then Some(63)
    else None
  }

  function Encode(bs: Bytes): string
    decreases |bs|
  {
    if |bs| == 0 then ""
    else if |bs| == 1 then [Symbol(bs[0] / 4), Symbol(bs[0] % 4 * 16)]
    else if |bs| == 2 then
      [Symbol(bs[0] / 4), Symbol(bs[0] % 4 * 16 + bs[1] / 16), Symbol(bs[1] % 16 * 4)]
    else
      [Symbol(bs[0] / 4), Symbol(bs[0] % 4 * 16 + bs[1] / 16), Symbol(bs[1] % 16 * 4 + bs[2] / 64), Symbol(bs[2] % 64)]
      + Encode(bs[3..])
  }

  function StripLineBreaks(s: string): string {
    if s == [] then []
    else (if s[0] == '\n' || s[0] == '\r' then [] else [s[0]]) + StripLineBreaks(s[1..])
  }

  /** Groups of four symbols; a final group of two or three gives one or two bytes, and its spare low
      bits are ignored; a final single symbol is an error. */
  function DecodeSymbols(s: string): Option<Bytes>
    decreases |s|
  {
    if |s| == 0 then Some([])
    else if |s| == 1 then None
    else
      var v0, v1 := ValueOf(s[0]), ValueOf(s[1]);
      if v0.None? || v1.None? then None
      else
        var b0: Byte := v0.value * 4 + v1.value / 16;
        if |s| == 2 then Some([b0])
        else
          var v2 := ValueOf(s[2]);
          if v2.None? then None
          else
            var b1: Byte := v1.value % 16 * 16 + v2.value / 4;
            if |s| == 3 then Some([b0, b1])
            else
              var v3 := ValueOf(s[3]);
              var rest := DecodeSymbols(s[4..]);
              if v3.None? || rest.None? then None
              else Some([b0, b1, v2.value % 4 * 64 + v3.value] + rest.value)
  }

  /** The library decoder skips line breaks wherever they occur. */
  function Decode(s: string): Option<Bytes> {
    DecodeSymbols(StripLineBreaks(s))
  }

  ghost predicate NoDot(s: string) {
    forall i :: 0 <= i < |s| ==> s[i] != '.'
  }

  ghost predicate NoBreak(s: string) {
    forall i :: 0 <= i < |s| ==> s[i] != '\n' && s[i] != '\r'
  }

  lemma {:induction false} EncodedIsClean(bs: Bytes)
    ensures NoDot(Encode(bs)) && NoBreak(Encode(bs))
    decreases |bs|
  {
    if |bs| >= 3 {
      EncodedIsClean(bs[3..]);
    }
  }

  lemma {:induction false} StripNothing(s: string)
    requires NoBreak(s)
    ensures StripLineBreaks(s) == s
    decreases |s|
  {
    if s != [] {
      StripNothing(s[1..]);
    }
  }

  lemma GroupRoundTrip(b0: Byte, b1: Byte, b2: Byte, rest: string)
    requires DecodeSymbols(rest).Some?
    ensures DecodeSymbols([Symbol(b0 / 4), Symbol(b0 % 4 * 16 + b1 / 16), Symbol(b1 % 16 * 4 + b2 / 64), Symbol(b2 % 64)] + rest)
         == Some([b0, b1, b2] + DecodeSymbols(rest).value)
  {
    var s := [Symbol(b0 / 4), Symbol(b0 % 4 * 16 + b1 / 16), Symbol(b1 % 16 * 4 + b2 / 64), Symbol(b2 % 64)] + rest;
    assert s[4..] == rest;
    assert (b0 % 4 * 16 + b1 / 16) / 16 == b0 % 4 && (b0 % 4 * 16 + b1 / 16) % 16 == b1 / 16;
    assert (b1 % 16 * 4 + b2 / 64) / 4 == b1 % 16 && (b1 % 16 * 4 + b2 / 64) % 4 == b2 / 64;
  }

  lemma TailRoundTrip(b0: Byte, b1: Byte)
    ensures DecodeSymbols([Symbol(b0 / 4), Symbol(b0 % 4 * 16)]) == Some([b0])
    ensures DecodeSymbols([Symbol(b0 / 4), Symbol(b0 % 4 * 16 + b1 / 16), Symbol(b1 % 16 * 4)]) == Some([b0, b1])
  {
    assert (b0 % 4 * 16) / 16 == b0 % 4;
    assert (b0 % 4 * 16 + b1 / 16) / 16 == b0 % 4 && (b0 % 4 * 16 + b1 / 16) % 16 == b1 / 16;
    assert (b1 % 16 * 4) / 4 == b1 % 16;
  }

  lemma EncodedGroup(b0: Byte, b1: Byte, b2: Byte, rest: Bytes)
    ensures Encode([b0, b1, b2] + rest)
         == [Symbol(b0 / 4), Symbol(b0 % 4 * 16 + b1 / 16), Symbol(b1 % 16 * 4 + b2 / 64), Symbol(b2 % 64)] + Encode(rest)
  {
    assert ([b0, b1, b2] + rest)[3..] == rest;
  }

  lemma GroupsRoundTrip(b0: Byte, b1: Byte, b2: Byte, rest: Bytes)
    requires DecodeSymbols(Encode(rest)) == Some(rest)
    ensures DecodeSymbols(Encode([b0, b1, b2] + rest)) == Some([b0, b1, b2] + rest)
  {
    EncodedGroup(b0, b1, b2, rest);
    GroupRoundTrip(b0, b1, b2, Encode(rest));
  }

  lemma OneRoundTrip(b0: Byte)
    ensures DecodeSymbols(Encode([b0])) == Some([b0])
  {
    assert Encode([b0]) == [Symbol(b0 / 4), Symbol(b0 % 4 * 16)];
    TailRoundTrip(b0, 0);
  }

  lemma TwoRoundTrip(b0: Byte, b1: Byte)
    ensures DecodeSymbols(Encode([b0, b1])) == Some([b0, b1])
  {
    assert Encode([b0, b1]) == [Symbol(b0 / 4), Symbol(b0 % 4 * 16 + b1 / 16), Symbol(b1 % 16 * 4)];
    TailRoundTrip(b0, b1);
  }

  lemma Unpacked(bs: Bytes)
    ensures |bs| == 1 ==> bs == [bs[0]]
    ensures |bs| == 2 ==> bs == [bs[0], bs[1]]
    ensures |bs| >= 3 ==> bs == [bs[0], bs[1], bs[2]] + bs[3..]
  {}

  lemma {:induction false} SymbolsRoundTrip(bs: Bytes)
    ensures DecodeSymbols(Encode(bs)) == Some(bs)
    decreases |bs|
  {
    Unpacked(bs);
    if |bs| >= 3 {
      SymbolsRoundTrip(bs[3..]);
      GroupsRoundTrip(bs[0], bs[1], bs[2], bs[3..]);
    } else if |bs| == 2 {
      TwoRoundTrip(bs[0], bs[1]);
    } else if |bs| == 1 {
      OneRoundTrip(bs[0]);
    }
  }

  /** Decoding undoes encoding, for every byte string. */
  lemma Base64RoundTrip(bs: Bytes)
    ensures Decode(Encode(bs)) == Some(bs)
  {
    EncodedIsClean(bs);
    StripNothing(Encode(bs));
    SymbolsRoundTrip(bs);
  }

  /** Decoding is not injective on its own: spare low bits and line breaks are ignored. */
  lemma DecodeIsMalleable()
    ensures Decode("YQ") == Some(['a' as int]) && Decode("YR") == Some(['a' as int]) && Decode("\nYQ") == Some(['a' as int])
  {
    StripNothing("YQ");
    StripNothing("YR");
    assert "\nYQ"[1..] == "YQ";
  }

  lemma SymbolOfValue(c: char)
    requires ValueOf(c).Some?
    ensures Symbol(ValueOf(c).value) == c
  {}

  /** The low bits that a final group of two or three symbols leaves over are zero. */
  predicate SpareBitsZero(s: string) {
    var n := |s| % 4;
    n < 2 || match ValueOf(s[|s| - 1])
             case None => false
             case Some(v) => v % (if n == 2 then 16 else 4) == 0
  }

  /** The three bytes of a whole group hold all its bits. */
  lemma GroupOfBytes(v0: int, v1: int, v2: int, v3: int)
    requires 0 <= v0 < 64 && 0 <= v1 < 64 && 0 <= v2 < 64 && 0 <= v3 < 64
    ensures var b0, b1, b2 := v0 * 4 + v1 / 16, v1 % 16 * 16 + v2 / 4, v2 % 4 * 64 + v3;
            b0 / 4 == v0 && b0 % 4 * 16 + b1 / 16 == v1 && b1 % 16 * 4 + b2 / 64 == v2 && b2 % 64 == v3
  {}

  lemma TailOfBytes(v0: int, v1: int, v2: int)
    requires 0 <= v0 < 64 && 0 <= v1 < 64 && 0 <= v2 < 64
    ensures var b0, b1 := v0 * 4 + v1 / 16, v1 % 16 * 16 + v2 / 4;
            && b0 / 4 == v0 && b0 % 4 * 16 + b1 / 16 == v1
            && (b0 % 4 * 16 == v1 <==> v1 % 16 == 0) && (b1 % 16 * 4 == v2 <==> v2 % 4 == 0)
  {}

  lemma SameSymbolIff(v: int, w: int)
    requires 0 <= v < 64 && 0 <= w < 64
    ensures Symbol(v) == Symbol(w) <==> v == w
  {}

  lemma TwoSymbolsIff(c0: char, c1: char)
    requires DecodeSymbols([c0, c1]).Some?
    ensures Encode(DecodeSymbols([c0, c1]).value) == [c0, c1] <==> ValueOf(c1).value % 16 == 0
  {
    var v0, v1 := ValueOf(c0).value, ValueOf(c1).value;
    TailOfBytes(v0, v1, 0);
    SymbolOfValue(c0);
    SymbolOfValue(c1);
    SameSymbolIff((v0 * 4 + v1 / 16) % 4 * 16, v1);
    assert DecodeSymbols([c0, c1]) == Some([v0 * 4 + v1 / 16]);
    assert Encode([v0 * 4 + v1 / 16]) == [c0, Symbol((v0 * 4 + v1 / 16) % 4 * 16)];
  }

  lemma ThreeValues(c0: char, c1: char, c2: char)
    requires DecodeSymbols([c0, c1, c2]).Some?
    ensures ValueOf(c0).Some? && ValueOf(c1).Some? && ValueOf(c2).Some?
    ensures var v0, v1, v2 := ValueOf(c0).value, ValueOf(c1).value, ValueOf(c2).value;
            DecodeSymbols([c0, c1, c2]) == Some([v0 * 4 + v1 / 16, v1 % 16 * 16 + v2 / 4])
  {}

  /** The symbols that two bytes with these values are encoded to. */
  lemma TailSymbols(v0: int, v1: int, v2: int)
    requires 0 <= v0 < 64 && 0 <= v1 < 64 && 0 <= v2 < 64
    ensures var b0, b1 := v0 * 4 + v1 / 16, v1 % 16 * 16 + v2 / 4;
            && Symbol(b0 / 4) == Symbol(v0) && Symbol(b0 % 4 * 16 + b1 / 16) == Symbol(v1)
            && (Symbol(b1 % 16 * 4) == Symbol(v2) <==> v2 % 4 == 0)
  {
    TailOfBytes(v0, v1, v2);
    SameSymbolIff((v1 % 16 * 16 + v2 / 4) % 16 * 4, v2);
  }

  lemma DecodedThree(c0: char, c1: char, c2: char) returns (b0: Byte, b1: Byte)
    requires DecodeSymbols([c0, c1, c2]).Some?
    ensures DecodeSymbols([c0, c1, c2]) == Some([b0, b1])
    ensures Symbol(b0 / 4) == c0 && Symbol(b0 % 4 * 16 + b1 / 16) == c1
    ensures Symbol(b1 % 16 * 4) == c2 <==> ValueOf(c2).value % 4 == 0
  {
    var v0, v1, v2 := ValueOf(c0).value, ValueOf(c1).value, ValueOf(c2).value;
    b0, b1 := v0 * 4 + v1 / 16, v1 % 16 * 16 + v2 / 4;
    ThreeValues(c0, c1, c2);
    TailSymbols(v0, v1, v2);
    SymbolOfValue(c0);
    SymbolOfValue(c1);
    SymbolOfValue(c2);
  }

  lemma ThreeSymbolsIff(c0: char, c1: char, c2: char)
    requires DecodeSymbols([c0, c1, c2]).Some?
    ensures Encode(DecodeSymbols([c0, c1, c2]).value) == [c0, c1, c2] <==> ValueOf(c2).value % 4 == 0
  {
    var b0, b1 := DecodedThree(c0, c1, c2);
    assert Encode([b0, b1]) == [c0, c1, Symbol(b1 % 16 * 4)];
  }

  /** A whole group gives three bytes that hold all its bits. */
  lemma DecodedGroup(c0: char, c1: char, c2: char, c3: char, rest: string) returns (b0: Byte, b1: Byte, b2: Byte)
    requires DecodeSymbols([c0, c1, c2, c3] + rest).Some?
    ensures DecodeSymbols(rest).Some?
    ensures DecodeSymbols([c0, c1, c2, c3] + rest).value == [b0, b1, b2] + DecodeSymbols(rest).value
    ensures Symbol(b0 / 4) == c0 && Symbol(b0 % 4 * 16 + b1 / 16) == c1
    ensures Symbol(b1 % 16 * 4 + b2 / 64) == c2 && Symbol(b2 % 64) == c3
  {
    assert ([c0, c1, c2, c3] + rest)[4..] == rest;
    var v0, v1, v2, v3 := ValueOf(c0).value, ValueOf(c1).value, ValueOf(c2).value, ValueOf(c3).value;
    b0, b1, b2 := v0 * 4 + v1 / 16, v1 % 16 * 16 + v2 / 4, v2 % 4 * 64 + v3;
    GroupOfBytes(v0, v1, v2, v3);
    SymbolOfValue(c0);
    SymbolOfValue(c1);
    SymbolOfValue(c2);
    SymbolOfValue(c3);
  }

  /** A whole group is encoded back as it was. */
  lemma GroupIsCanonical(c0: char, c1: char, c2: char, c3: char, rest: string)
    requires DecodeSymbols([c0, c1, c2, c3] + rest).Some?
    ensures DecodeSymbols(rest).Some?
    ensures Encode(DecodeSymbols([c0, c1, c2, c3] + rest).value) == [c0, c1, c2, c3] + Encode(DecodeSymbols(rest).value)
  {
    var b0, b1, b2 := DecodedGroup(c0, c1, c2, c3, rest);
    EncodedGroup(b0, b1, b2, DecodeSymbols(rest).value);
  }

  lemma SamePrefix(a: string, x: string, y: string)
    ensures a + x == a + y <==> x == y
  {
    if a + x == a + y {
      assert x == (a + x)[|a|..] && y == (a + y)[|a|..];
    }
  }

  lemma SpareBitsOfTail(a: string, rest: string)
    requires |a| == 4
    ensures SpareBitsZero(a + rest) <==> SpareBitsZero(rest)
  {}

  lemma {:induction false} SymbolsAreCanonicalIff(s: string)
    requires DecodeSymbols(s).Some?
    ensures Encode(DecodeSymbols(s).value) == s <==> SpareBitsZero(s)
    decreases |s|
  {
    if |s| < 4 {
      if |s| == 2 {
        assert s == [s[0], s[1]];
        TwoSymbolsIff(s[0], s[1]);
      } else if |s| == 3 {
        assert s == [s[0], s[1], s[2]];
        ThreeSymbolsIff(s[0], s[1], s[2]);
      }
    } else {
      var group, rest := [s[0], s[1], s[2], s[3]], s[4..];
      assert s == group + rest;
      GroupIsCanonical(s[0], s[1], s[2], s[3], rest);
      SymbolsAreCanonicalIff(rest);
      SpareBitsOfTail(group, rest);
      SamePrefix(group, Encode(DecodeSymbols(rest).value), rest);
    }
  }

  /** A text that decodes is the encoding of what it decodes to exactly when it holds no line break and
      its spare low bits are zero. */
  lemma CanonicalIff(s: string)
    requires Decode(s).Some?
    ensures Encode(Decode(s).value) == s <==> NoBreak(s) && SpareBitsZero(s)
  {
    EncodedIsClean(Decode(s).value);
    if NoBreak(s) {
      StripNothing(s);
      SymbolsAreCanonicalIff(s);
    }
  }

  // ---------- What encoding yields ----------

  const UPPER := "ABCDEFGHIJKLMNOPQRSTUVWXYZ"
  const LOWER := "abcdefghijklmnopqrstuvwxyz"
  const ALPHABET := UPPER + LOWER + "0123456789-_"

  lemma UpperIs(v: int)
    requires 0 <= v < 26
    ensures |UPPER| == |LOWER| == 26 && UPPER[v] == Symbol(v) && LOWER[v] == Symbol(v + 26)
  {}

  lemma TailIs(v: int)
    requires 52 <= v < 64
    ensures |"0123456789-_"| == 12 && "0123456789-_"[v - 52] == Symbol(v)
  {}

  /** The alphabet of section 5 of RFC 4648. */
  lemma SymbolIs(v: int)
    requires 0 <= v < 64
    ensures |ALPHABET| == 64 && Symbol(v) == ALPHABET[v]
  {
    UpperIs(0);
    TailIs(52);
    if v < 26 {
      UpperIs(v);
    } else if v < 52 {
      UpperIs(v - 26);
    } else {
      TailIs(v);
    }
  }

  /** Of the bits of a byte, the highest first. */
  function Weight(j: nat): (w: nat)
    requires j < 8
    ensures w > 0
  {
    match j
    case 0 => 128
    case 1 => 64
    case 2 => 32
    case 3 => 16
    case 4 => 8
    case 5 => 4
    case 6 => 2
    case _ => 1
  }

  /** Bit `k` of the bytes, the highest bit of each first, and zero past their end. */
  function Bit(bs: Bytes, k: nat): int
    decreases |bs|
  {
    if bs == [] then 0
    else if k < 8 then bs[0] / Weight(k) % 2
    else Bit(bs[1..], k - 8)
  }

  /** The six bits from bit `k` on. */
  function SixBits(bs: Bytes, k: nat): int {
    32 * Bit(bs, k) + 16 * Bit(bs, k + 1) + 8 * Bit(bs, k + 2) + 4 * Bit(bs, k + 3) + 2 * Bit(bs, k + 4) + Bit(bs, k + 5)
  }

  lemma Halves(b: Byte)
    ensures b / 64 == 2 * (b / 128) + b / 64 % 2 && b / 128 == b / 128 % 2
    ensures b / 32 == 2 * (b / 64) + b / 32 % 2
    ensures b / 16 == 2 * (b / 32) + b / 16 % 2
    ensures b / 8 == 2 * (b / 16) + b / 8 % 2
    ensures b / 4 == 2 * (b / 8) + b / 4 % 2
    ensures b / 2 == 2 * (b / 4) + b / 2 % 2
    ensures b == 2 * (b / 2) + b % 2
  {}

  lemma ByteBits(b: Byte)
    ensures b / 4 == 32 * (b / 128 % 2) + 16 * (b / 64 % 2) + 8 * (b / 32 % 2) + 4 * (b / 16 % 2) + 2 * (b / 8 % 2) + b / 4 % 2
    ensures b % 4 == 2 * (b / 2 % 2) + b % 2
    ensures b / 16 == 8 * (b / 128 % 2) + 4 * (b / 64 % 2) + 2 * (b / 32 % 2) + b / 16 % 2
    ensures b % 16 == 8 * (b / 8 % 2) + 4 * (b / 4 % 2) + 2 * (b / 2 % 2) + b % 2
    ensures b / 64 == 2 * (b / 128 % 2) + b / 64 % 2
    ensures b % 64 == 32 * (b / 32 % 2) + 16 * (b / 16 % 2) + 8 * (b / 8 % 2) + 4 * (b / 4 % 2) + 2 * (b / 2 % 2) + b % 2
  {
    Halves(b);
  }

  /** The value of a byte, or zero past the end. */
  function At(bs: Bytes, n: nat): Byte {
    if n < |bs| then bs[n] else 0
  }

  /** The bits of the first byte, and of the bytes after it. */
  lemma FirstByte(bs: Bytes)
    ensures var b := At(bs, 0);
            && Bit(bs, 0) == b / 128 % 2 && Bit(bs, 1) == b / 64 % 2 && Bit(bs, 2) == b / 32 % 2
            && Bit(bs, 3) == b / 16 % 2 && Bit(bs, 4) == b / 8 % 2 && Bit(bs, 5) == b / 4 % 2
            && Bit(bs, 6) == b / 2 % 2 && Bit(bs, 7) == b % 2
  {}

  function Rest(bs: Bytes): Bytes {
    if bs == [] then [] else bs[1..]
  }

  lemma LaterBit(bs: Bytes, k: nat)
    requires k >= 8
    ensures Bit(bs, k) == Bit(Rest(bs), k - 8)
  {}

  /** The parts of the first byte that go into one symbol or the next. */
  lemma ByteParts(bs: Bytes)
    ensures At(bs, 0) / 4 == SixBits(bs, 0)
    ensures At(bs, 0) % 4 == 2 * Bit(bs, 6) + Bit(bs, 7)
    ensures At(bs, 0) / 16 == 8 * Bit(bs, 0) + 4 * Bit(bs, 1) + 2 * Bit(bs, 2) + Bit(bs, 3)
    ensures At(bs, 0) % 16 == 8 * Bit(bs, 4) + 4 * Bit(bs, 5) + 2 * Bit(bs, 6) + Bit(bs, 7)
    ensures At(bs, 0) / 64 == 2 * Bit(bs, 0) + Bit(bs, 1)
    ensures At(bs, 0) % 64 == SixBits(bs, 2)
  {
    ByteBits(At(bs, 0));
    FirstByte(bs);
  }

  lemma SecondByte(bs: Bytes)
    ensures At(bs, 1) / 16 == 8 * Bit(bs, 8) + 4 * Bit(bs, 9) + 2 * Bit(bs, 10) + Bit(bs, 11)
    ensures At(bs, 1) % 16 == 8 * Bit(bs, 12) + 4 * Bit(bs, 13) + 2 * Bit(bs, 14) + Bit(bs, 15)
  {
    ByteParts(Rest(bs));
    assert At(bs, 1) == At(Rest(bs), 0);
    forall k: nat | 8 <= k < 16 ensures Bit(bs, k) == Bit(Rest(bs), k - 8) {
      LaterBit(bs, k);
    }
  }

  lemma ThirdByte(bs: Bytes)
    ensures At(bs, 2) / 64 == 2 * Bit(bs, 16) + Bit(bs, 17)
    ensures At(bs, 2) % 64 == SixBits(bs, 18)
  {
    ByteParts(Rest(Rest(bs)));
    assert At(bs, 2) == At(Rest(Rest(bs)), 0);
    forall k: nat | 16 <= k < 24 ensures Bit(bs, k) == Bit(Rest(Rest(bs)), k - 16) {
      LaterBit(bs, k);
      LaterBit(Rest(bs), k - 8);
    }
  }

  lemma FirstBits(bs: Bytes)
    ensures SixBits(bs, 0) == At(bs, 0) / 4
    ensures SixBits(bs, 6) == At(bs, 0) % 4 * 16 + At(bs, 1) / 16
    ensures SixBits(bs, 12) == At(bs, 1) % 16 * 4 + At(bs, 2) / 64
    ensures SixBits(bs, 18) == At(bs, 2) % 64
  {
    ByteParts(bs);
    SecondByte(bs);
    ThirdByte(bs);
  }

  lemma BitsShift(bs: Bytes, k: nat)
    requires |bs| >= 3 && k >= 24
    ensures Bit(bs, k) == Bit(bs[3..], k - 24)
  {
    assert bs[1..][1..][1..] == bs[3..];
    LaterBit(bs, k);
    LaterBit(bs[1..], k - 8);
    LaterBit(bs[1..][1..], k - 16);
  }

  lemma SixShift(bs: Bytes, k: nat)
    requires |bs| >= 3 && k >= 24
    ensures SixBits(bs, k) == SixBits(bs[3..], k - 24)
  {
    BitsShift(bs, k);
    BitsShift(bs, k + 1);
    BitsShift(bs, k + 2);
    BitsShift(bs, k + 3);
    BitsShift(bs, k + 4);
    BitsShift(bs, k + 5);
  }

  /** Symbol `i` of the encoding is the one for the bits from `6 * i` on. */
  ghost predicate Packs(bs: Bytes, i: nat) {
    && i < |Encode(bs)|
    && 0 <= SixBits(bs, 6 * i) < 64 && Encode(bs)[i] == Symbol(SixBits(bs, 6 * i))
  }

  /** What the first group of bytes, whole or not, is encoded to. */
  lemma FirstSymbols(bs: Bytes)
    requires bs != []
    ensures |Encode(bs)| >= 2
    ensures Encode(bs)[0] == Symbol(At(bs, 0) / 4) && Encode(bs)[1] == Symbol(At(bs, 0) % 4 * 16 + At(bs, 1) / 16)
  {}

  lemma LaterSymbols(bs: Bytes)
    requires |bs| > 1
    ensures |Encode(bs)| >= 3
    ensures Encode(bs)[2] == Symbol(At(bs, 1) % 16 * 4 + At(bs, 2) / 64)
    ensures |bs| > 2 ==> |Encode(bs)| > 3 && Encode(bs)[3] == Symbol(At(bs, 2) % 64)
  {}

  lemma PacksAs(bs: Bytes, i: nat, k: nat, v: int)
    requires k == 6 * i && 0 <= v < 64 && i < |Encode(bs)| && Encode(bs)[i] == Symbol(v) && SixBits(bs, k) == v
    ensures Packs(bs, i)
  {}

  lemma FirstPacks(bs: Bytes)
    requires bs != []
    ensures Packs(bs, 0) && Packs(bs, 1)
  {
    FirstBits(bs);
    FirstSymbols(bs);
    PacksAs(bs, 0, 0, At(bs, 0) / 4);
    PacksAs(bs, 1, 6, At(bs, 0) % 4 * 16 + At(bs, 1) / 16);
  }

  lemma LaterPacks(bs: Bytes)
    requires |bs| > 1
    ensures Packs(bs, 2) && (|bs| > 2 ==> Packs(bs, 3))
  {
    FirstBits(bs);
    LaterSymbols(bs);
    PacksAs(bs, 2, 12, At(bs, 1) % 16 * 4 + At(bs, 2) / 64);
    if |bs| > 2 {
      PacksAs(bs, 3, 18, At(bs, 2) % 64);
    }
  }

  lemma {:induction false} AllPack(bs: Bytes, i: nat)
    requires i < |Encode(bs)|
    ensures Packs(bs, i)
    decreases |bs|
  {
    if i < 2 {
      FirstPacks(bs);
    } else if i < 4 {
      LaterPacks(bs);
    } else {
      AllPack(bs[3..], i - 4);
      SixShift(bs, 6 * i);
    }
  }

  lemma {:induction false} EncodedLength(bs: Bytes)
    ensures |Encode(bs)| == (8 * |bs| + 5) / 6
    decreases |bs|
  {
    if |bs| >= 3 {
      EncodedLength(bs[3..]);
    }
  }

  /** The encoding of section 5 of RFC 4648 without padding: the bits of the bytes, highest first, six to
      a symbol, the last symbol filled up with zeros. */
  lemma EncodeIs(bs: Bytes)
    ensures |ALPHABET| == 64 && |Encode(bs)| == (8 * |bs| + 5) / 6
    ensures forall i :: 0 <= i < |Encode(bs)| ==> 0 <= SixBits(bs, 6 * i) < 64 && Encode(bs)[i] == ALPHABET[SixBits(bs, 6 * i)]
  {
    EncodedLength(bs);
    SymbolIs(0);
    forall i | 0 <= i < |Encode(bs)|
      ensures 0 <= SixBits(bs, 6 * i) < 64 && Encode(bs)[i] == ALPHABET[SixBits(bs, 6 * i)]
    {
      AllPack(bs, i);
      SymbolIs(SixBits(bs, 6 * i));
    }
  }

  // ---------- What decoding accepts ----------

  function Masked(c: char, m: nat): char
    requires m > 0
  {
    match ValueOf(c)
    case None => c
    case Some(v) => Symbol(v - v % m)
  }

  /** The text with the bits of its last symbol that belong to no byte set to zero. */
  function Cleared(s: string): string {
    var n := |s| - 1;
    if |s| % 4 == 2 then s[n := Masked(s[n], 16)]
    else if |s| % 4 == 3 then s[n := Masked(s[n], 4)]
    else s
  }

  lemma MaskedValue(c: char, m: nat)
    requires m == 4 || m == 16
    ensures ValueOf(c).None? ==> ValueOf(Masked(c, m)).None?
    ensures ValueOf(c).Some? ==> ValueOf(Masked(c, m)).Some?
    ensures ValueOf(c).Some? ==> ValueOf(Masked(c, m)).value / m == ValueOf(c).value / m && ValueOf(Masked(c, m)).value % m == 0
  {}

  lemma TwoAlike(b: char, c: char)
    ensures DecodeSymbols([b, Masked(c, 16)]) == DecodeSymbols([b, c])
  {
    MaskedValue(c, 16);
  }

  lemma ThreeAlike(a: char, b: char, c: char)
    ensures DecodeSymbols([a, b, Masked(c, 4)]) == DecodeSymbols([a, b, c])
  {
    MaskedValue(c, 4);
  }

  /** Four symbols in front add what they decode to. */
  function WithGroup(group: string, rest: Option<Bytes>): Option<Bytes>
    requires |group| == 4
  {
    var (v0, v1, v2, v3) := (ValueOf(group[0]), ValueOf(group[1]), ValueOf(group[2]), ValueOf(group[3]));
    if v0.None? || v1.None? || v2.None? || v3.None? || rest.None? then None
    else
      var b0: Byte := v0.value * 4 + v1.value / 16;
      var b1: Byte := v1.value % 16 * 16 + v2.value / 4;
      Some([b0, b1, v2.value % 4 * 64 + v3.value] + rest.value)
  }

  lemma GroupInFront(group: string, s: string)
    requires |group| == 4
    ensures DecodeSymbols(group + s) == WithGroup(group, DecodeSymbols(s))
  {
    assert (group + s)[4..] == s;
  }

  lemma UpdateTail(g: string, s: string, i: nat, c: char)
    requires i < |s|
    ensures (g + s)[|g| + i := c] == g + s[i := c] && (g + s)[|g| + i] == s[i]
  {}

  lemma ClearedRest(g: string, s: string)
    requires |g| == 4
    ensures Cleared(g + s) == g + Cleared(s)
  {
    assert |g + s| % 4 == |s| % 4;
    if |s| % 4 >= 2 {
      var n := |s| - 1;
      UpdateTail(g, s, n, Masked(s[n], if |s| % 4 == 2 then 16 else 4));
    }
  }

  lemma TailOfTwo(s: string, t: string)
    requires |s| == 2 && t == s[1 := Masked(s[1], 16)]
    ensures DecodeSymbols(t) == DecodeSymbols(s)
  {
    assert s == [s[0], s[1]] && t == [s[0], Masked(s[1], 16)];
    TwoAlike(s[0], s[1]);
  }

  lemma TailOfThree(s: string, t: string)
    requires |s| == 3 && t == s[2 := Masked(s[2], 4)]
    ensures DecodeSymbols(t) == DecodeSymbols(s)
  {
    assert s == [s[0], s[1], s[2]] && t == [s[0], s[1], Masked(s[2], 4)];
    ThreeAlike(s[0], s[1], s[2]);
  }

  lemma GroupAlike(group: string, rest: string)
    requires |group| == 4 && DecodeSymbols(Cleared(rest)) == DecodeSymbols(rest)
    ensures DecodeSymbols(Cleared(group + rest)) == DecodeSymbols(group + rest)
  {
    ClearedRest(group, rest);
    GroupInFront(group, rest);
    GroupInFront(group, Cleared(rest));
  }

  lemma {:induction false} ClearedDecodesAlike(s: string)
    ensures DecodeSymbols(Cleared(s)) == DecodeSymbols(s)
    decreases |s|
  {
    if |s| < 2 {
      assert Cleared(s) == s;
    } else if |s| == 2 {
      TailOfTwo(s, Cleared(s));
    } else if |s| == 3 {
      TailOfThree(s, Cleared(s));
    } else {
      var group, rest := s[..4], s[4..];
      ClearedDecodesAlike(rest);
      GroupAlike(group, rest);
      assert s == group + rest;
    }
  }

  lemma {:induction false} LastIsSymbol(s: string)
    requires DecodeSymbols(s).Some? && s != ""
    ensures ValueOf(s[|s| - 1]).Some?
    decreases |s|
  {
    if |s| > 4 {
      LastIsSymbol(s[4..]);
    }
  }

  lemma ClearedHasNoSpare(s: string)
    requires DecodeSymbols(s).Some?
    ensures SpareBitsZero(Cleared(s))
  {
    if s != "" {
      LastIsSymbol(s);
      MaskedValue(s[|s| - 1], 4);
      MaskedValue(s[|s| - 1], 16);
    }
  }

  /** A text without line breaks decodes to the bytes whose encoding it is once its spare bits are cleared;
      and to an error if there are none. */
  lemma DecodeIff(s: string, bs: Bytes)
    requires NoBreak(s)
    ensures Decode(s) == Some(bs) <==> Encode(bs) == Cleared(s)
  {
    StripNothing(s);
    ClearedDecodesAlike(s);
    SymbolsRoundTrip(bs);
    if DecodeSymbols(s).Some? {
      ClearedHasNoSpare(s);
      SymbolsAreCanonicalIff(Cleared(s));
    }
  }

  /** A line break anywhere is skipped. */
  lemma BreakIsSkipped(a: string, c: char, b: string)
    requires c == '\n' || c == '\r'
    ensures Decode(a + [c] + b) == Decode(a + b)
  {
    StripInside(a, c, b);
  }

  lemma {:induction false} StripInside(a: string, c: char, b: string)
    requires c == '\n' || c == '\r'
    ensures StripLineBreaks(a + [c] + b) == StripLineBreaks(a + b)
    decreases |a|
  {
    if a == [] {
      assert ([] + [c] + b)[1..] == b && [] + b == b;
    } else {
      assert (a + [c] + b)[1..] == a[1..] + [c] + b && (a + b)[1..] == a[1..] + b;
      StripInside(a[1..], c, b);
    }
  }

  // ---------- Decimal ----------

  const MIN64 := -0x8000_0000_0000_0000
  const MAX64 := 0x7fff_ffff_ffff_ffff

  function FormatNat(n: nat): (s: string)
    ensures s != [] && forall i :: 0 <= i < |s| ==> IsDigit(s[i])
  {
    if n < 10 then [DigitChar(n)] else FormatNat(n / 10) + [DigitChar(n % 10)]
  }

  function FormatInt(n: int): string {
    if n < 0 then "-" + FormatNat(-n) else FormatNat(n)
  }

  /** Digits only, at least one. */
  function ParseNat(s: string): Option<nat>
    decreases |s|
  {
    if s == [] || !IsDigit(s[|s| - 1]) then None
    else
      var d := DigitValue(s[|s| - 1]);
      if |s| == 1 then Some(d)
      else
        var n := ParseNat(s[..|s| - 1]);
        if n.None? then None else Some(10 * n.value + d)
  }

  function InRange(v: int): Option<int> {
    if MIN64 <= v <= MAX64 then Some(v) else None
  }

  /** `ParseInt(s, 10, 64)`: an optional sign, digits, and the range check. */
  function ParseInt(s: string): Option<int> {
    if s == [] then None
    else
      var negative := s[0] == '-';
      match ParseNat(if negative || s[0] == '+' then s[1..] else s)
      case None => None
      case Some(n) => InRange(if negative then 0 - n else n)
  }

  lemma {:induction false} NatRoundTrip(n: nat)
    ensures ParseNat(FormatNat(n)) == Some(n)
    decreases n
  {
    if n >= 10 {
      NatRoundTrip(n / 10);
      var s := FormatNat(n);
      assert s[..|s| - 1] == FormatNat(n / 10);
    }
  }

  lemma DigitsHaveNoSign(n: nat)
    ensures FormatNat(n)[0] != '-' && FormatNat(n)[0] != '+' && NoDot(FormatNat(n))
  {
    assert IsDigit(FormatNat(n)[0]);
  }

  lemma IntRoundTrip(n: int)
    requires MIN64 <= n <= MAX64
    ensures ParseInt(FormatInt(n)) == Some(n) && NoDot(FormatInt(n))
  {
    var m: nat := if n < 0 then -n else n;
    NatRoundTrip(m);
    DigitsHaveNoSign(m);
    if n < 0 {
      assert ("-" + FormatNat(m))[1..] == FormatNat(m);
    }
  }

  predicate IsNumeral(s: string) {
    s != "" && forall i :: 0 <= i < |s| ==> 48 <= s[i] as int <= 57
  }

  function Pow10(n: nat): nat {
    if n == 0 then 1 else 10 * Pow10(n - 1)
  }

  /** Each digit times its power of ten. */
  function Numeral(s: string): int {
    if s == [] then 0 else (s[0] as int - 48) * Pow10(|s| - 1) + Numeral(s[1..])
  }

  lemma Factor(d: int, p: int, m: int, last: int)
    ensures 10 * (d * p + m) + last == d * (10 * p) + (10 * m + last)
  {}

  lemma {:induction false} NumeralNext(s: string, c: char)
    ensures Numeral(s + [c]) == 10 * Numeral(s) + (c as int - 48)
    decreases |s|
  {
    var t := s + [c];
    if s == [] {
      assert t[1..] == [];
      assert Pow10(0) == 1;
    } else {
      assert t[1..] == s[1..] + [c];
      NumeralNext(s[1..], c);
      Factor(s[0] as int - 48, Pow10(|s| - 1), Numeral(s[1..]), c as int - 48);
    }
  }

  lemma {:induction false} ParseNatIff(s: string)
    ensures ParseNat(s).Some? <==> IsNumeral(s)
    ensures ParseNat(s).Some? ==> ParseNat(s).value == Numeral(s)
    decreases |s|
  {
    if s != "" {
      var t, c := s[..|s| - 1], s[|s| - 1];
      assert s == t + [c];
      NumeralNext(t, c);
      if |s| > 1 {
        ParseNatIff(t);
      } else {
        assert t == "" && Numeral("") == 0;
      }
    }
  }

  /** `s` is a signed decimal numeral of value `v`. */
  ghost predicate Denotes(s: string, v: int) {
    || (IsNumeral(s) && v == Numeral(s))
    || (s != "" && s[0] == '+' && IsNumeral(s[1..]) && v == Numeral(s[1..]))
    || (s != "" && s[0] == '-' && IsNumeral(s[1..]) && v == -Numeral(s[1..]))
  }

  lemma ParseIntIff(s: string, v: int)
    ensures ParseInt(s) == Some(v) <==> Denotes(s, v) && -9_223_372_036_854_775_808 <= v <= 9_223_372_036_854_775_807
  {
    ParseNatIff(s);
    if s != "" {
      ParseNatIff(s[1..]);
    }
  }

  lemma {:induction false} NoLeadingZero(n: nat)
    ensures n > 0 ==> FormatNat(n)[0] != '0'
    decreases n
  {
    if n >= 10 {
      NoLeadingZero(n / 10);
    }
  }

  /** The numeral without leading zeros, and a minus if the number is negative. */
  lemma FormatIntIs(n: int)
    ensures Denotes(FormatInt(n), n)
    ensures n == 0 ==> FormatInt(n) == "0"
    ensures n > 0 ==> IsNumeral(FormatInt(n)) && FormatInt(n)[0] != '0'
    ensures n < 0 ==> |FormatInt(n)| > 1 && FormatInt(n)[1] != '0'
  {
    var m: nat := if n < 0 then -n else n;
    NatRoundTrip(m);
    ParseNatIff(FormatNat(m));
    NoLeadingZero(m);
  }

  // ---------- Splitting at dots ----------

  function Split(s: string): (parts: seq<string>)
    ensures parts != []
    decreases |s|
  {
    if s == [] then [""]
    else
      var rest := Split(s[1..]);
      if s[0] == '.' then [""] + rest else [[s[0]] + rest[0]] + rest[1..]
  }

  function Dotted(parts: seq<string>): string
    requires parts != []
  {
    if |parts| == 1 then parts[0] else parts[0] + "." + Dotted(parts[1..])
  }

  lemma {:induction false} SplitHead(a: string, rest: string)
    requires NoDot(a)
    ensures Split(a + "." + rest) == [a] + Split(rest)
    decreases |a|
  {
    var s := a + "." + rest;
    if a == [] {
      assert s[1..] == rest;
    } else {
      SplitHead(a[1..], rest);
      assert s[1..] == a[1..] + "." + rest;
      assert [a[0]] + a[1..] == a;
    }
  }

  lemma {:induction false} SplitNoDot(a: string)
    requires NoDot(a)
    ensures Split(a) == [a]
    decreases |a|
  {
    if a != [] {
      SplitNoDot(a[1..]);
      assert [a[0]] + a[1..] == a;
    }
  }

  lemma DottedCons(c: char, rest: seq<string>)
    requires rest != []
    ensures Dotted([[c] + rest[0]] + rest[1..]) == [c] + Dotted(rest)
    ensures Dotted([""] + rest) == "." + Dotted(rest)
  {
    var parts := [[c] + rest[0]] + rest[1..];
    assert parts[1..] == rest[1..];
    if |rest| > 1 {
      assert [c] + rest[0] + "." + Dotted(rest[1..]) == [c] + (rest[0] + "." + Dotted(rest[1..]));
    }
    assert ([""] + rest)[1..] == rest;
    assert "" + "." == ".";
  }

  /** Joining undoes splitting. */
  lemma {:induction false} SplitJoins(s: string)
    ensures Dotted(Split(s)) == s
    decreases |s|
  {
    if s != [] {
      SplitJoins(s[1..]);
      DottedCons(s[0], Split(s[1..]));
      assert s == [s[0]] + s[1..];
    }
  }

  /** Splitting undoes joining, for parts without dots. */
  lemma {:induction false} SplitOfDotted(parts: seq<string>)
    requires parts != [] && forall i :: 0 <= i < |parts| ==> NoDot(parts[i])
    ensures Split(Dotted(parts)) == parts
    decreases |parts|
  {
    if |parts| == 1 {
      SplitNoDot(parts[0]);
    } else {
      SplitHead(parts[0], Dotted(parts[1..]));
      SplitOfDotted(parts[1..]);
    }
  }

  lemma LeftToRight(a: string, b: string, c: string, d: string)
    ensures a + "." + (b + "." + (c + "." + d)) == a + "." + b + "." + c + "." + d
  {
    Reassociate(b + ".", c, d);
    Reassociate(a + ".", b, c + "." + d);
    Reassociate(a + "." + b + ".", c, d);
  }

  /** Four fields joined from the right, as the splitter sees them, and from the left, as the code writes them. */
  lemma DottedFour(a: string, b: string, c: string, d: string)
    ensures Dotted([a, b, c, d]) == a + "." + b + "." + c + "." + d
  {
    assert [c, d][1..] == [d] && [b, c, d][1..] == [c, d] && [a, b, c, d][1..] == [b, c, d];
    assert Dotted([c, d]) == c + "." + d;
    LeftToRight(a, b, c, d);
  }

  lemma Reassociate(x: string, y: string, z: string)
    ensures x + (y + "." + z) == x + y + "." + z
  {}

  // ---------- Tokens ----------

  type Mac = (string, string) -> Bytes

  datatype Error = MalformedToken | InvalidSignature | MalformedExpiry | SessionExpired | MalformedField

  datatype Verdict = Accepted(userID: Bytes, email: Bytes) | Rejected(error: Error)

  const SECOND := 1_000_000_000

  /** Unix seconds of a moment given in nanoseconds: rounds down. */
  function Unix(ns: int): int {
    ns / SECOND
  }

  function Payload(userID: Bytes, email: Bytes, expiry: int): string {
    Encode(userID) + "." + Encode(email) + "." + FormatInt(expiry)
  }

  function Tag(mac: Mac, secret: string, payload: string): string {
    Encode(mac(secret, payload))
  }

  function Issue(mac: Mac, secret: string, userID: Bytes, email: Bytes, expiry: int): string {
    Payload(userID, email, expiry) + "." + Tag(mac, secret, Payload(userID, email, expiry))
  }

  /** `Sign`, at time `now` with lifetime `ttl`, both in nanoseconds. */
  function Sign(mac: Mac, secret: string, userID: Bytes, email: Bytes, now: int, ttl: int): string {
    Issue(mac, secret, userID, email, Unix(now + ttl))
  }

  /** `Verify`, at time `now`. */
  function Verify(mac: Mac, secret: string, token: string, now: int): Verdict {
    var parts := Split(token);
    if |parts| != 4 then Rejected(MalformedToken)
    else
      var payload := parts[0] + "." + parts[1] + "." + parts[2];
      if Tag(mac, secret, payload) != parts[3] then Rejected(InvalidSignature)
      else
        match ParseInt(parts[2])
        case None => Rejected(MalformedExpiry)
        case Some(expiry) =>
          if Unix(now) > expiry then Rejected(SessionExpired)
          else
            match Decode(parts[0])
            case None => Rejected(MalformedField)
            case Some(userID) =>
              match Decode(parts[1])
              case None => Rejected(MalformedField)
              case Some(email) => Accepted(userID, email)
  }

  lemma ThreeThen(a: string, b: string, c: string, rest: seq<string>)
    ensures [a] + ([b] + ([c] + rest)) == [a, b, c] + rest
  {}

  lemma SplitThree(a: string, b: string, c: string, tail: string)
    requires NoDot(a) && NoDot(b) && NoDot(c)
    ensures Split(a + "." + b + "." + c + "." + tail) == [a, b, c] + Split(tail)
  {
    var ct := c + "." + tail;
    var bct := b + "." + ct;
    SplitHead(c, tail);
    SplitHead(b, ct);
    SplitHead(a, bct);
    LeftToRight(a, b, c, tail);
    ThreeThen(a, b, c, Split(tail));
  }

  lemma SplitFour(a: string, b: string, c: string, d: string)
    requires NoDot(a) && NoDot(b) && NoDot(c) && NoDot(d)
    ensures Split(a + "." + b + "." + c + "." + d) == [a, b, c, d]
  {
    SplitThree(a, b, c, d);
    SplitNoDot(d);
  }

  lemma IssuedParts(mac: Mac, secret: string, userID: Bytes, email: Bytes, expiry: int)
    requires MIN64 <= expiry <= MAX64
    ensures Split(Issue(mac, secret, userID, email, expiry))
         == [Encode(userID), Encode(email), FormatInt(expiry), Tag(mac, secret, Payload(userID, email, expiry))]
  {
    EncodedIsClean(userID);
    EncodedIsClean(email);
    IntRoundTrip(expiry);
    EncodedIsClean(mac(secret, Payload(userID, email, expiry)));
    SplitFour(Encode(userID), Encode(email), FormatInt(expiry), Tag(mac, secret, Payload(userID, email, expiry)));
  }

  function Dots(s: string): nat {
    if s == [] then 0 else (if s[0] == '.' then 1 else 0) + Dots(s[1..])
  }

  lemma {:induction false} SplitCounts(s: string)
    ensures |Split(s)| == Dots(s) + 1
    decreases |s|
  {
    if s != [] {
      SplitCounts(s[1..]);
    }
  }

  /** A token is malformed exactly when it does not hold three dots. */
  lemma MalformedIff(mac: Mac, secret: string, token: string, now: int)
    ensures Verify(mac, secret, token, now) == Rejected(MalformedToken) <==> Dots(token) != 3
  {
    SplitCounts(token);
  }

  lemma LaterSecond(now: int, v: int)
    ensures now / 1_000_000_000 > v <==> now >= (v + 1) * 1_000_000_000
  {}

  /** What becomes of any other token, in the order of the checks: a wrong tag; an expiry that is no 64-bit
      number; one whose second is over; a user or an email that does not decode. */
  lemma VerifyIff(mac: Mac, secret: string, a: string, b: string, x: string, d: string, now: int)
    requires NoDot(a) && NoDot(b) && NoDot(x) && NoDot(d)
    ensures var (r, tag) := (Verify(mac, secret, a + "." + b + "." + x + "." + d, now),
                             Encode(mac(secret, a + "." + b + "." + x)));
            match r
            case Accepted(u, e) =>
              d == tag && ParseInt(x).Some? && now < (ParseInt(x).value + 1) * 1_000_000_000
              && Decode(a) == Some(u) && Decode(b) == Some(e)
            case Rejected(error) =>
              match error
              case MalformedToken => false
              case InvalidSignature => d != tag
              case MalformedExpiry => d == tag && ParseInt(x).None?
              case SessionExpired => d == tag && ParseInt(x).Some? && now >= (ParseInt(x).value + 1) * 1_000_000_000
              case MalformedField =>
                d == tag && ParseInt(x).Some? && now < (ParseInt(x).value + 1) * 1_000_000_000
                && (Decode(a).None? || Decode(b).None?)
  {
    SplitFour(a, b, x, d);
    if ParseInt(x).Some? {
      LaterSecond(now, ParseInt(x).value);
    }
  }

  /** A token verifies to exactly what was signed, through the second in which it expires, and is rejected
      as expired from the next second on. Times are in nanoseconds. */
  lemma TokenRoundTrip(mac: Mac, secret: string, userID: Bytes, email: Bytes, signedAt: int, ttl: int, now: int, second: int)
    requires second * 1_000_000_000 <= signedAt + ttl < (second + 1) * 1_000_000_000
    requires -9_223_372_036_854_775_808 <= second <= 9_223_372_036_854_775_807
    ensures Verify(mac, secret, Sign(mac, secret, userID, email, signedAt, ttl), now)
         == if now < (second + 1) * 1_000_000_000 then Accepted(userID, email) else Rejected(SessionExpired)
  {
    LaterSecond(now, second);
    IsSecond(signedAt + ttl, second);
    IssuedRoundTrip(mac, secret, userID, email, second, now);
  }

  lemma IssuedRoundTrip(mac: Mac, secret: string, userID: Bytes, email: Bytes, expiry: int, now: int)
    requires MIN64 <= expiry <= MAX64
    ensures Verify(mac, secret, Issue(mac, secret, userID, email, expiry), now)
         == if Unix(now) <= expiry then Accepted(userID, email) else Rejected(SessionExpired)
  {
    IssuedParts(mac, secret, userID, email, expiry);
    IntRoundTrip(expiry);
    Base64RoundTrip(userID);
    Base64RoundTrip(email);
  }

  lemma IsSecond(ns: int, second: int)
    requires second * 1_000_000_000 <= ns < (second + 1) * 1_000_000_000
    ensures Unix(ns) == second
  {}

  /** The three signed fields are determined by the payload: no two signings share one. */
  lemma PayloadIsInjective(u: Bytes, e: Bytes, x: int, u': Bytes, e': Bytes, x': int)
    requires MIN64 <= x <= MAX64 && MIN64 <= x' <= MAX64
    requires Payload(u, e, x) == Payload(u', e', x')
    ensures u == u' && e == e' && x == x'
  {
    var mac: Mac := (k, p) => [];
    IssuedParts(mac, "", u, e, x);
    IssuedParts(mac, "", u', e', x');
    Base64RoundTrip(u);
    Base64RoundTrip(u');
    Base64RoundTrip(e);
    Base64RoundTrip(e');
    IntRoundTrip(x);
    IntRoundTrip(x');
    assert Split(Issue(mac, "", u, e, x)) == Split(Issue(mac, "", u', e', x'));
    assert [Encode(u), Encode(e), FormatInt(x)] == Split(Issue(mac, "", u, e, x))[..3];
    assert [Encode(u'), Encode(e'), FormatInt(x')] == Split(Issue(mac, "", u', e', x'))[..3];
  }

  /** Whatever is accepted is a payload followed by the one tag of that payload. */
  lemma AcceptedIsTagged(mac: Mac, secret: string, token: string, now: int) returns (payload: string)
    requires Verify(mac, secret, token, now).Accepted?
    ensures token == payload + "." + Tag(mac, secret, payload)
  {
    var p := Split(token);
    SplitJoins(token);
    payload := p[0] + "." + p[1] + "." + p[2];
    DottedFour(p[0], p[1], p[2], p[3]);
    assert p == [p[0], p[1], p[2], p[3]];
  }

  /** A token cannot be altered without a new tag: any accepted token that begins with the payload of an
      issued one is that issued token, and yields the identity it was issued for. */
  lemma OnlyIssuedTokens(mac: Mac, secret: string, token: string, now: int,
                         userID: Bytes, email: Bytes, expiry: int, tail: string)
    requires MIN64 <= expiry <= MAX64
    requires Verify(mac, secret, token, now).Accepted?
    requires token == Payload(userID, email, expiry) + "." + tail
    ensures token == Issue(mac, secret, userID, email, expiry)
    ensures Verify(mac, secret, token, now) == Accepted(userID, email) && now < (expiry + 1) * 1_000_000_000
  {
    LaterSecond(now, expiry);
    EncodedIsClean(userID);
    EncodedIsClean(email);
    IntRoundTrip(expiry);
    SplitThree(Encode(userID), Encode(email), FormatInt(expiry), tail);
    SplitJoins(tail);
    assert Split(tail) == [tail];
    Base64RoundTrip(userID);
    Base64RoundTrip(email);
  }
}
