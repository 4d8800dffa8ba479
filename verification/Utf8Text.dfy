/** UTF-8 as Python decodes it with errors="replace": every maximal ill-formed piece becomes U+FFFD. */
module Utf8Text {
  import opened NotificationReplay

  const REPLACEMENT: char := '\U{FFFD}'

  predicate Continues(b: Byte) {
    0x80 <= b < 0xC0
  }

  /** The second bytes that may follow a lead byte of a three- or four-byte character. */
  predicate SecondByte(lead: Byte, b: Byte) {
    && Continues(b)
    && (lead == 0xE0 ==> b >= 0xA0) && (lead == 0xED ==> b < 0xA0)
    && (lead == 0xF0 ==> b >= 0x90) && (lead == 0xF4 ==> b < 0x90)
  }

  function Two(b0: Byte, b1: Byte): char
    requires 0xC2 <= b0 < 0xE0 && Continues(b1)
  {
    ((b0 - 0xC0) * 64 + (b1 - 0x80)) as char
  }

  function Three(b0: Byte, b1: Byte, b2: Byte): char
    requires 0xE0 <= b0 < 0xF0 && SecondByte(b0, b1) && Continues(b2)
  {
    ((b0 - 0xE0) * 4096 + (b1 - 0x80) * 64 + (b2 - 0x80)) as char
  }

  function Four(b0: Byte, b1: Byte, b2: Byte, b3: Byte): char
    requires 0xF0 <= b0 < 0xF5 && SecondByte(b0, b1) && Continues(b2) && Continues(b3)
  {
    ((b0 - 0xF0) * 262144 + (b1 - 0x80) * 4096 + (b2 - 0x80) * 64 + (b3 - 0x80)) as char
  }

  /** The first character and how many bytes it takes. */
  function ReadChar(bytes: seq<Byte>): (r: (char, nat))
    requires bytes != []
    ensures 1 <= r.1 <= |bytes|
  {
    var b0, n := bytes[0], |bytes|;
    if b0 < 0x80 then (b0 as char, 1)
    else if 0xC2 <= b0 < 0xE0 then
      if n >= 2 && Continues(bytes[1]) then (Two(b0, bytes[1]), 2) else (REPLACEMENT, 1)
    else if 0xE0 <= b0 < 0xF0 then
      if n < 2 || !SecondByte(b0, bytes[1]) then (REPLACEMENT, 1)
      else if n < 3 || !Continues(bytes[2]) then (REPLACEMENT, 2)
      else (Three(b0, bytes[1], bytes[2]), 3)
    else if 0xF0 <= b0 < 0xF5 then
      if n < 2 || !SecondByte(b0, bytes[1]) then (REPLACEMENT, 1)
      else if n < 3 || !Continues(bytes[2]) then (REPLACEMENT, 2)
      else if n < 4 || !Continues(bytes[3]) then (REPLACEMENT, 3)
      else (Four(b0, bytes[1], bytes[2], bytes[3]), 4)
    else (REPLACEMENT, 1)
  }

  function DecodeUtf8(bytes: seq<Byte>): string {
    if bytes == [] then []
    else
      var (c, n) := ReadChar(bytes);
      [c] + DecodeUtf8(bytes[n..])
  }

  /* ---- digits to the base 64 ---- */

  lemma DivideTwice(p: nat)
    ensures p / 64 / 64 == p / 4096 && p / 4096 / 64 == p / 262144
  {}

  /** A number from its digits. */
  lemma DigitsOf(p: nat)
    ensures p == p / 4096 * 4096 + p / 64 % 64 * 64 + p % 64
    ensures p == p / 262144 * 262144 + p / 4096 % 64 * 4096 + p / 64 % 64 * 64 + p % 64
  {
    DivideTwice(p);
  }

  lemma LastDigit(q: nat, d: nat)
    requires d < 64
    ensures (q * 64 + d) / 64 == q && (q * 64 + d) % 64 == d
  {}

  /** The digits of a number written from them. */
  lemma DigitsBack(d0: nat, d1: nat, d2: nat, d3: nat)
    requires d1 < 64 && d2 < 64 && d3 < 64
    ensures var p := d0 * 262144 + d1 * 4096 + d2 * 64 + d3;
      p / 262144 == d0 && p / 4096 % 64 == d1 && p / 64 % 64 == d2 && p % 64 == d3
  {
    var high := d0 * 64 + d1;
    LastDigit(d0, d1);
    LastDigit(high, d2);
    LastDigit(high * 64 + d2, d3);
    DivideTwice((high * 64 + d2) * 64 + d3);
  }

  /* ---- encoding, then decoding ---- */

  lemma TwoOfEncoded(c: char)
    requires 0x80 <= c as int < 0x800
    ensures var e := Utf8Char(c); |e| == 2 && 0xC2 <= e[0] < 0xE0 && Continues(e[1]) && Two(e[0], e[1]) == c
  {}

  lemma ThreeOfEncoded(c: char)
    requires 0x800 <= c as int < 0x10000
    ensures var e := Utf8Char(c);
      && |e| == 3 && 0xE0 <= e[0] < 0xF0 && SecondByte(e[0], e[1]) && Continues(e[2])
      && Three(e[0], e[1], e[2]) == c
  {
    DigitsOf(c as int);
  }

  lemma FourOfEncoded(c: char)
    requires 0x10000 <= c as int
    ensures var e := Utf8Char(c);
      && |e| == 4 && 0xF0 <= e[0] < 0xF5 && SecondByte(e[0], e[1]) && Continues(e[2]) && Continues(e[3])
      && Four(e[0], e[1], e[2], e[3]) == c
  {
    DigitsOf(c as int);
  }

  lemma ReadOfEncoded(c: char, rest: seq<Byte>)
    ensures ReadChar(Utf8Char(c) + rest) == (c, |Utf8Char(c)|)
  {
    if c as int < 0x80 {
    } else if c as int < 0x800 {
      TwoOfEncoded(c);
    } else if c as int < 0x10000 {
      ThreeOfEncoded(c);
    } else {
      FourOfEncoded(c);
    }
  }

  /** Any text survives encoding and decoding. */
  lemma {:induction false} DecodeOfUtf8(s: string)
    ensures DecodeUtf8(Utf8(s)) == s
  {
    if s != [] {
      var e, rest := Utf8Char(s[0]), Utf8(s[1..]);
      DecodeOfUtf8(s[1..]);
      ReadOfEncoded(s[0], rest);
      assert (e + rest)[|e|..] == rest;
    }
  }

  /* ---- decoding, then encoding ---- */

  lemma EncodedTwo(b0: Byte, b1: Byte)
    requires 0xC2 <= b0 < 0xE0 && Continues(b1)
    ensures Utf8Char(Two(b0, b1)) == [b0, b1]
  {}

  lemma EncodedThree(b0: Byte, b1: Byte, b2: Byte)
    requires 0xE0 <= b0 < 0xF0 && SecondByte(b0, b1) && Continues(b2)
    ensures Utf8Char(Three(b0, b1, b2)) == [b0, b1, b2]
  {
    DigitsBack(0, b0 - 0xE0, b1 - 0x80, b2 - 0x80);
  }

  lemma EncodedFour(b0: Byte, b1: Byte, b2: Byte, b3: Byte)
    requires 0xF0 <= b0 < 0xF5 && SecondByte(b0, b1) && Continues(b2) && Continues(b3)
    ensures Utf8Char(Four(b0, b1, b2, b3)) == [b0, b1, b2, b3]
  {
    DigitsBack(b0 - 0xF0, b1 - 0x80, b2 - 0x80, b3 - 0x80);
  }

  /** A character that is not the replacement was read from its own encoding. */
  lemma ReadIsEncoding(bytes: seq<Byte>)
    requires bytes != [] && ReadChar(bytes).0 != REPLACEMENT
    ensures bytes[..ReadChar(bytes).1] == Utf8Char(ReadChar(bytes).0)
  {
    match ReadChar(bytes).1
    case 1 =>
    case 2 => EncodedTwo(bytes[0], bytes[1]);
    case 3 => EncodedThree(bytes[0], bytes[1], bytes[2]);
    case _ => EncodedFour(bytes[0], bytes[1], bytes[2], bytes[3]);
  }

  lemma Utf8Cons(c: char, text: string)
    ensures Utf8([c] + text) == Utf8Char(c) + Utf8(text)
  {
    assert ([c] + text)[1..] == text;
  }

  lemma Reassembled(bytes: seq<Byte>, c: char, n: nat, text: string)
    requires n <= |bytes| && bytes[..n] == Utf8Char(c) && bytes[n..] == Utf8(text)
    ensures Utf8([c] + text) == bytes
  {
    Utf8Cons(c, text);
    assert bytes == bytes[..n] + bytes[n..];
  }

  lemma NoReplacementAhead(bytes: seq<Byte>)
    requires bytes != [] && REPLACEMENT !in DecodeUtf8(bytes)
    ensures ReadChar(bytes).0 != REPLACEMENT && REPLACEMENT !in DecodeUtf8(bytes[ReadChar(bytes).1..])
  {
    var (c, n) := ReadChar(bytes);
    assert c in [c] + DecodeUtf8(bytes[n..]);
    assert forall t | t in DecodeUtf8(bytes[n..]) :: t in [c] + DecodeUtf8(bytes[n..]);
  }

  /** Text without a replacement character encodes back to the bytes it was read from. */
  lemma {:induction false} Utf8OfDecoded(bytes: seq<Byte>)
    requires REPLACEMENT !in DecodeUtf8(bytes)
    ensures Utf8(DecodeUtf8(bytes)) == bytes
  {
    if bytes != [] {
      var (c, n) := ReadChar(bytes);
      NoReplacementAhead(bytes);
      Utf8OfDecoded(bytes[n..]);
      ReadIsEncoding(bytes);
      Reassembled(bytes, c, n, DecodeUtf8(bytes[n..]));
    }
  }

  /** Different bytes give different text unless something was replaced. */
  lemma DecodedIsInjective(a: seq<Byte>, b: seq<Byte>)
    requires DecodeUtf8(a) == DecodeUtf8(b) && REPLACEMENT !in DecodeUtf8(a)
    ensures a == b
  {
    Utf8OfDecoded(a);
    Utf8OfDecoded(b);
  }

  /** Bytes that occur in no character are replaced alike. */
  lemma ForeignByteIsReplaced(b: Byte)
    requires 0x80 <= b < 0xC2 || b >= 0xF5
    ensures DecodeUtf8([b]) == [REPLACEMENT]
  {
    assert [b][1..] == [];
  }
}
