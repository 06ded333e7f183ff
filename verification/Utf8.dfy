/** `bytes.decode("utf-8", errors="replace")`: every maximal ill-formed part of the input
    becomes one U+FFFD. A newline byte always decodes to a newline and ends whatever came before.
    A strict decoder gives the same text or refuses. */
module Utf8 {

  type byte = b: int | 0 <= b < 256

  const NL: byte := 10

  const REPLACEMENT: char := '\U{fffd}'

  /** `bs[offset:]`. */
  function Tail(bs: seq<byte>, offset: nat): seq<byte> {
    if offset <= |bs| then bs[offset..] else []
  }

  predicate IsContinuation(b: byte) {
    0x80 <= b < 0xC0
  }

  /** Continuation bytes a lead byte asks for; 0 if it cannot start a multi-byte sequence. */
  function Needed(lead: byte): nat {
    if 0xC2 <= lead < 0xE0 then 1 else if 0xE0 <= lead < 0xF0 then 2 else if 0xF0 <= lead < 0xF5 then 3 else 0
  }

  /** The second byte's range excludes overlong forms, surrogates and values past U+10FFFF. */
  predicate SecondOk(lead: byte, b: byte) {
    && IsContinuation(b)
    && (lead == 0xE0 ==> b >= 0xA0) && (lead == 0xED ==> b < 0xA0)
    && (lead == 0xF0 ==> b >= 0x90) && (lead == 0xF4 ==> b < 0x90)
  }

  /** The payload bits of a byte whose marker bits are worth `mark`. */
  function Bits(b: byte, mark: int): int {
    var x: int := b;
    x - mark
  }

  /** The first character and how many bytes it takes. */
  function First(bs: seq<byte>): (r: (char, nat))
    requires bs != []
    ensures 1 <= r.1 <= |bs|
    ensures r.0 == '\n' <==> bs[0] == NL
    ensures forall i :: 1 <= i < r.1 ==> bs[i] != NL
  {
    var need := Needed(bs[0]);
    if bs[0] < 0x80 then (bs[0] as char, 1)
    else if need == 0 || |bs| < 2 || !SecondOk(bs[0], bs[1]) then (REPLACEMENT, 1)
    else if need == 1 then ((Bits(bs[0], 0xC0) * 0x40 + Bits(bs[1], 0x80)) as char, 2)
    else if |bs| < 3 || !IsContinuation(bs[2]) then (REPLACEMENT, 2)
    else if need == 2 then
      ((Bits(bs[0], 0xE0) * 0x1000 + Bits(bs[1], 0x80) * 0x40 + Bits(bs[2], 0x80)) as char, 3)
    else if |bs| < 4 || !IsContinuation(bs[3]) then (REPLACEMENT, 3)
    else
      ((Bits(bs[0], 0xF0) * 0x40000 + Bits(bs[1], 0x80) * 0x1000 + Bits(bs[2], 0x80) * 0x40 + Bits(bs[3], 0x80)) as char, 4)
  }

  function Decode(bs: seq<byte>): (s: string)
    ensures |s| <= |bs|
    ensures s == "" <==> bs == []
  {
    if bs == [] then "" else [First(bs).0] + Decode(bs[First(bs).1..])
  }

  /** The bytes begin with one whole character. */
  predicate StartsWhole(bs: seq<byte>)
    requires bs != []
  {
    var need := Needed(bs[0]);
    || bs[0] < 0x80
    || (&& need > 0 && |bs| > need && SecondOk(bs[0], bs[1])
        && (need > 1 ==> IsContinuation(bs[2])) && (need > 2 ==> IsContinuation(bs[3])))
  }

  /** What a strict decoder accepts: nothing had to be replaced. */
  predicate WellFormed(bs: seq<byte>) {
    bs != [] ==> StartsWhole(bs) && WellFormed(bs[First(bs).1..])
  }

  lemma FirstBeforeNewline(a: seq<byte>, b: seq<byte>)
    requires a != []
    ensures First(a + [NL] + b) == First(a)
  {
    var whole := a + [NL] + b;
    assert whole[0] == a[0];
    assert |a| >= 2 ==> whole[1] == a[1];
    assert |a| >= 3 ==> whole[2] == a[2];
    assert |a| >= 4 ==> whole[3] == a[3];
    assert |a| == 1 ==> whole[1] == NL;
    assert |a| == 2 ==> whole[2] == NL;
    assert |a| == 3 ==> whole[3] == NL;
  }

  /** Decoding splits at a newline byte, whatever surrounds it. */
  lemma {:induction false} DecodeAtNewline(a: seq<byte>, b: seq<byte>)
    ensures Decode(a + [NL] + b) == Decode(a) + "\n" + Decode(b)
  {
    if a == [] {
      assert ([] + [NL] + b)[1..] == b;
      assert First([] + [NL] + b) == ('\n', 1);
    } else {
      var n := First(a).1;
      FirstBeforeNewline(a, b);
      assert (a + [NL] + b)[n..] == a[n..] + [NL] + b;
      DecodeAtNewline(a[n..], b);
    }
  }

  /** Nothing but a newline byte decodes to a newline. */
  lemma {:induction false} NoNewline(bs: seq<byte>)
    requires forall i :: 0 <= i < |bs| ==> bs[i] != NL
    ensures '\n' !in Decode(bs)
  {
    if bs != [] {
      var n := First(bs).1;
      NoNewline(bs[n..]);
    }
  }

  /** Just past the last newline byte; 0 if there is none. */
  function LineEnd(bs: seq<byte>): (n: nat)
    ensures n <= |bs|
    ensures n > 0 ==> bs[n - 1] == NL
    ensures forall i :: n <= i < |bs| ==> bs[i] != NL
  {
    if bs == [] then 0
    else if bs[|bs| - 1] == NL then |bs|
    else LineEnd(bs[..|bs| - 1])
  }

  lemma LineEndUnique(bs: seq<byte>, n: nat)
    requires n <= |bs| && (n > 0 ==> bs[n - 1] == NL) && forall i :: n <= i < |bs| ==> bs[i] != NL
    ensures n == LineEnd(bs)
  {
  }

  /** Complete lines and the partial line after them decode separately. */
  lemma DecodeAtLineEnd(bs: seq<byte>)
    ensures var n := LineEnd(bs);
            && Decode(bs) == Decode(bs[..n]) + Decode(bs[n..])
            && (n > 0 ==> Decode(bs[..n]) != "" && Decode(bs[..n])[|Decode(bs[..n])| - 1] == '\n')
            && '\n' !in Decode(bs[n..])
  {
    var n := LineEnd(bs);
    NoNewline(bs[n..]);
    if n > 0 {
      SplitsAfter(bs, n);
    } else {
      assert bs[..0] == [] && bs[0..] == bs;
    }
  }

  lemma EndsLine(head: seq<byte>)
    ensures Decode(head + [NL]) == Decode(head) + "\n"
  {
    assert head + [NL] == head + [NL] + [];
    DecodeAtNewline(head, []);
    assert Decode(head) + "\n" + "" == Decode(head) + "\n";
  }

  lemma SplitsAfter(bs: seq<byte>, n: nat)
    requires 0 < n <= |bs| && bs[n - 1] == NL
    ensures Decode(bs) == Decode(bs[..n]) + Decode(bs[n..])
    ensures Decode(bs[..n]) == Decode(bs[..n - 1]) + "\n"
  {
    var head := bs[..n - 1];
    assert bs == head + [NL] + bs[n..];
    DecodeAtNewline(head, bs[n..]);
    EndsLine(head);
    assert bs[..n] == head + [NL];
  }

  /** Plain ASCII decodes byte by byte. */
  lemma {:induction false} AsciiIsOneByte(bs: seq<byte>)
    requires forall i :: 0 <= i < |bs| ==> bs[i] < 0x80
    ensures |Decode(bs)| == |bs|
  {
    if bs != [] {
      AsciiIsOneByte(bs[1..]);
    }
  }

  // ----- Against the encoder

  /** A character's bytes by its number. */
  function EncodeChar(c: char): seq<byte> {
    var x := c as int;
    if x < 0x80 then [x]
    else if x < 0x800 then [0xC0 + x / 0x40, 0x80 + x % 0x40]
    else if x < 0x10000 then [0xE0 + x / 0x1000, 0x80 + x / 0x40 % 0x40, 0x80 + x % 0x40]
    else [0xF0 + x / 0x40000, 0x80 + x / 0x1000 % 0x40, 0x80 + x / 0x40 % 0x40, 0x80 + x % 0x40]
  }

  function Encode(s: string): seq<byte> {
    if s == "" then [] else EncodeChar(s[0]) + Encode(s[1..])
  }

  lemma Digits64(x: nat)
    ensures x == x / 0x40 * 0x40 + x % 0x40
    ensures x / 0x40 == x / 0x1000 * 0x40 + x / 0x40 % 0x40
    ensures x / 0x1000 == x / 0x40000 * 0x40 + x / 0x1000 % 0x40
  {
  }

  /** What a character is encoded as begins with that character, whatever follows. */
  lemma FirstOfEncoded(c: char, rest: seq<byte>)
    ensures StartsWhole(EncodeChar(c) + rest)
    ensures First(EncodeChar(c) + rest) == (c, |EncodeChar(c)|)
  {
    var x := c as int;
    Digits64(x);
    var bs := EncodeChar(c) + rest;
    assert forall i :: 0 <= i < |EncodeChar(c)| ==> bs[i] == EncodeChar(c)[i];
  }

  /** Decoding undoes encoding, for every text. */
  lemma {:induction false} DecodeOfEncode(s: string)
    ensures WellFormed(Encode(s)) && Decode(Encode(s)) == s
  {
    if s != "" {
      DecodeOfEncode(s[1..]);
      FirstOfEncoded(s[0], Encode(s[1..]));
      assert Encode(s)[|EncodeChar(s[0])|..] == Encode(s[1..]);
      assert s == [s[0]] + s[1..];
    }
  }

  lemma Payload(a: nat, b: nat, c: nat, d: nat)
    requires b < 0x40 && c < 0x40 && d < 0x40
    ensures var x := a * 0x40000 + b * 0x1000 + c * 0x40 + d;
            && x % 0x40 == d && x / 0x40 == a * 0x1000 + b * 0x40 + c && x / 0x40 % 0x40 == c
            && x / 0x1000 == a * 0x40 + b && x / 0x1000 % 0x40 == b && x / 0x40000 == a
  {
  }

  lemma EncodedTwo(bs: seq<byte>)
    requires bs != [] && StartsWhole(bs) && Needed(bs[0]) == 1
    ensures EncodeChar(First(bs).0) == bs[..2] && First(bs).1 == 2
  {
    Payload(0, 0, Bits(bs[0], 0xC0), Bits(bs[1], 0x80));
  }

  lemma EncodedThree(bs: seq<byte>)
    requires bs != [] && StartsWhole(bs) && Needed(bs[0]) == 2
    ensures EncodeChar(First(bs).0) == bs[..3] && First(bs).1 == 3
  {
    Payload(0, Bits(bs[0], 0xE0), Bits(bs[1], 0x80), Bits(bs[2], 0x80));
  }

  lemma EncodedFour(bs: seq<byte>)
    requires bs != [] && StartsWhole(bs) && Needed(bs[0]) == 3
    ensures EncodeChar(First(bs).0) == bs[..4] && First(bs).1 == 4
  {
    Payload(Bits(bs[0], 0xF0), Bits(bs[1], 0x80), Bits(bs[2], 0x80), Bits(bs[3], 0x80));
  }

  /** A whole character is what its first bytes are the encoding of. */
  lemma EncodedFirst(bs: seq<byte>)
    requires bs != [] && StartsWhole(bs)
    ensures EncodeChar(First(bs).0) == bs[..First(bs).1]
  {
    match Needed(bs[0])
    case 1 => EncodedTwo(bs);
    case 2 => EncodedThree(bs);
    case 3 => EncodedFour(bs);
    case _ =>
  }

  lemma {:induction false} EncodeOfDecode(bs: seq<byte>)
    requires WellFormed(bs)
    ensures Encode(Decode(bs)) == bs
  {
    if bs != [] {
      EncodedFirst(bs);
      EncodeOfDecode(bs[First(bs).1..]);
    }
  }

  /** A strict decoder accepts exactly the encodings of texts. */
  lemma WellFormedExactly(bs: seq<byte>)
    ensures WellFormed(bs) <==> exists s :: Encode(s) == bs
  {
    if WellFormed(bs) {
      EncodeOfDecode(bs);
    }
    if s :| Encode(s) == bs {
      DecodeOfEncode(s);
    }
  }
}
