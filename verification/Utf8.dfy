/** UTF-8 as section 4 of RFC 3629 defines it, with a decoder that rejects every malformed input. */
module Utf8 {
  import opened Prelude

  type Byte = b: int | 0 <= b < 0x100

  function EncodeChar(c: char): seq<Byte> {
    var u := c as int;
    if u < 0x80 then [u]
    else if u < 0x800 then [0xc0 + u / 0x40, 0x80 + u % 0x40]
    else if u < 0x10000 then [0xe0 + u / 0x1000, 0x80 + u / 0x40 % 0x40, 0x80 + u % 0x40]
    else [0xf0 + u / 0x40000, 0x80 + u / 0x1000 % 0x40, 0x80 + u / 0x40 % 0x40, 0x80 + u % 0x40]
  }

  function Encode(s: string): seq<Byte> {
    if s == "" then [] else EncodeChar(s[0]) + Encode(s[1..])
  }

  predicate IsContinuation(b: Byte) {
    0x80 <= b <= 0xbf
  }

  /** What a byte contributes above its marker bits. */
  function Bits(b: Byte, marker: int): int {
    b as int - marker
  }

  /** The character a byte sequence starts with, if it starts with a well-formed one. */
  function DecodeFirst(bs: seq<Byte>): (r: Option<(char, nat)>)
    ensures r.Some? ==> 0 < r.value.1 <= |bs|
  {
    if bs == [] then None
    else if bs[0] < 0x80 then Some((bs[0] as char, 1))
    else if 0xc2 <= bs[0] <= 0xdf then
      if |bs| >= 2 && IsContinuation(bs[1]) then Some(((Bits(bs[0], 0xc0) * 0x40 + Bits(bs[1], 0x80)) as char, 2))
          else None
    else if 0xe0 <= bs[0] <= 0xef then
      if |bs| >= 3 && IsContinuation(bs[1]) && IsContinuation(bs[2])
         && (bs[0] == 0xe0 ==> bs[1] >= 0xa0) && (bs[0] == 0xed ==> bs[1] <= 0x9f)
      then Some(((Bits(bs[0], 0xe0) * 0x1000 + Bits(bs[1], 0x80) * 0x40 + Bits(bs[2], 0x80)) as char, 3)) else None
    else if 0xf0 <= bs[0] <= 0xf4 then
      if |bs| >= 4 && IsContinuation(bs[1]) && IsContinuation(bs[2]) && IsContinuation(bs[3])
         && (bs[0] == 0xf0 ==> bs[1] >= 0x90) && (bs[0] == 0xf4 ==> bs[1] <= 0x8f)
      then Some(((Bits(bs[0], 0xf0) * 0x40000 + Bits(bs[1], 0x80) * 0x1000 + Bits(bs[2], 0x80) * 0x40
          + Bits(bs[3], 0x80)) as char, 4))
      else None
    else None
  }

  function Decode(bs: seq<Byte>): Option<string>
    decreases |bs|
  {
    if bs == [] then Some("")
    else
      var first := DecodeFirst(bs);
      if first.None? then None
      else
        var rest := Decode(bs[first.value.1..]);
        if rest.None? then None else Some([first.value.0] + rest.value)
  }

  /** Splitting a number into base-64 digits and back. */
  lemma Digits(u: int)
    requires u >= 0
    ensures (u / 0x40) * 0x40 + u % 0x40 == u
    ensures u / 0x1000 == u / 0x40 / 0x40
    ensures u / 0x40000 == u / 0x1000 / 0x40
  {
  }

  lemma FirstOfTwo(c: char, rest: seq<Byte>)
    requires 0x80 <= c as int < 0x800
    ensures DecodeFirst(EncodeChar(c) + rest) == Some((c, 2))
  {
    var u := c as int;
    var bs := EncodeChar(c) + rest;
    assert bs[0] == 0xc0 + u / 0x40 && bs[1] == 0x80 + u % 0x40;
  }

  lemma FirstOfThree(c: char, rest: seq<Byte>)
    requires 0x800 <= c as int < 0x10000
    ensures DecodeFirst(EncodeChar(c) + rest) == Some((c, 3))
  {
    var u := c as int;
    var bs := EncodeChar(c) + rest;
    var a, b, d := u / 0x1000, u / 0x40 % 0x40, u % 0x40;
    assert bs[0] == 0xe0 + a && bs[1] == 0x80 + b && bs[2] == 0x80 + d;
    assert u == a * 0x1000 + b * 0x40 + d by { Digits(u); Digits(u / 0x40); }
  }

  lemma FirstOfFour(c: char, rest: seq<Byte>)
    requires 0x10000 <= c as int
    ensures DecodeFirst(EncodeChar(c) + rest) == Some((c, 4))
  {
    var u := c as int;
    var bs := EncodeChar(c) + rest;
    var a, b, d, e := u / 0x40000, u / 0x1000 % 0x40, u / 0x40 % 0x40, u % 0x40;
    assert bs[0] == 0xf0 + a && bs[1] == 0x80 + b && bs[2] == 0x80 + d && bs[3] == 0x80 + e;
    assert u == a * 0x40000 + b * 0x1000 + d * 0x40 + e by { Digits(u); Digits(u / 0x40); Digits(u / 0x1000); }
  }

  lemma FirstOfEncoded(c: char, rest: seq<Byte>)
    ensures DecodeFirst(EncodeChar(c) + rest) == Some((c, |EncodeChar(c)|))
  {
    hide DecodeFirst;
    var u := c as int;
    if u < 0x80 { FirstOfOne(c, rest); }
    else if u < 0x800 { FirstOfTwo(c, rest); }
    else if u < 0x10000 { FirstOfThree(c, rest); }
    else { FirstOfFour(c, rest); }
  }

  lemma FirstOfOne(c: char, rest: seq<Byte>)
    requires c as int < 0x80
    ensures DecodeFirst(EncodeChar(c) + rest) == Some((c, 1))
  {
  }

  lemma DecodedCons(c: char, tail: seq<Byte>)
    ensures Decode(EncodeChar(c) + tail) == if Decode(tail).Some? then Some([c] + Decode(tail).value) else None
  {
    hide EncodeChar, DecodeFirst;
    FirstOfEncoded(c, tail);
    assert (EncodeChar(c) + tail)[|EncodeChar(c)|..] == tail;
  }

  lemma {:induction false} EncodedThenDecoded(s: string, rest: seq<Byte>)
    ensures Decode(Encode(s) + rest) == if Decode(rest).Some? then Some(s + Decode(rest).value) else None
  {
    hide EncodeChar, DecodeFirst, Decode;
    if s == "" {
      assert Encode(s) + rest == rest;
      assert Decode(rest).Some? ==> s + Decode(rest).value == Decode(rest).value;
    } else {
      var tail := Encode(s[1..]) + rest;
      assert Encode(s) + rest == EncodeChar(s[0]) + tail;
      DecodedCons(s[0], tail);
      EncodedThenDecoded(s[1..], rest);
      if Decode(rest).Some? {
        assert [s[0]] + (s[1..] + Decode(rest).value) == s + Decode(rest).value;
      }
    }
  }

  /** Decoding undoes encoding on every text. */
  lemma RoundTrip(s: string)
    ensures Decode(Encode(s)) == Some(s)
  {
    EncodedThenDecoded(s, []);
    assert Encode(s) + [] == Encode(s) && s + "" == s;
  }

  lemma CutCharacterIsMalformed(c: char, i: nat)
    requires 0 < i < |EncodeChar(c)|
    ensures DecodeFirst(EncodeChar(c)[..i]) == None
  {
  }

  lemma EncodedCharShape(c: char)
    ensures EncodeChar(c) != [] && !IsContinuation(EncodeChar(c)[0])
    ensures forall i :: 1 <= i < |EncodeChar(c)| ==> IsContinuation(EncodeChar(c)[i])
  {
  }

  /** Encoded text cut in front of a continuation byte is never well-formed. */
  lemma {:induction false} CutBeforeContinuationIsMalformed(s: string, i: nat)
    requires i < |Encode(s)| && IsContinuation(Encode(s)[i])
    ensures Decode(Encode(s)[..i]) == None
  {
    if s != "" {
      var e := EncodeChar(s[0]);
      EncodedCharShape(s[0]);
      if i < |e| {
        assert Encode(s)[..i] == e[..i];
        CutCharacterIsMalformed(s[0], i);
      } else {
        var tail := Encode(s[1..]);
        CutBeforeContinuationIsMalformed(s[1..], i - |e|);
        assert Encode(s)[..i] == e + tail[..i - |e|];
        FirstOfEncoded(s[0], tail[..i - |e|]);
        assert (e + tail[..i - |e|])[|e|..] == tail[..i - |e|];
      }
    }
  }

  lemma DecodedTwo(bs: seq<Byte>)
    requires DecodeFirst(bs).Some? && DecodeFirst(bs).value.1 == 2
    ensures EncodeChar(DecodeFirst(bs).value.0) == bs[..2]
  {
    var u := DecodeFirst(bs).value.0 as int;
    assert u / 0x40 == bs[0] as int - 0xc0 && u % 0x40 == bs[1] as int - 0x80;
  }

  lemma DecodedThree(bs: seq<Byte>)
    requires DecodeFirst(bs).Some? && DecodeFirst(bs).value.1 == 3
    ensures EncodeChar(DecodeFirst(bs).value.0) == bs[..3]
  {
    var u := DecodeFirst(bs).value.0 as int;
    var a, b, d := bs[0] as int - 0xe0, bs[1] as int - 0x80, bs[2] as int - 0x80;
    assert u == a * 0x1000 + b * 0x40 + d;
    assert u % 0x40 == d && u / 0x40 == a * 0x40 + b && u / 0x1000 == a;
    assert 0x800 <= u < 0x10000;
  }

  lemma DecodedFour(bs: seq<Byte>)
    requires DecodeFirst(bs).Some? && DecodeFirst(bs).value.1 == 4
    ensures EncodeChar(DecodeFirst(bs).value.0) == bs[..4]
  {
    var u := DecodeFirst(bs).value.0 as int;
    var a, b, d, e := bs[0] as int - 0xf0, bs[1] as int - 0x80, bs[2] as int - 0x80, bs[3] as int - 0x80;
    assert u == a * 0x40000 + b * 0x1000 + d * 0x40 + e;
    FourDigits(a, b, d, e);
    assert 0x10000 <= u;
  }

  lemma LastDigit(x: nat, e: nat)
    requires e < 0x40
    ensures (x * 0x40 + e) / 0x40 == x && (x * 0x40 + e) % 0x40 == e
  {
  }

  lemma FourDigits(a: nat, b: nat, d: nat, e: nat)
    requires b < 0x40 && d < 0x40 && e < 0x40
    ensures var u := a * 0x40000 + b * 0x1000 + d * 0x40 + e;
            u % 0x40 == e && u / 0x40 % 0x40 == d && u / 0x1000 % 0x40 == b && u / 0x40000 == a
  {
    var u := a * 0x40000 + b * 0x1000 + d * 0x40 + e;
    var v, w := a * 0x1000 + b * 0x40 + d, a * 0x40 + b;
    assert u == v * 0x40 + e && v == w * 0x40 + d;
    LastDigit(v, e);
    LastDigit(w, d);
    LastDigit(a, b);
    Digits(u);
  }

  lemma FirstIsEncoding(bs: seq<Byte>)
    requires DecodeFirst(bs).Some?
    ensures var (c, n) := DecodeFirst(bs).value; EncodeChar(c) == bs[..n]
  {
    hide EncodeChar;
    var n := DecodeFirst(bs).value.1;
    if n == 1 { DecodedOne(bs); }
    else if n == 2 { DecodedTwo(bs); }
    else if n == 3 { DecodedThree(bs); }
    else { DecodedFour(bs); }
  }

  lemma DecodedOne(bs: seq<Byte>)
    requires DecodeFirst(bs).Some? && DecodeFirst(bs).value.1 == 1
    ensures EncodeChar(DecodeFirst(bs).value.0) == bs[..1]
  {
  }

  /** The decoder accepts exactly the encodings, so it is injective and rejects overlong forms and surrogates. */
  lemma {:induction false} DecodesExactlyEncodings(bs: seq<Byte>, s: string)
    ensures Decode(bs) == Some(s) <==> bs == Encode(s)
    decreases |bs|
  {
    hide EncodeChar, DecodeFirst;
    if bs == Encode(s) {
      RoundTrip(s);
    } else if bs != [] && Decode(bs) == Some(s) {
      var (c, n) := DecodeFirst(bs).value;
      FirstIsEncoding(bs);
      DecodesExactlyEncodings(bs[n..], s[1..]);
    }
  }
}
