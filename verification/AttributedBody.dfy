/** Text extraction from an iMessage `attributedBody` blob. */
module AttributedBody {
  import opened Prelude
  import opened Trimming
  import opened Utf8

  const NS_STRING: seq<Byte> := [0x4e, 0x53, 0x53, 0x74, 0x72, 0x69, 0x6e, 0x67]
  const TYPED_STRING_TAG: Byte := 0x2b
  const TYPED_STREAM_END: seq<Byte> := [0x86, 0x84]
  const MAX_SAFE_INTEGER := 9007199254740991

  // --------------------------------------------------------------- lengths

  function LittleEndian(bs: seq<Byte>): nat {
    if bs == [] then 0 else bs[0] as int + 0x100 * LittleEndian(bs[1..])
  }

  function ExtraBytes(marker: Byte): nat {
    if marker == 0x81 then 2 else if marker == 0x82 then 4 else if marker == 0x83 then 8 else 0
  }

  /** The bytes a length takes at `offset` and its value. */
  function DecodeLength(data: seq<Byte>, offset: nat): (r: Option<(nat, nat)>)
    ensures r.Some? ==> offset + r.value.0 <= |data| && r.value.0 > 0
  {
    if offset >= |data| then None
    else
      var first := data[offset];
      if first < 0x80 then Some((1, first as int))
      else
        var extra := ExtraBytes(first);
        if extra == 0 || offset + 1 + extra > |data| then None
        else
          var value := LittleEndian(data[offset + 1..offset + 1 + extra]);
          if value > MAX_SAFE_INTEGER then None else Some((1 + extra, value))
  }

  function Power256(n: nat): nat {
    if n == 0 then 1 else 0x100 * Power256(n - 1)
  }

  lemma {:induction false} LittleEndianSnoc(bs: seq<Byte>, b: Byte)
    ensures LittleEndian(bs + [b]) == LittleEndian(bs) + b as int * Power256(|bs|)
  {
    if bs == [] {
      assert [] + [b] == [b];
      assert LittleEndian([b]) == b as int + 0x100 * LittleEndian([]);
    } else {
      LittleEndianSnoc(bs[1..], b);
      assert (bs + [b])[0] == bs[0] && (bs + [b])[1..] == bs[1..] + [b];
      ScaledDigit(b, Power256(|bs| - 1));
    }
  }

  lemma ScaledDigit(b: int, p: int)
    ensures b * (0x100 * p) == 0x100 * (b * p)
  {
  }

  /** Accumulates the length byte by byte, least significant first. */
  method ReadLength(data: seq<Byte>, offset: nat) returns (r: Option<(nat, nat)>)
    ensures r == DecodeLength(data, offset)
  {
    if offset >= |data| { return None; }
    var first := data[offset];
    if first < 0x80 { return Some((1, first as int)); }
    var extra := ExtraBytes(first);
    if extra == 0 || offset + 1 + extra > |data| { return None; }
    var value: nat := 0;
    var weight: nat := 1;
    for i := 0 to extra
      invariant weight == Power256(i)
      invariant value == LittleEndian(data[offset + 1..offset + 1 + i])
    {
      LittleEndianSnoc(data[offset + 1..offset + 1 + i], data[offset + 1 + i]);
      assert data[offset + 1..offset + 1 + (i + 1)] == data[offset + 1..offset + 1 + i] + [data[offset + 1 + i]];
      value := value + data[offset + 1 + i] as int * weight;
      weight := 0x100 * weight;
    }
    if value > MAX_SAFE_INTEGER { return None; }
    return Some((1 + extra, value));
  }

  function BytesOf(value: nat, count: nat): (bs: seq<Byte>)
    ensures |bs| == count
  {
    if count == 0 then [] else [value % 0x100] + BytesOf(value / 0x100, count - 1)
  }

  /** The writer's side: a length in 1, 3, 5 or 9 bytes. */
  function EncodeLength(value: nat, extra: nat): (bs: seq<Byte>)
    requires FitsLength(value, extra)
    ensures |bs| == 1 + extra
  {
    if extra == 0 then [value]
    else [if extra == 2 then 0x81 else if extra == 4 then 0x82 else 0x83] + BytesOf(value, extra)
  }

  predicate FitsLength(value: nat, extra: nat) {
    && value <= MAX_SAFE_INTEGER
    && (if extra == 0 then value < 0x80 else extra in {2, 4, 8} && value < Power256(extra))
  }

  lemma {:induction false} BytesOfValue(value: nat, count: nat)
    requires value < Power256(count)
    ensures LittleEndian(BytesOf(value, count)) == value
  {
    if count > 0 { BytesOfValue(value / 0x100, count - 1); }
  }

  lemma MiddleOf(before: seq<Byte>, middle: seq<Byte>, rest: seq<Byte>, from: nat, to: nat)
    requires from <= to <= |middle|
    ensures (before + middle + rest)[|before| + from..|before| + to] == middle[from..to]
  {
    var data := before + middle + rest;
    assert forall k :: 0 <= k < |middle| ==> data[|before| + k] == middle[k];
  }

  /** Every width a length fits in decodes to it. */
  lemma LengthRoundTrip(value: nat, extra: nat, before: seq<Byte>, rest: seq<Byte>)
    requires FitsLength(value, extra)
    ensures DecodeLength(before + EncodeLength(value, extra) + rest, |before|) == Some((1 + extra, value))
  {
    hide BytesOf, LittleEndian;
    var length := EncodeLength(value, extra);
    var data := before + length + rest;
    assert data[|before|] == length[0];
    if extra > 0 {
      MiddleOf(before, length, rest, 1, 1 + extra);
      assert length[1..1 + extra] == BytesOf(value, extra);
      BytesOfValue(value, extra);
    }
  }

  lemma {:induction false} LittleEndianBytes(bs: seq<Byte>)
    ensures LittleEndian(bs) < Power256(|bs|) && BytesOf(LittleEndian(bs), |bs|) == bs
  {
    if bs != [] {
      LittleEndianBytes(bs[1..]);
      assert bs == [bs[0]] + bs[1..];
    }
  }

  /** And nothing else does: what decodes is an encoding of the length in the bytes it takes. */
  lemma DecodedLengthIsEncoded(data: seq<Byte>, offset: nat)
    requires DecodeLength(data, offset).Some?
    ensures var (size, value) := DecodeLength(data, offset).value;
            && FitsLength(value, size - 1)
            && data[offset..offset + size] == EncodeLength(value, size - 1)
  {
    hide BytesOf, LittleEndian;
    var (size, value) := DecodeLength(data, offset).value;
    assert data[offset..offset + size] == [data[offset]] + data[offset + 1..offset + size];
    LittleEndianBytes(data[offset + 1..offset + size]);
  }

  // ------------------------------------------------------------------ text

  const OBJECT_REPLACEMENT := '\U{fffc}'
  const BYTE_ORDER_MARK := '\U{feff}'

  /** The fatal `TextDecoder`: malformed input is rejected and one leading byte order mark is dropped. */
  function DecodeUtf8(bs: seq<Byte>): Option<string> {
    var text := Decode(bs);
    if text.Some? && text.value != "" && text.value[0] == BYTE_ORDER_MARK then Some(text.value[1..]) else text
  }

  function Without(s: string, c: char): string {
    if s == "" then "" else (if s[0] == c then "" else [s[0]]) + Without(s[1..], c)
  }

  predicate StartsWith(s: string, prefix: string) {
    prefix <= s
  }

  function NormalizeDecodedText(value: string): (r: Option<string>)
    ensures r.Some? ==> r.value != ""
  {
    var stripped := Trimmed(Without(value, OBJECT_REPLACEMENT));
    if stripped == "" then
      if OBJECT_REPLACEMENT in value then Some("[attachment]") else None
    else if StartsWith(stripped, "NS") || StartsWith(stripped, "_NS") || StartsWith(stripped, "NSMutable") then None
    else Some(stripped)
  }

  function NormalizeDecoded(decoded: Option<string>): (r: Option<string>)
    ensures r.Some? ==> r.value != ""
  {
    if decoded.Some? && decoded.value != "" then NormalizeDecodedText(decoded.value) else None
  }

  /** A dropped byte order mark makes no difference: trimming drops it anyway. */
  lemma ByteOrderMarkIsTrimmed(text: string)
    ensures NormalizeDecoded(DecodeUtf8(Encode(text))) == NormalizeDecodedText(text)
  {
    RoundTrip(text);
    if text != "" && text[0] == BYTE_ORDER_MARK {
      assert Without(text, OBJECT_REPLACEMENT) == [BYTE_ORDER_MARK] + Without(text[1..], OBJECT_REPLACEMENT);
      var w := Without(text, OBJECT_REPLACEMENT);
      assert w[1..] == Without(text[1..], OBJECT_REPLACEMENT);
      assert TrimStart(w) == TrimStart(w[1..]);
      assert OBJECT_REPLACEMENT in text <==> OBJECT_REPLACEMENT in text[1..];
    }
  }

  lemma {:induction false} WithoutConcat(s: string, t: string, c: char)
    ensures Without(s + t, c) == Without(s, c) + Without(t, c)
  {
    if s == "" {
      assert s + t == t;
    } else {
      assert (s + t)[1..] == s[1..] + t;
      WithoutConcat(s[1..], t, c);
    }
  }

  lemma {:induction false} WithoutAbsent(s: string, c: char)
    requires c !in s
    ensures Without(s, c) == s
  {
    if s != "" { WithoutAbsent(s[1..], c); }
  }

  /** What normalising ignores at both ends of a text. */
  predicate IsPadding(s: string) {
    forall c | c in s :: IsSpace(c) || c == OBJECT_REPLACEMENT
  }

  lemma {:induction false} PaddingIsWhite(s: string)
    requires IsPadding(s)
    ensures IsWhite(Without(s, OBJECT_REPLACEMENT))
  {
    if s != "" { PaddingIsWhite(s[1..]); }
  }

  /** White space and attachment markers around a text do not matter, and class names are no text. */
  lemma PaddedTextNormalizes(before: string, text: string, after: string)
    requires IsPadding(before) && IsPadding(after) && text != "" && OBJECT_REPLACEMENT !in text
    requires NoOuterSpace(text)
    ensures NormalizeDecodedText(before + text + after)
            == if text[0] == 'N' && |text| > 1 && text[1] == 'S' then None
               else if text[0] == '_' && |text| > 2 && text[1] == 'N' && text[2] == 'S' then None
               else Some(text)
  {
    hide Without;
    var a, b := Without(before, OBJECT_REPLACEMENT), Without(after, OBJECT_REPLACEMENT);
    WithoutConcat(before + text, after, OBJECT_REPLACEMENT);
    WithoutConcat(before, text, OBJECT_REPLACEMENT);
    WithoutAbsent(text, OBJECT_REPLACEMENT);
    PaddingIsWhite(before);
    PaddingIsWhite(after);
    WhiteIsTrimmed(a, text, b);
  }

  /** A text of nothing else stands for an attachment if it holds a marker. */
  lemma PaddingNormalizes(s: string)
    requires IsPadding(s)
    ensures NormalizeDecodedText(s) == if OBJECT_REPLACEMENT in s then Some("[attachment]") else None
  {
    PaddingIsWhite(s);
    WhiteIsBlank(Without(s, OBJECT_REPLACEMENT));
  }

  // -------------------------------------------------------------- decoding

  predicate OccursAt(data: seq<Byte>, pattern: seq<Byte>, i: nat) {
    i + |pattern| <= |data| && data[i..i + |pattern|] == pattern
  }

  function IndexOf(data: seq<Byte>, pattern: seq<Byte>, from: nat): (r: Option<nat>)
    ensures r.Some? ==> from <= r.value && OccursAt(data, pattern, r.value)
                        && forall i :: from <= i < r.value ==> !OccursAt(data, pattern, i)
    ensures r.None? ==> forall i :: from <= i ==> !OccursAt(data, pattern, i)
    decreases |data| - from
  {
    if from + |pattern| > |data| then None
    else if OccursAt(data, pattern, from) then Some(from)
    else IndexOf(data, pattern, from + 1)
  }

  function DecodeLengthPrefixedString(data: seq<Byte>, offset: nat): (r: Option<string>)
    ensures r.Some? ==> r.value != ""
  {
    var length := DecodeLength(data, offset);
    if length.None? then None
    else
      var start := offset + length.value.0;
      var end := start + length.value.1;
      if length.value.1 <= 0 || end > |data| then None
      else NormalizeDecoded(DecodeUtf8(data[start..end]))
  }

  /** The bytes up to the terminator, without an embedded length that accounts for all the rest of them. */
  function Unprefixed(bytes: seq<Byte>): seq<Byte> {
    var embedded := DecodeLength(bytes, 0);
    if embedded.Some? && embedded.value.0 + embedded.value.1 == |bytes| then bytes[embedded.value.0..] else bytes
  }

  function DecodeEndDelimitedString(data: seq<Byte>, offset: nat): (r: Option<string>)
    ensures r.Some? ==> r.value != ""
  {
    var end := IndexOf(data, TYPED_STREAM_END, offset);
    if end.None? || end.value <= offset then None
    else NormalizeDecoded(DecodeUtf8(Unprefixed(data[offset..end.value])))
  }

  function DecodeTypedStringAfterTag(data: seq<Byte>, offset: nat): (r: Option<string>)
    ensures r.Some? ==> r.value != ""
  {
    var delimited := DecodeEndDelimitedString(data, offset);
    if delimited.Some? then delimited else DecodeLengthPrefixedString(data, offset)
  }

  /** The text behind the first tag at or after `from` that decodes. */
  function FirstDecodable(data: seq<Byte>, from: nat): Option<string>
    decreases |data| - from
  {
    if from + 1 >= |data| then None
    else if data[from] == TYPED_STRING_TAG && DecodeTypedStringAfterTag(data, from + 1).Some? then
      DecodeTypedStringAfterTag(data, from + 1)
    else FirstDecodable(data, from + 1)
  }

  /** What extraction means: the first tag behind the first marker that decodes. */
  function ExtractedText(blob: seq<Byte>): Option<string> {
    var marker := IndexOf(blob, NS_STRING, 0);
    if marker.None? then None else FirstDecodable(blob, marker.value + |NS_STRING|)
  }

  lemma {:induction false} NothingDecodableLater(data: seq<Byte>, from: nat, later: nat)
    requires FirstDecodable(data, from) == None && from <= later
    ensures FirstDecodable(data, later) == None
    decreases later - from
  {
    if from < later && from + 1 < |data| { NothingDecodableLater(data, from + 1, later); }
  }

  /** The scan the original runs, marker by marker; only the first marker can ever yield a text. */
  method ExtractTextFromAttributedBody(blob: Option<seq<Byte>>) returns (r: Option<string>)
    ensures r == if blob.None? then None else ExtractedText(blob.value)
  {
    hide DecodeTypedStringAfterTag, OccursAt;
    if blob.None? || |blob.value| == 0 { return None; }
    var data := blob.value;
    var searchStart := 0;
    while searchStart < |data|
      invariant searchStart > 0 ==>
        IndexOf(data, NS_STRING, 0).Some? && ExtractedText(data).None?
            && IndexOf(data, NS_STRING, 0).value + |NS_STRING| <= searchStart
      decreases |data| - searchStart
    {
      var marker := IndexOf(data, NS_STRING, searchStart);
      if marker.None? { return None; }
      var afterMarker := marker.value + |NS_STRING|;
      ghost var first := IndexOf(data, NS_STRING, 0).value + |NS_STRING|;
      if searchStart > 0 { NothingDecodableLater(data, first, afterMarker); }
      var i := afterMarker;
      while i < |data| - 1
        invariant afterMarker <= i
        invariant FirstDecodable(data, afterMarker) == FirstDecodable(data, i)
        decreases |data| - i
      {
        if data[i] == TYPED_STRING_TAG {
          var decoded := DecodeTypedStringAfterTag(data, i + 1);
          if decoded.Some? { return decoded; }
        }
        i := i + 1;
      }
      searchStart := afterMarker;
    }
    if searchStart == 0 { assert false; }
    return None;
  }

  // ------------------------------------------------------------ round trip

  /** A typed string as it stands behind its tag: length, text and terminator. */
  function TypedString(text: string, extra: nat): seq<Byte>
    requires FitsLength(|Encode(text)|, extra)
  {
    EncodeLength(|Encode(text)|, extra) + Encode(text) + TYPED_STREAM_END
  }

  lemma NonemptyEncoding(text: string)
    requires text != ""
    ensures Encode(text) != []
  {
    EncodedCharShape(text[0]);
  }

  lemma TypedStringLayout(before: seq<Byte>, text: string, extra: nat, rest: seq<Byte>)
    requires FitsLength(|Encode(text)|, extra)
    ensures var n := |Encode(text)|;
            var data := before + TypedString(text, extra) + rest;
            var start := |before| + 1 + extra;
            && DecodeLength(data, |before|) == Some((1 + extra, n))
            && start + n + 2 <= |data| && data[start..start + n] == Encode(text)
            && data[|before|..start + n] == EncodeLength(n, extra) + Encode(text)
            && OccursAt(data, TYPED_STREAM_END, start + n)
  {
    hide Encode, EncodeLength, DecodeLength, FitsLength;
    var n := |Encode(text)|;
    var length, typed := EncodeLength(n, extra), TypedString(text, extra);
    var after := Encode(text) + TYPED_STREAM_END + rest;
    TypedStringParts(length, Encode(text));
    MiddleOf(before, typed, rest, 1 + extra, 1 + extra + n);
    MiddleOf(before, typed, rest, 0, 1 + extra + n);
    MiddleOf(before, typed, rest, 1 + extra + n, 1 + extra + n + 2);
    LengthRoundTrip(n, extra, before, after);
    RegroupTyped(before, length, Encode(text), rest);
  }

  lemma TypedStringParts(length: seq<Byte>, text: seq<Byte>)
    ensures var typed := length + text + TYPED_STREAM_END;
            && typed[|length|..|length| + |text|] == text
            && typed[0..|length| + |text|] == length + text
            && typed[|length| + |text|..|length| + |text| + 2] == TYPED_STREAM_END
  {
  }

  lemma RegroupTyped(before: seq<Byte>, length: seq<Byte>, text: seq<Byte>, rest: seq<Byte>)
    ensures before + (length + text + TYPED_STREAM_END) + rest == before + length + (text + TYPED_STREAM_END + rest)
  {
  }

  lemma PrefixedDecodes(before: seq<Byte>, text: string, extra: nat, rest: seq<Byte>)
    requires FitsLength(|Encode(text)|, extra) && text != ""
    ensures DecodeLengthPrefixedString(before + TypedString(text, extra) + rest, |before|) == NormalizeDecodedText(text)
  {
    hide Encode, EncodeLength, DecodeLength, FitsLength;
    hide TypedString, NormalizeDecodedText, NormalizeDecoded, DecodeUtf8;
    TypedStringLayout(before, text, extra, rest);
    NonemptyEncoding(text);
    ByteOrderMarkIsTrimmed(text);
  }

  lemma LengthLead(value: nat, extra: nat)
    requires FitsLength(value, extra)
    ensures var first := EncodeLength(value, extra)[0];
            first != 0x86 && (extra > 0 ==> 0x80 < first < 0x84 && ExtraBytes(first) == extra)
  {
  }

  lemma CutInLengthIsMalformed(value: nat, extra: nat, cut: nat)
    requires FitsLength(value, extra) && cut < 1 + extra && EncodeLength(value, extra)[cut] == 0x86
    ensures cut > 0 && DecodeUtf8(Unprefixed(EncodeLength(value, extra)[..cut])) == None
  {
    LengthLead(value, extra);
    var bytes := EncodeLength(value, extra)[..cut];
    assert cut > 0 && bytes[0] == EncodeLength(value, extra)[0];
    assert DecodeLength(bytes, 0) == None;
    assert DecodeFirst(bytes) == None;
  }

  lemma CutInTextIsMalformed(text: string, extra: nat, cut: nat)
    requires FitsLength(|Encode(text)|, extra) && cut < |Encode(text)| && Encode(text)[cut] == 0x86
    ensures DecodeUtf8(Unprefixed(EncodeLength(|Encode(text)|, extra) + Encode(text)[..cut])) == None
  {
    hide Encode, EncodeChar;
    var n := |Encode(text)|;
    var length := EncodeLength(n, extra);
    var part := Encode(text)[..cut];
    var bytes := length + part;
    LengthLead(n, extra);
    LengthRoundTrip(n, extra, [], part);
    assert [] + length + part == bytes;
    assert Unprefixed(bytes) == bytes;
    CutBeforeContinuationIsMalformed(text, cut);
    if extra == 0 {
      assert bytes[1..] == part;
      assert DecodeFirst(bytes) == Some((bytes[0] as char, 1));
    } else {
      assert DecodeFirst(bytes) == None;
    }
  }

  /** A cut inside the length, or inside the text in front of a byte 86, leaves malformed UTF-8. */
  lemma EarlyCutIsMalformed(text: string, extra: nat, cut: nat)
    requires FitsLength(|Encode(text)|, extra)
    requires cut < 1 + extra + |Encode(text)|
    requires (EncodeLength(|Encode(text)|, extra) + Encode(text))[cut] == 0x86
    ensures cut > 0
    ensures var bytes := (EncodeLength(|Encode(text)|, extra) + Encode(text))[..cut];
            DecodeUtf8(Unprefixed(bytes)) == None
  {
    hide Encode, EncodeLength, FitsLength, Unprefixed, DecodeUtf8;
    var n := |Encode(text)|;
    var length := EncodeLength(n, extra);
    var bytes := (length + Encode(text))[..cut];
    if cut < 1 + extra {
      assert bytes == length[..cut];
      CutInLengthIsMalformed(n, extra, cut);
    } else {
      assert bytes == length + Encode(text)[..cut - 1 - extra];
      CutInTextIsMalformed(text, extra, cut - 1 - extra);
    }
  }

  lemma WholeCutDecodes(text: string, extra: nat)
    requires FitsLength(|Encode(text)|, extra)
    ensures var bytes := EncodeLength(|Encode(text)|, extra) + Encode(text);
            NormalizeDecoded(DecodeUtf8(Unprefixed(bytes))) == NormalizeDecodedText(text)
  {
    hide Encode, EncodeLength, FitsLength, DecodeLength, DecodeUtf8, NormalizeDecoded, NormalizeDecodedText;
    var length := EncodeLength(|Encode(text)|, extra);
    var bytes := length + Encode(text);
    LengthRoundTrip(|Encode(text)|, extra, [], Encode(text));
    assert [] + length + Encode(text) == bytes;
    assert bytes[1 + extra..] == Encode(text);
    ByteOrderMarkIsTrimmed(text);
  }

  /** Whatever the first terminator found is, the end-delimited strategy yields the text or nothing. */
  lemma DelimitedDecodes(before: seq<Byte>, text: string, extra: nat, rest: seq<Byte>)
    requires FitsLength(|Encode(text)|, extra) && text != ""
    ensures var r := DecodeEndDelimitedString(before + TypedString(text, extra) + rest, |before|);
            r == None || r == NormalizeDecodedText(text)
  {
    hide Encode, EncodeLength, DecodeLength, FitsLength, TypedString, NormalizeDecodedText, DecodeUtf8, Unprefixed;
    var body := EncodeLength(|Encode(text)|, extra) + Encode(text);
    var data := before + TypedString(text, extra) + rest;
    var offset := |before|;
    TypedStringLayout(before, text, extra, rest);
    assert data[offset..offset + |body|] == body;
    var end := IndexOf(data, TYPED_STREAM_END, offset).value;
    var cut := end - offset;
    assert cut <= |body|;
    assert data[offset..end] == body[..cut];
    if cut < |body| {
      assert body[cut] == data[end] == data[end..end + 2][0];
      EarlyCutIsMalformed(text, extra, cut);
    } else {
      assert body[..cut] == body;
      WholeCutDecodes(text, extra);
    }
  }

  /**
   * A blob whose first decodable tag carries a typed string yields exactly its normalised text, for every length
   * width and every text, whatever byte pairs 86 84 occur inside the length or the characters.
   */
  lemma ExtractionRoundTrip(head: seq<Byte>, text: string, extra: nat, tail: seq<Byte>)
    requires FitsLength(|Encode(text)|, extra)
    requires NormalizeDecodedText(text).Some?
    requires IndexOf(head, NS_STRING, 0).Some?
    requires var blob := head + [TYPED_STRING_TAG] + TypedString(text, extra) + tail;
             forall i :: IndexOf(head, NS_STRING, 0).value + |NS_STRING| <= i < |head| && head[i] == TYPED_STRING_TAG
                         ==> DecodeTypedStringAfterTag(blob, i + 1).None?
    ensures ExtractedText(head + [TYPED_STRING_TAG] + TypedString(text, extra) + tail) == NormalizeDecodedText(text)
  {
    hide Encode, EncodeLength, FitsLength, TypedString, NormalizeDecodedText, DecodeTypedStringAfterTag, IndexOf;
    var typed := [TYPED_STRING_TAG] + TypedString(text, extra) + tail;
    var blob := head + [TYPED_STRING_TAG] + TypedString(text, extra) + tail;
    SameMarker(head, typed);
    assert blob == head + typed && typed[0] == TYPED_STRING_TAG;
    TagDecodes(head + [TYPED_STRING_TAG], text, extra, tail);
    assert blob[|head|] == TYPED_STRING_TAG;
    FirstDecodableFrom(blob, IndexOf(head, NS_STRING, 0).value + |NS_STRING|, |head|);
  }

  lemma TagDecodes(before: seq<Byte>, text: string, extra: nat, rest: seq<Byte>)
    requires FitsLength(|Encode(text)|, extra) && NormalizeDecodedText(text).Some?
    ensures |before| < |before + TypedString(text, extra) + rest|
    ensures DecodeTypedStringAfterTag(before + TypedString(text, extra) + rest, |before|) == NormalizeDecodedText(text)
  {
    hide Encode, EncodeLength, FitsLength;
    hide TypedString, NormalizeDecodedText, DecodeEndDelimitedString, DecodeLengthPrefixedString;
    EmptyTextDoesNotNormalize();
    TypedStringLayout(before, text, extra, rest);
    PrefixedDecodes(before, text, extra, rest);
    DelimitedDecodes(before, text, extra, rest);
  }

  lemma {:induction false} FirstDecodableFrom(data: seq<Byte>, from: nat, at: nat)
    requires from <= at && at + 1 < |data| && data[at] == TYPED_STRING_TAG
        && DecodeTypedStringAfterTag(data, at + 1).Some?
    requires forall i :: from <= i < at && data[i] == TYPED_STRING_TAG ==> DecodeTypedStringAfterTag(data, i + 1).None?
    ensures FirstDecodable(data, from) == DecodeTypedStringAfterTag(data, at + 1)
    decreases at - from
  {
    hide DecodeTypedStringAfterTag;
    if from < at { FirstDecodableFrom(data, from + 1, at); }
  }

  lemma EmptyTextDoesNotNormalize()
    ensures NormalizeDecodedText("") == None
  {
  }

  lemma SameMarker(head: seq<Byte>, rest: seq<Byte>)
    requires IndexOf(head, NS_STRING, 0).Some?
    ensures IndexOf(head + rest, NS_STRING, 0) == IndexOf(head, NS_STRING, 0)
  {
    var marker := IndexOf(head, NS_STRING, 0).value;
    var blob := head + rest;
    forall i: nat | i <= marker ensures OccursAt(blob, NS_STRING, i) == OccursAt(head, NS_STRING, i) {
      assert blob[i..i + |NS_STRING|] == head[i..i + |NS_STRING|];
    }
  }
}
