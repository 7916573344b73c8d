/** The compact Base62 form of a UUID (codec/url62_uuid.go), on its 16 bytes. */
module UuidUrl62 {
  import opened Wrappers
  import opened Numerals
  import opened AlphabetCodec

  const UUID_BYTES := 16
  const MAX_LENGTH := 22

  type Uuid = s: seq<Byte> | |s| == UUID_BYTES witness seq(UUID_BYTES, _ => 0)

  datatype UuidError = Blank | TooLong | NotDecodable | TooManyBytes | NotCanonical

  ghost predicate IsBase62(e: Encoding) {
    e.Valid() && e.alphabet == Base62Alphabet()
  }

  const ZERO_TEXT: seq<Byte> := ['0' as int]

  function EncodeUuid(e: Encoding, uuid: Uuid): seq<Byte>
    requires IsBase62(e)
  {
    var numericBytes := Strip(uuid);
    if numericBytes == [] then ZERO_TEXT else Encoded(e, numericBytes)
  }

  predicate IsBlank(value: seq<Byte>) {
    forall i | 0 <= i < |value| :: value[i] == 32 || 9 <= value[i] <= 13
  }

  function DecodeUuid(e: Encoding, value: seq<Byte>): Result<Uuid, UuidError>
    requires IsBase62(e)
  {
    if IsBlank(value) then Err(Blank)
    else if |value| > MAX_LENGTH then Err(TooLong)
    else if exists i | 0 <= i < |value| :: !IsLetter(e, value[i]) then Err(NotDecodable)
    else
      var decoded := Decoded(e, value);
      if |decoded| > UUID_BYTES then Err(TooManyBytes)
      else
        var parsed: seq<Byte> := Zeros(UUID_BYTES - |decoded|) + decoded;
        if Encoded(e, Strip(parsed)) != value then
          if Strip(parsed) == [] && value == ZERO_TEXT then Ok(parsed) else Err(NotCanonical)
        else Ok(parsed)
  }

  /** Eleven digits hold eight bytes. */
  lemma ElevenForEight()
    ensures Pow(256, 8) <= Pow(62, 11)
  {
    assert Pow(256, 8) == 0x1_0000_0000_0000_0000;
  }

  /** A 128-bit number has at most 22 digits in base 62. */
  lemma LengthBound(uuid: Uuid)
    ensures 0 <= Val(uuid, 256) && |Digits(Val(uuid, 256), 62)| <= MAX_LENGTH
  {
    hide Digits, Pow;
    ValBound(uuid, 256);
    assert Pow(256, 16) <= Pow(62, 22) by {
      ElevenForEight();
      PowBaseMonotone(Pow(256, 8), Pow(62, 11), 2);
      PowOfPow(256, 8, 2);
      PowOfPow(62, 11, 2);
    }
    DigitsLength(Val(uuid, 256), 62, 22);
  }

  lemma Base62HasNoBlank(e: Encoding, c: Byte)
    requires IsBase62(e) && IsLetter(e, c)
    ensures '0' as int <= c
  {
    assert e.alphabet[e.indexes[c]] == c;
  }

  /** The shape of a canonical text: not blank, over the alphabet, and short. */
  lemma EncodedShape(e: Encoding, uuid: Uuid)
    requires IsBase62(e) && Strip(uuid) != []
    ensures var text := Encoded(e, Strip(uuid));
            1 <= |text| <= MAX_LENGTH && !IsBlank(text) && OverAlphabet(e, text)
  {
    hide Digits, Val;
    var numericBytes := Strip(uuid);
    var text := Encoded(e, numericBytes);
    ValStrip(uuid, 256);
    LengthBound(uuid);
    assert LeadingZeros(numericBytes) == 0;
    assert Rebase(numericBytes, 256, 62) == Digits(Val(uuid, 256), 62);
    DecodeInvertsEncode(e, numericBytes);
    if text == [] {
      EmptyText(e);
    }
    Base62HasNoBlank(e, text[0]);
  }

  lemma ZeroText(e: Encoding)
    requires IsBase62(e)
    ensures !IsBlank(ZERO_TEXT) && OverAlphabet(e, ZERO_TEXT) && Decoded(e, ZERO_TEXT) == [0]
  {
    assert e.alphabet[0] == '0' as int;
    var digits := Indexes(e, ZERO_TEXT);
    assert digits == [0];
    assert LeadingZeros([0]) == 1 by { assert [0][1..] == []; }
    assert Val([0], 62) == 0 by { assert [0][..0] == []; }
    assert Zeros(1) + Digits(0, 256) == [0];
  }

  lemma Padding(uuid: Uuid)
    ensures Zeros(UUID_BYTES - |Strip(uuid)|) + Strip(uuid) == uuid
  {
  }

  /** Every 128-bit value is recovered from its text, which has 1 to 22 letters. */
  lemma DecodeInvertsEncodeUuid(e: Encoding, uuid: Uuid)
    requires IsBase62(e)
    ensures DecodeUuid(e, EncodeUuid(e, uuid)) == Ok(uuid)
    ensures 1 <= |EncodeUuid(e, uuid)| <= MAX_LENGTH
    ensures EncodeUuid(e, uuid) == ZERO_TEXT <==> forall i | 0 <= i < UUID_BYTES :: uuid[i] == 0
  {
    hide Encoded, Decoded;
    Padding(uuid);
    ZeroText(e);
    if Strip(uuid) == [] {
      assert Zeros(15) + [0] == uuid;
    } else {
      EncodedShape(e, uuid);
      DecodeInvertsEncode(e, Strip(uuid));
    }
  }

  /** Only canonical texts are accepted: an accepted text is the text of the value it decodes to. */
  lemma AcceptsOnlyEncodings(e: Encoding, value: seq<Byte>)
    requires IsBase62(e) && DecodeUuid(e, value).Ok?
    ensures EncodeUuid(e, DecodeUuid(e, value).value) == value
  {
    hide Decoded;
    if Strip(DecodeUuid(e, value).value) == [] {
      EmptyText(e);
    }
  }

  /** The text of a value denotes it, most significant letter first, without a zero letter in front. */
  lemma TextMeaning(e: Encoding, uuid: Uuid)
    requires IsBase62(e)
    ensures OverAlphabet(e, EncodeUuid(e, uuid))
    ensures Val(Indexes(e, EncodeUuid(e, uuid)), 62) == Val(uuid, 256)
    ensures EncodeUuid(e, uuid) != [] && (EncodeUuid(e, uuid) == ZERO_TEXT || EncodeUuid(e, uuid)[0] != '0' as int)
  {
    hide Val, Encoded;
    var numericBytes := Strip(uuid);
    ValStrip(uuid, 256);
    if numericBytes == [] {
      ZeroText(e);
      DecodedMeaning(e, ZERO_TEXT);
      ZeroValues();
    } else {
      EncodedMeaning(e, numericBytes);
      EncodedShape(e, uuid);
      var text := Encoded(e, numericBytes);
      assert LeadingZeros(numericBytes) == 0;
      assert e.alphabet[0] == '0' as int && Indexes(e, text)[0] == e.indexes[text[0]];
    }
  }

  lemma ZeroValues()
    ensures Val([], 256) == 0 && Val([0], 256) == 0
  {
    assert [0][..0] == [];
  }

  /** Why a text is rejected: the first of these that applies. */
  lemma Rejections(e: Encoding, value: seq<Byte>)
    requires IsBase62(e)
    ensures var r := DecodeUuid(e, value);
            && (r == Err(Blank) <==> forall i | 0 <= i < |value| :: value[i] == 32 || 9 <= value[i] <= 13)
            && (r == Err(TooLong) <==> !IsBlank(value) && |value| > 22)
            && (r == Err(NotDecodable) <==> !IsBlank(value) && |value| <= 22 && !OverAlphabet(e, value))
            && (r == Err(TooManyBytes) <==>
                  !IsBlank(value) && |value| <= 22 && OverAlphabet(e, value) && |Decoded(e, value)| > 16)
  {
    hide Decoded, Encoded, IsLetter;
  }
}
