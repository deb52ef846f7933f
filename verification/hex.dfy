/** Base16 as Go's `encoding/hex` implements it (section 8 of RFC 4648):
    `DecodeString` accepts digits of either case and reports the first bad
    character before a bad length; `EncodeToString` writes lower case. */
module Hex {
  import opened Common

  datatype HexError = InvalidByte(c: char) | ErrLength

  predicate IsHexDigit(c: char) {
    ('0' <= c <= '9') || ('a' <= c <= 'f') || ('A' <= c <= 'F')
  }

  predicate IsLowerHexDigit(c: char) {
    ('0' <= c <= '9') || ('a' <= c <= 'f')
  }

  function DigitValue(c: char): (v: nat)
    requires IsHexDigit(c)
    ensures v < 16
  {
    if '0' <= c <= '9' then c as int - '0' as int
    else if 'a' <= c <= 'f' then c as int - 'a' as int + 10
    else c as int - 'A' as int + 10
  }

  /** The lower-case digit for a nibble. */
  function LowerDigit(v: nat): (c: char)
    requires v < 16
    ensures IsLowerHexDigit(c) && DigitValue(c) == v
  {
    if v < 10 then ('0' as int + v) as char else ('a' as int + v - 10) as char
  }

  predicate AllHex(s: string) {
    forall i :: 0 <= i < |s| ==> IsHexDigit(s[i])
  }

  predicate AllLowerHex(s: string) {
    forall i :: 0 <= i < |s| ==> IsLowerHexDigit(s[i])
  }

  /** The byte a pair of digits stands for, high nibble first. */
  function PairValue(hi: char, lo: char): byte
    requires IsHexDigit(hi) && IsHexDigit(lo)
  {
    (DigitValue(hi) * 16 + DigitValue(lo)) as byte
  }

  /** `hex.DecodeString`: pairs are decoded left to right, an invalid
      character aborts the scan, and a trailing odd digit is reported as
      `ErrLength` only when it is itself a valid digit. */
  function DecodeString(s: string): (r: Result<Bytes, HexError>)
    ensures r.Ok? <==> |s| % 2 == 0 && AllHex(s)
    ensures r.Ok? ==> |r.value| == |s| / 2
    decreases |s|
  {
    if |s| == 0 then Ok([])
    else if |s| == 1 then
      if IsHexDigit(s[0]) then Err(ErrLength) else Err(InvalidByte(s[0]))
    else if !IsHexDigit(s[0]) then Err(InvalidByte(s[0]))
    else if !IsHexDigit(s[1]) then Err(InvalidByte(s[1]))
    else
      match DecodeString(s[2..])
      case Ok(rest) => Ok([PairValue(s[0], s[1])] + rest)
      case Err(e) =>
        assert !AllHex(s[2..]) || |s[2..]| % 2 != 0;
        Err(e)
  }

  /** `hex.EncodeToString`: two lower-case digits per byte, high nibble
      first. */
  function EncodeToString(b: Bytes): (s: string)
    ensures |s| == 2 * |b|
    ensures AllLowerHex(s)
  {
    if |b| == 0 then []
    else [LowerDigit(b[0] as int / 16), LowerDigit(b[0] as int % 16)] + EncodeToString(b[1..])
  }

  /** Decoding what was encoded gives the bytes back. */
  lemma {:induction false} DecodeEncode(b: Bytes)
    ensures DecodeString(EncodeToString(b)) == Ok(b)
  {
    if |b| > 0 {
      var s := EncodeToString(b);
      var hi := LowerDigit(b[0] as int / 16);
      var lo := LowerDigit(b[0] as int % 16);
      assert s[2..] == EncodeToString(b[1..]);
      DecodeEncode(b[1..]);
      assert PairValue(hi, lo) == b[0];
      assert b == [b[0]] + b[1..];
    }
  }

  /** An even-length lower-case hex string is exactly the encoding of what it
      decodes to; with `DecodeEncode` the two functions are inverse on
      lower-case input. */
  lemma {:induction false} EncodeDecode(s: string)
    requires |s| % 2 == 0 && AllLowerHex(s)
    ensures DecodeString(s).Ok?
    ensures EncodeToString(DecodeString(s).value) == s
  {
    assert AllHex(s) by {
      forall i | 0 <= i < |s| ensures IsHexDigit(s[i]) {
        assert IsLowerHexDigit(s[i]);
      }
    }
    if |s| > 0 {
      var rest := s[2..];
      assert AllLowerHex(rest) by {
        forall i | 0 <= i < |rest| ensures IsLowerHexDigit(rest[i]) {
          assert rest[i] == s[i + 2];
        }
      }
      EncodeDecode(rest);
      var v := PairValue(s[0], s[1]);
      assert DecodeString(s).value == [v] + DecodeString(rest).value;
      assert LowerDigit(v as int / 16) == s[0];
      assert LowerDigit(v as int % 16) == s[1];
      assert s == [s[0], s[1]] + rest;
    }
  }

  /** A digit folded to lower case; every other character is left alone. */
  function FoldDigit(c: char): (d: char)
    ensures IsHexDigit(d) <==> IsHexDigit(c)
    ensures IsHexDigit(c) ==> IsLowerHexDigit(d) && DigitValue(d) == DigitValue(c)
    ensures !IsHexDigit(c) ==> d == c
  {
    if 'A' <= c <= 'F' then (c as int - 'A' as int + 'a' as int) as char else c
  }

  /** The string with every upper-case hex digit folded to lower case. */
  function FoldCase(s: string): (t: string)
    ensures |t| == |s|
    ensures forall i :: 0 <= i < |s| ==> t[i] == FoldDigit(s[i])
  {
    if |s| == 0 then [] else [FoldDigit(s[0])] + FoldCase(s[1..])
  }

  /** The decoder does not see the case of a digit: any input, valid or not,
      decodes (or fails) exactly as its lower-case folding does. */
  lemma {:induction false} DecodeIgnoresCase(s: string)
    ensures DecodeString(s) == DecodeString(FoldCase(s))
    decreases |s|
  {
    var t := FoldCase(s);
    if |s| >= 2 && IsHexDigit(s[0]) && IsHexDigit(s[1]) {
      assert t[2..] == FoldCase(s[2..]);
      DecodeIgnoresCase(s[2..]);
      assert PairValue(t[0], t[1]) == PairValue(s[0], s[1]);
    }
  }

  /** Upper-case digits decode to the same bytes as lower-case ones: the
      bytes of any valid input re-encode to its lower-case folding. */
  lemma DecodeFoldsCase(s: string)
    requires |s| % 2 == 0 && AllHex(s)
    ensures DecodeString(s).Ok?
    ensures EncodeToString(DecodeString(s).value) == FoldCase(s)
  {
    var t := FoldCase(s);
    DecodeIgnoresCase(s);
    assert AllLowerHex(t) by {
      forall i | 0 <= i < |t| ensures IsLowerHexDigit(t[i]) {
        assert IsHexDigit(s[i]);
      }
    }
    EncodeDecode(t);
  }

  /** The Base16 test vector of section 10 of RFC 4648 ("foobar"), in the
      lower case Go writes. */
  lemma EncodeVector()
    ensures EncodeToString([0x66, 0x6f, 0x6f, 0x62, 0x61, 0x72]) == "666f6f626172"
  {
    var b: Bytes := [0x66, 0x6f, 0x6f, 0x62, 0x61, 0x72];
    assert EncodeToString(b[5..]) == "72";
    assert EncodeToString(b[4..]) == "6172" by { assert b[4..][1..] == b[5..]; }
    assert EncodeToString(b[3..]) == "626172" by { assert b[3..][1..] == b[4..]; }
    assert EncodeToString(b[2..]) == "6f626172" by { assert b[2..][1..] == b[3..]; }
    assert EncodeToString(b[1..]) == "6f6f626172" by { assert b[1..][1..] == b[2..]; }
  }

  /** The Base16 test vector decoded from Go's lower case. */
  lemma DecodeLowerVector()
    ensures DecodeString("666f6f626172") == Ok([0x66, 0x6f, 0x6f, 0x62, 0x61, 0x72])
  {
    EncodeVector();
    DecodeEncode([0x66, 0x6f, 0x6f, 0x62, 0x61, 0x72]);
  }

  /** The same vector in the upper case of RFC 4648 decodes to the same
      bytes. */
  lemma DecodeUpperVector()
    ensures DecodeString("666F6F626172") == Ok([0x66, 0x6f, 0x6f, 0x62, 0x61, 0x72])
  {
    DecodeLowerVector();
    FoldVector();
    DecodeIgnoresCase("666F6F626172");
  }

  /** Folding the upper-case vector gives the lower-case one. */
  lemma FoldVector()
    ensures FoldCase("666F6F626172") == "666f6f626172"
  {
  }
}
