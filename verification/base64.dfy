/** The padded standard Base64 alphabet of section 4 of RFC 4648, as Go's
    `base64.StdEncoding.EncodeToString` writes it, with a strict decoder as
    its partner. */
module Base64 {
  import opened Common

  const Padding: char := '='

  /** The character for a 6-bit value: `A`-`Z`, `a`-`z`, `0`-`9`, `+`, `/`. */
  function SextetChar(v: nat): (c: char)
    requires v < 64
    ensures c != Padding
    ensures SextetValue(c) == Some(v)
  {
    if v < 26 then ('A' as int + v) as char
    else if v < 52 then ('a' as int + (v - 26)) as char
    else if v < 62 then ('0' as int + (v - 52)) as char
    else if v == 62 then '+'
    else '/'
  }

  /** The 6-bit value of an alphabet character; `None` for anything else. */
  function SextetValue(c: char): (r: Option<nat>)
    ensures r.Some? ==> r.value < 64
  {
    if 'A' <= c <= 'Z' then Some(c as int - 'A' as int)
    else if 'a' <= c <= 'z' then Some(c as int - 'a' as int + 26)
    else if '0' <= c <= '9' then Some(c as int - '0' as int + 52)
    else if c == '+' then Some(62)
    else if c == '/' then Some(63)
    else None
  }

  predicate InAlphabet(c: char) {
    SextetValue(c).Some?
  }

  /** Three bytes become four characters. */
  function EncodeTriple(b0: byte, b1: byte, b2: byte): string {
    [SextetChar(b0 as int / 4),
     SextetChar(b0 as int % 4 * 16 + b1 as int / 16),
     SextetChar(b1 as int % 16 * 4 + b2 as int / 64),
     SextetChar(b2 as int % 64)]
  }

  /** `StdEncoding.EncodeToString`: a final group of one or two bytes is
      zero-filled and padded with `=` to four characters. */
  function EncodeToString(b: Bytes): (s: string)
    ensures |s| == (|b| + 2) / 3 * 4
    decreases |b|
  {
    if |b| == 0 then []
    else if |b| == 1 then
      [SextetChar(b[0] as int / 4), SextetChar(b[0] as int % 4 * 16), Padding, Padding]
    else if |b| == 2 then
      [SextetChar(b[0] as int / 4),
       SextetChar(b[0] as int % 4 * 16 + b[1] as int / 16),
       SextetChar(b[1] as int % 16 * 4),
       Padding]
    else EncodeTriple(b[0], b[1], b[2]) + EncodeToString(b[3..])
  }

  /** Four characters back to the bytes they carry: three for a full group,
      fewer when the group ends in padding (only allowed as the last group). */
  function DecodeQuad(c0: char, c1: char, c2: char, c3: char, last: bool): Option<Bytes> {
    var v0 := SextetValue(c0);
    var v1 := SextetValue(c1);
    if v0.None? || v1.None? then None
    else
      var b0 := (v0.value * 4 + v1.value / 16) as byte;
      if c2 == Padding && c3 == Padding then
        if last && v1.value % 16 == 0 then Some([b0]) else None
      else
        var v2 := SextetValue(c2);
        if v2.None? then None
        else
          var b1 := (v1.value % 16 * 16 + v2.value / 4) as byte;
          if c3 == Padding then
            if last && v2.value % 4 == 0 then Some([b0, b1]) else None
          else
            var v3 := SextetValue(c3);
            if v3.None? then None
            else Some([b0, b1, (v2.value % 4 * 64 + v3.value) as byte])
  }

  /** Strict decoding: whole groups only, canonical padding bits. */
  function Decode(s: string): Option<Bytes>
    decreases |s|
  {
    if |s| == 0 then Some([])
    else if |s| < 4 then None
    else
      match DecodeQuad(s[0], s[1], s[2], s[3], |s| == 4)
      case None => None
      case Some(head) =>
        match Decode(s[4..])
        case None => None
        case Some(tail) => Some(head + tail)
  }

  lemma TripleRoundTrip(b0: byte, b1: byte, b2: byte, last: bool)
    ensures var e := EncodeTriple(b0, b1, b2);
            DecodeQuad(e[0], e[1], e[2], e[3], last) == Some([b0, b1, b2])
  {
    var x0, x1, x2, x3 := b0 as int / 4, b0 as int % 4 * 16 + b1 as int / 16, b1 as int % 16 * 4 + b2 as int / 64, b2 as int % 64;
    assert x0 * 4 + x1 / 16 == b0 as int;
    assert x1 % 16 * 16 + x2 / 4 == b1 as int;
    assert x2 % 4 * 64 + x3 == b2 as int;
  }

  /** A lone final byte round-trips through its `xx==` group. */
  lemma SingleRoundTrip(b: Bytes)
    requires |b| == 1
    ensures var e := EncodeToString(b);
            DecodeQuad(e[0], e[1], e[2], e[3], true) == Some(b)
  {
    var x0, x1 := b[0] as int / 4, b[0] as int % 4 * 16;
    assert x0 * 4 + x1 / 16 == b[0] as int;
    assert x1 % 16 == 0;
    assert [b[0]] == b;
  }

  /** A final pair of bytes round-trips through its `xxx=` group. */
  lemma PairRoundTrip(b: Bytes)
    requires |b| == 2
    ensures var e := EncodeToString(b);
            DecodeQuad(e[0], e[1], e[2], e[3], true) == Some(b)
  {
    var x0, x1, x2 := b[0] as int / 4, b[0] as int % 4 * 16 + b[1] as int / 16, b[1] as int % 16 * 4;
    assert x0 * 4 + x1 / 16 == b[0] as int;
    assert x1 % 16 * 16 + x2 / 4 == b[1] as int;
    assert x2 % 4 == 0;
    assert [b[0], b[1]] == b;
  }

  /** Every encoding decodes to the bytes it was made from. */
  lemma {:induction false} DecodeEncode(b: Bytes)
    ensures Decode(EncodeToString(b)) == Some(b)
    decreases |b|
  {
    var s := EncodeToString(b);
    if |b| == 1 {
      SingleRoundTrip(b);
      assert s[4..] == [];
      assert b + [] == b;
    } else if |b| == 2 {
      PairRoundTrip(b);
      assert s[4..] == [];
      assert b + [] == b;
    } else if |b| >= 3 {
      TripleRoundTrip(b[0], b[1], b[2], |s| == 4);
      assert s[4..] == EncodeToString(b[3..]);
      DecodeEncode(b[3..]);
      assert b == [b[0], b[1], b[2]] + b[3..];
    }
  }

  /** Alphabet characters, with padding only in the last two positions. */
  predicate Canonical(s: string) {
    forall i :: 0 <= i < |s| ==> InAlphabet(s[i]) || (s[i] == Padding && i >= |s| - 2)
  }

  /** The output uses only the alphabet, with padding confined to the end. */
  lemma {:induction false} EncodeAlphabet(b: Bytes)
    ensures Canonical(EncodeToString(b))
    decreases |b|
  {
    var s := EncodeToString(b);
    if |b| >= 3 {
      EncodeAlphabet(b[3..]);
      var t := EncodeToString(b[3..]);
      var head := EncodeTriple(b[0], b[1], b[2]);
      assert s == head + t;
      assert InAlphabet(head[0]) && InAlphabet(head[1]) && InAlphabet(head[2]) && InAlphabet(head[3]);
      forall i | 0 <= i < |s| ensures InAlphabet(s[i]) || (s[i] == Padding && i >= |s| - 2) {
        if i >= 4 {
          assert s[i] == t[i - 4];
          assert InAlphabet(t[i - 4]) || (t[i - 4] == Padding && i - 4 >= |t| - 2);
        } else {
          assert s[i] == head[i];
        }
      }
    }
  }

  /** The test vectors of section 10 of RFC 4648: "", "f", "fo", "foo",
      "foob", "fooba" and "foobar". */
  lemma Rfc4648Vectors()
    ensures EncodeToString([]) == ""
    ensures EncodeToString([0x66]) == "Zg=="
    ensures EncodeToString([0x66, 0x6f]) == "Zm8="
    ensures EncodeToString([0x66, 0x6f, 0x6f]) == "Zm9v"
    ensures EncodeToString([0x66, 0x6f, 0x6f, 0x62]) == "Zm9vYg=="
    ensures EncodeToString([0x66, 0x6f, 0x6f, 0x62, 0x61]) == "Zm9vYmE="
    ensures EncodeToString([0x66, 0x6f, 0x6f, 0x62, 0x61, 0x72]) == "Zm9vYmFy"
  {
  }
}
