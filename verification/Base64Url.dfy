/** Base64url (RFC 4648, section 5) as the edge uses it: printed without padding by
    `callauth.sign`, re-padded and decoded by `FirebaseVerifier._decode_payload`. */
module Base64Url {

  type Byte = x: int | 0 <= x < 256
  type Bytes = seq<Byte>

  datatype Decoded = Data(bytes: Bytes) | Malformed

  const PAD: Byte := 61

  function Symbol(v: int): (c: Byte)
    requires 0 <= v < 64
  {
    if v < 26 then 65 + v
    else if v < 52 then 97 + (v - 26)
    else if v < 62 then 48 + (v - 52)
    else if v == 62 then 45
    else 95
  }

  /** The value of a data character, or -1. Python translates `-_` to `+/` before
      decoding, so both spellings of 62 and 63 are read. */
  function ValueOf(c: Byte): (v: int)
    ensures -1 <= v < 64
  {
    if 65 <= c <= 90 then c - 65
    else if 97 <= c <= 122 then c - 97 + 26
    else if 48 <= c <= 57 then c - 48 + 52
    else if c == 45 || c == 43 then 62
    else if c == 95 || c == 47 then 63
    else -1
  }

  predicate IsData(s: Bytes) {
    forall i :: 0 <= i < |s| ==> ValueOf(s[i]) >= 0
  }

  /** Three bytes as four data characters. */
  function Quad(a: Byte, b: Byte, c: Byte): (q: Bytes)
    ensures |q| == 4 && IsData(q)
    ensures ValueOf(q[0]) == a / 4 && ValueOf(q[1]) == a % 4 * 16 + b / 16
    ensures ValueOf(q[2]) == b % 16 * 4 + c / 64 && ValueOf(q[3]) == c % 64
  {
    [Symbol(a / 4), Symbol(a % 4 * 16 + b / 16), Symbol(b % 16 * 4 + c / 64), Symbol(c % 64)]
  }

  function Pads(n: nat): Bytes {
    seq(n, _ => PAD)
  }

  /** `base64.urlsafe_b64encode`: a last group of one or two bytes is filled with zero
      bits, and padded where whole characters are missing. */
  function Encode(bs: Bytes): Bytes {
    if bs == [] then []
    else if |bs| == 1 then Quad(bs[0], 0, 0)[..2] + Pads(2)
    else if |bs| == 2 then Quad(bs[0], bs[1], 0)[..3] + Pads(1)
    else Quad(bs[0], bs[1], bs[2]) + Encode(bs[3..])
  }

  /** `.rstrip(b"=")`. */
  function StripPads(s: Bytes): Bytes {
    if s != [] && s[|s| - 1] == PAD then StripPads(s[..|s| - 1]) else s
  }

  /** `segment + "=" * (-len(segment) % 4)`. */
  function Repad(segment: Bytes): Bytes {
    segment + Pads(-|segment| % 4)
  }

  function Before(b: Byte, rest: Decoded): Decoded {
    match rest case Data(bytes) => Data([b] + bytes) case Malformed => Malformed
  }

  ghost predicate ScanState(quad: nat, left: nat) {
    quad < 4 && (quad == 0 ==> left == 0) && (quad == 1 ==> left < 64)
    && (quad == 2 ==> left < 16) && (quad == 3 ==> left < 4)
  }

  /** Python's non-strict scan. `quad` counts the data characters of the open quad,
      `left` holds the bits not yet written, `pads` the pads seen since the last data
      character. Foreign characters are skipped; a pad that closes a quad ends the
      scan, whatever follows it. */
  function Scan(s: Bytes, quad: nat, left: nat, pads: nat): Decoded
    requires ScanState(quad, left)
  {
    if s == [] then (if quad == 0 then Data([]) else Malformed)
    else if s[0] == PAD then
      if quad >= 2 && quad + pads + 1 >= 4 then Data([])
      else Scan(s[1..], quad, left, if quad >= 2 then pads + 1 else pads)
    else
      var v := ValueOf(s[0]);
      if v < 0 then Scan(s[1..], quad, left, pads)
      else if quad == 0 then Scan(s[1..], 1, v, 0)
      else if quad == 1 then Before(left * 4 + v / 16, Scan(s[1..], 2, v % 16, 0))
      else if quad == 2 then Before(left * 16 + v / 4, Scan(s[1..], 3, v % 4, 0))
      else Before(left * 64 + v, Scan(s[1..], 0, 0, 0))
  }

  /** `base64.urlsafe_b64decode`. */
  function Decode(s: Bytes): Decoded {
    Scan(s, 0, 0, 0)
  }

  /** Four data characters are three bytes. */
  lemma ScanQuad(a: Byte, b: Byte, c: Byte, d: Byte, rest: Bytes)
    requires ValueOf(a) >= 0 && ValueOf(b) >= 0 && ValueOf(c) >= 0 && ValueOf(d) >= 0
    ensures Decode([a, b, c, d] + rest)
         == Before(ValueOf(a) * 4 + ValueOf(b) / 16,
              Before(ValueOf(b) % 16 * 16 + ValueOf(c) / 4,
                Before(ValueOf(c) % 4 * 64 + ValueOf(d), Decode(rest))))
  {
    var s := [a, b, c, d] + rest;
    assert s[1..] == [b, c, d] + rest;
    assert s[1..][1..] == [c, d] + rest;
    assert s[1..][1..][1..] == [d] + rest;
    assert s[1..][1..][1..][1..] == rest;
    assert Scan(s, 0, 0, 0) == Scan([b, c, d] + rest, 1, ValueOf(a), 0);
    assert Scan([c, d] + rest, 2, ValueOf(b) % 16, 0)
        == Before(ValueOf(b) % 16 * 16 + ValueOf(c) / 4, Scan([d] + rest, 3, ValueOf(c) % 4, 0));
  }

  lemma ScanThree(a: Byte, b: Byte, c: Byte)
    requires ValueOf(a) >= 0 && ValueOf(b) >= 0 && ValueOf(c) >= 0
    ensures Decode([a, b, c, PAD])
         == Data([ValueOf(a) * 4 + ValueOf(b) / 16, ValueOf(b) % 16 * 16 + ValueOf(c) / 4])
  {
    var s := [a, b, c, PAD];
    assert s[1..] == [b, c, PAD] && s[1..][1..] == [c, PAD] && s[1..][1..][1..] == [PAD];
    assert Scan([PAD], 3, ValueOf(c) % 4, 0) == Data([]);
    assert Scan([c, PAD], 2, ValueOf(b) % 16, 0) == Data([ValueOf(b) % 16 * 16 + ValueOf(c) / 4]);
    assert Scan([b, c, PAD], 1, ValueOf(a), 0)
        == Data([ValueOf(a) * 4 + ValueOf(b) / 16, ValueOf(b) % 16 * 16 + ValueOf(c) / 4]);
  }

  lemma ScanTwo(a: Byte, b: Byte)
    requires ValueOf(a) >= 0 && ValueOf(b) >= 0
    ensures Decode([a, b, PAD, PAD]) == Data([ValueOf(a) * 4 + ValueOf(b) / 16])
  {
    var s := [a, b, PAD, PAD];
    assert s[1..] == [b, PAD, PAD] && s[1..][1..] == [PAD, PAD] && s[1..][1..][1..] == [PAD];
    assert Scan([PAD], 2, ValueOf(b) % 16, 1) == Data([]);
    assert Scan([PAD, PAD], 2, ValueOf(b) % 16, 0) == Data([]);
    assert Scan([b, PAD, PAD], 1, ValueOf(a), 0) == Data([ValueOf(a) * 4 + ValueOf(b) / 16]);
  }

  lemma QuadDecodes(a: Byte, b: Byte, c: Byte, rest: Bytes)
    ensures Decode(Quad(a, b, c) + rest) == Before(a, Before(b, Before(c, Decode(rest))))
  {
    var q := Quad(a, b, c);
    assert q + rest == [q[0], q[1], q[2], q[3]] + rest;
    ScanQuad(q[0], q[1], q[2], q[3], rest);
    BitsJoin(a, 4);
    BitsJoin(b, 16);
    BitsJoin(c, 64);
    BitsApart(a % 4, b / 16, 16);
    BitsApart(b % 16, c / 64, 4);
  }

  /** A byte is its high bits and its low bits. */
  lemma BitsJoin(x: Byte, low: int)
    requires low == 4 || low == 16 || low == 64
    ensures x / low * low + x % low == x
  {
  }

  lemma BitsApart(high: nat, rest: nat, low: int)
    requires (low == 4 || low == 16 || low == 64) && rest < low
    ensures (high * low + rest) / low == high && (high * low + rest) % low == rest
  {
  }

  lemma TailDecodes(a: Byte, b: Byte)
    ensures Decode(Quad(a, 0, 0)[..2] + Pads(2)) == Data([a])
    ensures Decode(Quad(a, b, 0)[..3] + Pads(1)) == Data([a, b])
  {
    var q, r := Quad(a, 0, 0), Quad(a, b, 0);
    assert q[..2] + Pads(2) == [q[0], q[1], PAD, PAD];
    ScanTwo(q[0], q[1]);
    assert r[..3] + Pads(1) == [r[0], r[1], r[2], PAD];
    ScanThree(r[0], r[1], r[2]);
  }

  /** Decoding undoes encoding, padding and all. */
  lemma {:induction false} DecodeOfEncode(bs: Bytes)
    ensures Decode(Encode(bs)) == Data(bs)
  {
    if |bs| == 1 {
      TailDecodes(bs[0], 0);
    } else if |bs| == 2 {
      TailDecodes(bs[0], bs[1]);
      assert bs == [bs[0], bs[1]];
    } else if |bs| >= 3 {
      QuadDecodes(bs[0], bs[1], bs[2], Encode(bs[3..]));
      DecodeOfEncode(bs[3..]);
      assert bs == [bs[0]] + ([bs[1]] + ([bs[2]] + bs[3..]));
    }
  }

  /** How many pads the encoding of `n` bytes ends with. */
  function PadCount(n: nat): nat {
    if n % 3 == 0 then 0 else 3 - n % 3
  }

  /** Data characters followed by pads, in whole quads. */
  ghost predicate Shaped(e: Bytes, n: nat) {
    && PadCount(n) <= |e| && IsData(e[..|e| - PadCount(n)])
    && e[|e| - PadCount(n)..] == Pads(PadCount(n))
    && |e| * 3 == (n + PadCount(n)) * 4
  }

  lemma ShapeGrows(q: Bytes, e: Bytes, n: nat)
    requires |q| == 4 && IsData(q) && Shaped(e, n)
    ensures Shaped(q + e, n + 3)
  {
    var k := PadCount(n);
    assert PadCount(n + 3) == k;
    assert (q + e)[..|q + e| - k] == q + e[..|e| - k];
    assert (q + e)[|q + e| - k..] == e[|e| - k..];
  }

  lemma TailShaped(q: Bytes)
    requires |q| == 4 && IsData(q)
    ensures Shaped(q[..2] + Pads(2), 1) && Shaped(q[..3] + Pads(1), 2)
  {
    assert (q[..2] + Pads(2))[..2] == q[..2] && (q[..2] + Pads(2))[2..] == Pads(2);
    assert (q[..3] + Pads(1))[..3] == q[..3] && (q[..3] + Pads(1))[3..] == Pads(1);
  }

  lemma {:induction false} EncodeShape(bs: Bytes)
    ensures Shaped(Encode(bs), |bs|)
  {
    if |bs| == 1 {
      TailShaped(Quad(bs[0], 0, 0));
    } else if |bs| == 2 {
      TailShaped(Quad(bs[0], bs[1], 0));
    } else if |bs| >= 3 {
      EncodeShape(bs[3..]);
      ShapeGrows(Quad(bs[0], bs[1], bs[2]), Encode(bs[3..]), |bs| - 3);
    }
  }

  lemma {:induction false} StripPadsStops(body: Bytes, n: nat)
    requires IsData(body)
    ensures StripPads(body + Pads(n)) == body
  {
    var s := body + Pads(n);
    if n > 0 {
      assert s[..|s| - 1] == body + Pads(n - 1);
      StripPadsStops(body, n - 1);
    } else {
      assert s == body;
    }
  }

  /** Unpadded base64url: what `sign` prints. */
  function Unpadded(bs: Bytes): Bytes {
    StripPads(Encode(bs))
  }

  /** Stripping removes padding and nothing else, never leaves a length of 1 mod 4, and
      re-padding restores the encoding, so the bytes come back. */
  lemma UnpaddedRoundTrip(bs: Bytes)
    ensures IsData(Unpadded(bs)) && Encode(bs) == Unpadded(bs) + Pads(PadCount(|bs|))
    ensures |Unpadded(bs)| % 4 != 1
    ensures Repad(Unpadded(bs)) == Encode(bs)
    ensures Decode(Repad(Unpadded(bs))) == Data(bs)
  {
    EncodeShape(bs);
    DecodeOfEncode(bs);
    ShapedStrips(Encode(bs), |bs|);
  }

  lemma ShapedStrips(e: Bytes, n: nat)
    requires Shaped(e, n)
    ensures IsData(StripPads(e)) && e == StripPads(e) + Pads(PadCount(n))
    ensures |StripPads(e)| % 4 != 1 && Repad(StripPads(e)) == e
  {
    var body := e[..|e| - PadCount(n)];
    assert e == body + Pads(PadCount(n));
    StripPadsStops(body, PadCount(n));
    PadArithmetic(|body|, n);
  }

  lemma PadArithmetic(body: int, n: nat)
    requires body >= 0 && (body + PadCount(n)) * 3 == (n + PadCount(n)) * 4
    ensures body % 4 != 1 && -body % 4 == PadCount(n)
  {
    var quads, pads := (n + PadCount(n)) / 3, PadCount(n);
    assert n + pads == 3 * quads;
    assert -body == 4 * -quads + pads;
    Residue(-body, -quads, pads);
    if pads > 0 {
      Residue(body, quads - 1, 4 - pads);
    } else {
      Residue(body, quads, 0);
    }
  }

  lemma Residue(x: int, quads: int, r: nat)
    requires x == 4 * quads + r && r < 4
    ensures x % 4 == r
  {
  }

  lemma UnpaddedInjective(a: Bytes, b: Bytes)
    requires Unpadded(a) == Unpadded(b)
    ensures a == b
  {
    UnpaddedRoundTrip(a);
    UnpaddedRoundTrip(b);
  }

  lemma QuadBySymbols(a: Byte, b: Byte, c: Byte, w: int, x: int, y: int, z: int)
    requires 0 <= w < 64 && 0 <= x < 64 && 0 <= y < 64 && 0 <= z < 64
    requires a == w * 4 + x / 16 && b == x % 16 * 16 + y / 4 && c == y % 4 * 64 + z
    ensures Quad(a, b, c) == [Symbol(w), Symbol(x), Symbol(y), Symbol(z)]
  {
    BitsApart(w, x / 16, 4);
    BitsApart(x % 16, y / 4, 16);
    BitsApart(y % 4, z, 64);
    BitsJoin(x, 16);
    BitsJoin(y, 4);
    assert a / 4 == w && a % 4 * 16 + b / 16 == x && b % 16 * 4 + c / 64 == y && c % 64 == z;
  }

  /** `foobar` of RFC 4648, section 10, and the two characters that section 5 changes. */
  lemma StandardVectors()
    ensures var z, m, nine, v, big, f, y: Byte :=
              'Z' as int, 'm' as int, '9' as int, 'v' as int, 'Y' as int, 'F' as int, 'y' as int;
            Encode([102, 111, 111, 98, 97, 114]) == [z, m, nine, v] + [big, m, f, y]
    ensures Encode([0xfb, 0xff, 0xfe]) == ['-' as int, '_' as int, '_' as int, '-' as int]
  {
    EncodeSix(102, 111, 111, 98, 97, 114);
    EncodeThree(0xfb, 0xff, 0xfe);
    QuadBySymbols(102, 111, 111, 25, 38, 61, 47);
    QuadBySymbols(98, 97, 114, 24, 38, 5, 50);
    QuadBySymbols(0xfb, 0xff, 0xfe, 62, 63, 63, 62);
  }

  lemma EncodeThree(a: Byte, b: Byte, c: Byte)
    ensures Encode([a, b, c]) == Quad(a, b, c)
  {
    assert [a, b, c][3..] == [];
    assert Encode([]) == [];
  }

  lemma EncodeSix(a: Byte, b: Byte, c: Byte, d: Byte, e: Byte, f: Byte)
    ensures Encode([a, b, c, d, e, f]) == Quad(a, b, c) + Quad(d, e, f)
  {
    assert [a, b, c, d, e, f][3..] == [d, e, f];
    EncodeThree(d, e, f);
  }

  predicate IsUrlSafe(c: Byte) {
    'A' as int <= c <= 'Z' as int || 'a' as int <= c <= 'z' as int || '0' as int <= c <= '9' as int
    || c == '-' as int || c == '_' as int
  }

  lemma QuadIsUrlSafe(a: Byte, b: Byte, c: Byte)
    ensures forall i :: 0 <= i < 4 ==> IsUrlSafe(Quad(a, b, c)[i])
  {
    SymbolIsUrlSafe(a / 4);
    SymbolIsUrlSafe(a % 4 * 16 + b / 16);
    SymbolIsUrlSafe(b % 16 * 4 + c / 64);
    SymbolIsUrlSafe(c % 64);
  }

  lemma SymbolIsUrlSafe(v: int)
    requires 0 <= v < 64
    ensures IsUrlSafe(Symbol(v))
  {
  }

  lemma {:induction false} EncodedIsUrlSafe(bs: Bytes)
    ensures forall i :: 0 <= i < |Encode(bs)| ==> IsUrlSafe(Encode(bs)[i]) || Encode(bs)[i] == PAD
  {
    if |bs| == 1 {
      QuadIsUrlSafe(bs[0], 0, 0);
    } else if |bs| == 2 {
      QuadIsUrlSafe(bs[0], bs[1], 0);
    } else if |bs| >= 3 {
      QuadIsUrlSafe(bs[0], bs[1], bs[2]);
      EncodedIsUrlSafe(bs[3..]);
    }
  }

  /** What is printed travels in a header or a URL as it is: letters, digits, `-`, `_`. */
  lemma UnpaddedIsUrlSafe(bs: Bytes)
    ensures forall i :: 0 <= i < |Unpadded(bs)| ==>
              var c := Unpadded(bs)[i];
              'A' as int <= c <= 'Z' as int || 'a' as int <= c <= 'z' as int || '0' as int <= c <= '9' as int
              || c == '-' as int || c == '_' as int
  {
    UnpaddedRoundTrip(bs);
    EncodedIsUrlSafe(bs);
    assert forall i :: 0 <= i < |Unpadded(bs)| ==> Unpadded(bs)[i] == Encode(bs)[i] && ValueOf(Unpadded(bs)[i]) >= 0;
  }

  /** The re-padding arithmetic is enough for every segment it can be enough for: a
      segment of data characters decodes if and only if its length is not 1 mod 4. */
  lemma {:induction false} RepaddedDecodesExactly(s: Bytes)
    requires IsData(s)
    ensures Decode(Repad(s)).Data? <==> |s| % 4 != 1
    ensures Decode(Repad(s)).Data? ==> |Decode(Repad(s)).bytes| == |s| * 3 / 4
  {
    if 0 < |s| < 4 {
      ShortSegment(s);
    } else if |s| >= 4 {
      RepaddedDecodesExactly(s[4..]);
      FourMore(s);
      ThreeQuarters(|s|);
    }
  }

  lemma ThreeQuarters(n: int)
    requires n >= 4
    ensures (n - 4) * 3 / 4 + 3 == n * 3 / 4 && (n - 4) % 4 == n % 4
  {
  }

  lemma ShortSegment(s: Bytes)
    requires IsData(s) && 0 < |s| < 4
    ensures |s| == 1 ==> Decode(Repad(s)) == Malformed
    ensures |s| > 1 ==> Decode(Repad(s)).Data? && |Decode(Repad(s)).bytes| == |s| - 1
  {
    if |s| == 1 {
      assert Repad(s) == [s[0], PAD, PAD, PAD];
      ScanOne(s[0]);
    } else if |s| == 2 {
      assert Repad(s) == [s[0], s[1], PAD, PAD];
      ScanTwo(s[0], s[1]);
    } else {
      assert Repad(s) == [s[0], s[1], s[2], PAD];
      ScanThree(s[0], s[1], s[2]);
    }
  }

  lemma FourMore(s: Bytes)
    requires IsData(s) && |s| >= 4
    ensures Decode(Repad(s)).Data? <==> Decode(Repad(s[4..])).Data?
    ensures Decode(Repad(s)).Data? ==> |Decode(Repad(s)).bytes| == |Decode(Repad(s[4..])).bytes| + 3
  {
    assert |s[4..]| == |s| - 4;
    assert Repad(s) == [s[0], s[1], s[2], s[3]] + Repad(s[4..]);
    ScanQuad(s[0], s[1], s[2], s[3], Repad(s[4..]));
  }

  lemma ScanOne(a: Byte)
    requires ValueOf(a) >= 0
    ensures Decode([a, PAD, PAD, PAD]) == Malformed
  {
    var s, v := [a, PAD, PAD, PAD], ValueOf(a);
    assert s[1..] == [PAD, PAD, PAD] && s[1..][1..] == [PAD, PAD] && s[1..][1..][1..] == [PAD];
    assert [PAD][1..] == [];
    assert Scan([PAD], 1, v, 0) == Scan([], 1, v, 0) == Malformed;
    assert Scan([PAD, PAD], 1, v, 0) == Scan([PAD], 1, v, 0);
    assert Scan([PAD, PAD, PAD], 1, v, 0) == Scan([PAD, PAD], 1, v, 0);
  }
}
