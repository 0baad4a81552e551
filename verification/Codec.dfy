/** Numbers, hex dumps, base64 and checksums as text: the push and pull pairs of
    apk-tools/src/blob.c, as functions, and the proof that pulling undoes pushing. */
module Codec {
  import opened Wrappers

  type Byte = b: int | 0 <= b < 256
  /** What a pull leaves over; None is the NULL blob that records a failure. */
  type Blob = Option<string>

  const WRAP := 0x1_0000_0000

  /** The digit table: 0-9, then the lower case letters. */
  function Xd(d: nat): (c: char)
    requires d < 36
    ensures d < 16 ==> Dx(c) == d
  {
    if d < 10 then ('0' as int + d) as char else ('a' as int + d - 10) as char
  }

  /** The value of a hexadecimal digit, -1 for any other character. */
  function Dx(c: char): (d: int)
    ensures -1 <= d < 16
  {
    if '0' <= c <= '9' then c as int - '0' as int
    else if 'a' <= c <= 'f' then c as int - 'a' as int + 10
    else if 'A' <= c <= 'F' then c as int - 'A' as int + 10
    else -1
  }

  // ----- Unsigned numbers -----

  /** The two bases that the program writes and reads numbers in. */
  type Radix = r: nat | r == 8 || r == 10 witness 10

  function Over(v: nat, radix: Radix): nat { if radix == 8 then v / 8 else v / 10 }
  function Last(v: nat, radix: Radix): nat { if radix == 8 then v % 8 else v % 10 }
  function Shift(v: nat, radix: Radix, d: nat): nat { if radix == 8 then v * 8 + d else v * 10 + d }

  function Digits(v: nat, radix: Radix): string {
    if v == 0 then "" else Digits(Over(v, radix), radix) + [Xd(Last(v, radix))]
  }

  function Pow8(n: nat): (p: nat)
    ensures p > 0
  {
    if n == 0 then 1 else 8 * Pow8(n - 1)
  }

  function UintText(v: nat, radix: Radix): string {
    if v == 0 then "0" else Digits(v, radix)
  }

  predicate DigitOf(c: char, radix: Radix) { 0 <= Dx(c) < radix }

  /** Reads digits as long as there are any, in 32-bit arithmetic, on top of the value so far. */
  function PullUintFrom(val: nat, b: string, radix: Radix): (r: (nat, string))
    decreases b
  {
    if b != "" && b[0] != '\0' && DigitOf(b[0], radix) then
      PullUintFrom(Shift(val, radix, Dx(b[0])) % WRAP, b[1..], radix)
    else (val, b)
  }

  function PullUint(b: string, radix: Radix): (r: (nat, string)) { PullUintFrom(0, b, radix) }

  predicate NoDigit(rest: string, radix: Radix) { rest == "" || !DigitOf(rest[0], radix) }

  lemma {:induction false} PullDigits(v: nat, radix: Radix, rest: string)
    ensures PullUintFrom(0, Digits(v, radix) + rest, radix) == PullUintFrom(v % WRAP, rest, radix)
  {
    if v == 0 {
      assert Digits(v, radix) + rest == rest;
    } else {
      var d, more := Xd(Last(v, radix)), Over(v, radix);
      assert Digits(v, radix) + rest == Digits(more, radix) + ([d] + rest);
      ShiftBack(v, radix);
      PullDigits(more, radix, [d] + rest);
      PullOne(more % WRAP, radix, d, rest);
    }
  }

  lemma Periodic(m: nat, x: nat)
    ensures (WRAP * m + x) % WRAP == x % WRAP
  {
  }

  lemma ShiftBack(v: nat, radix: Radix)
    requires v > 0
    ensures Shift(Over(v, radix) % WRAP, radix, Last(v, radix)) % WRAP == v % WRAP && Over(v, radix) < v
  {
    var q, d := Over(v, radix), Last(v, radix);
    var k, r := q / WRAP, q % WRAP;
    if radix == 8 {
      assert v == WRAP * (8 * k) + (8 * r + d);
      Periodic(8 * k, 8 * r + d);
    } else {
      assert v == WRAP * (10 * k) + (10 * r + d);
      Periodic(10 * k, 10 * r + d);
    }
  }

  lemma PullOne(val: nat, radix: Radix, d: char, rest: string)
    requires DigitOf(d, radix) && d != '\0'
    ensures PullUintFrom(val, [d] + rest, radix) == PullUintFrom(Shift(val, radix, Dx(d)) % WRAP, rest, radix)
  {
  }

  /** A number comes back modulo 2^32, one below that as it was, and the reader stops right behind it. */
  lemma UintRoundTrip(v: nat, radix: Radix, rest: string)
    requires NoDigit(rest, radix)
    ensures PullUint(UintText(v, radix) + rest, radix) == (v % WRAP, rest)
    ensures v < WRAP ==> v % WRAP == v
  {
    hide PullUintFrom;
    if v == 0 {
      PullOne(0, radix, '0', rest);
      assert UintText(0, radix) + rest == ['0'] + rest;
    } else {
      PullDigits(v, radix, rest);
    }
    PullNone(v % WRAP, radix, rest);
  }

  lemma PullNone(val: nat, radix: Radix, rest: string)
    requires NoDigit(rest, radix)
    ensures PullUintFrom(val, rest, radix) == (val, rest)
  {
  }

  // ----- Hex dumps -----

  function HexText(bytes: seq<Byte>): (s: string)
    ensures |s| == 2 * |bytes|
  {
    if bytes == [] then "" else [Xd(bytes[0] / 16), Xd(bytes[0] % 16)] + HexText(bytes[1..])
  }

  /** Fills `to` from two digits per byte; None when one of them is not a digit.  The bytes before
      the bad digit have been written by then. */
  function HexBytes(s: string, to: seq<Byte>): (r: (bool, seq<Byte>))
    requires |s| >= 2 * |to|
    ensures |r.1| == |to|
  {
    if to == [] then (true, to)
    else if Dx(s[0]) < 0 || Dx(s[1]) < 0 then (false, to)
    else
      var (ok, rest) := HexBytes(s[2..], to[1..]);
      (ok, [Dx(s[0]) * 16 + Dx(s[1])] + rest)
  }

  /** The length guard that the source checks, and the one that makes its reads stay inside. */
  predicate HexReadable(b: Blob, n: nat) { b.None? || n > 2 * |b.value| || |b.value| >= 2 * n }

  function PullHexdump(b: Blob, to: seq<Byte>): (r: (Blob, seq<Byte>))
    requires HexReadable(b, |to|)
    ensures |r.1| == |to|
  {
    if b.None? || |to| > 2 * |b.value| then (None, to)
    else
      var (ok, bytes) := HexBytes(b.value, to);
      (if ok then Some(b.value[2 * |to|..]) else None, bytes)
  }

  lemma {:induction false} HexBytesOfText(bytes: seq<Byte>, rest: string, to: seq<Byte>)
    requires |to| == |bytes|
    ensures HexBytes(HexText(bytes) + rest, to) == (true, bytes)
  {
    if bytes != [] {
      hide Xd, Dx;
      HexBytesOfText(bytes[1..], rest, to[1..]);
      HexNext(bytes[0], HexText(bytes[1..]) + rest, to);
      assert HexText(bytes) + rest == [Xd(bytes[0] / 16), Xd(bytes[0] % 16)] + (HexText(bytes[1..]) + rest);
      assert bytes == [bytes[0]] + bytes[1..];
    }
  }

  lemma HexNext(x: Byte, more: string, to: seq<Byte>)
    requires to != [] && |more| >= 2 * |to| - 2
    ensures HexBytes([Xd(x / 16), Xd(x % 16)] + more, to) == (HexBytes(more, to[1..]).0, [x] + HexBytes(more, to[1..]).1)
  {
    hide Xd, Dx;
    var s := [Xd(x / 16), Xd(x % 16)] + more;
    assert s[0] == Xd(x / 16) && s[1] == Xd(x % 16);
    assert s[2..] == more;
  }

  lemma HexRoundTrip(bytes: seq<Byte>, rest: string, to: seq<Byte>)
    requires |to| == |bytes|
    ensures PullHexdump(Some(HexText(bytes) + rest), to) == (Some(rest), bytes)
  {
    HexBytesOfText(bytes, rest, to);
    assert (HexText(bytes) + rest)[2 * |to|..] == rest;
  }

  // ----- Base64 -----

  /** The alphabet: upper case, lower case, digits, '+' and '/'. */
  function Encode6(x: nat): (c: char)
    requires x < 64
    ensures Decode6(c) == x && c != '='
  {
    if x < 26 then ('A' as int + x) as char
    else if x < 52 then ('a' as int + x - 26) as char
    else if x < 62 then ('0' as int + x - 52) as char
    else if x == 62 then '+'
    else '/'
  }

  /** The decoding table: 255 for characters outside the alphabet; '=' counts as zero. */
  function Decode6(c: char): (x: nat)
    ensures x < 64 || x == 255
  {
    if 'A' <= c <= 'Z' then c as int - 'A' as int
    else if 'a' <= c <= 'z' then c as int - 'a' as int + 26
    else if '0' <= c <= '9' then c as int - '0' as int + 52
    else if c == '+' then 62
    else if c == '/' then 63
    else if c == '=' then 0
    else 255
  }

  /** One chunk of `len` bytes; of the bytes behind them the encoder reads whatever is there. */
  function ChunkText(x: Byte, y: Byte, z: Byte, len: nat): (s: string)
    ensures |s| == 4
  {
    [Encode6(x / 4),
     Encode6((x % 4) * 16 + y / 16),
     if len < 2 then '=' else Encode6((y % 16) * 4 + z / 64),
     if len < 3 then '=' else Encode6(z % 64)]
  }

  /** `beyond` are the bytes in memory after the binary, as far as the encoder may read. */
  function Base64Text(bin: seq<Byte>, beyond: seq<Byte>): string
    requires |beyond| >= 2
  {
    if bin == [] then ""
    else if |bin| == 1 then ChunkText(bin[0], beyond[0], beyond[1], 1)
    else if |bin| == 2 then ChunkText(bin[0], bin[1], beyond[0], 2)
    else ChunkText(bin[0], bin[1], bin[2], 3) + Base64Text(bin[3..], beyond)
  }

  lemma {:induction false} Base64Length(bin: seq<Byte>, beyond: seq<Byte>)
    requires |beyond| >= 2
    ensures |Base64Text(bin, beyond)| == (|bin| + 2) / 3 * 4
  {
    hide ChunkText;
    if |bin| > 2 { Base64Length(bin[3..], beyond); }
  }

  /** Decodes four characters over `to`; a bad character leaves it alone, bad padding does not. */
  function ChunkBytes(s: string, to: seq<Byte>): (r: seq<Byte>)
    requires |s| == 4 && 1 <= |to| <= 3
    ensures |r| == |to|
  {
    var t := seq(4, i requires 0 <= i < 4 => Decode6(s[i]));
    if t[0] == 255 || t[1] == 255 || t[2] == 255 || t[3] == 255 then to
    else
      var first: Byte := (t[0] * 4 + t[1] / 16) % 256;
      if |to| == 1 then [first]
      else
        var second: Byte := (t[1] * 16 + t[2] / 4) % 256;
        if |to| == 2 then [first, second] else [first, second, (t[2] % 4) * 64 + t[3]]
  }

  function Base64Bytes(s: string, to: seq<Byte>): (r: seq<Byte>)
    requires |s| >= (|to| + 2) / 3 * 4
    ensures |r| == |to|
  {
    if to == [] then []
    else if |to| < 3 then ChunkBytes(s[..4], to)
    else ChunkBytes(s[..4], to[..3]) + Base64Bytes(s[4..], to[3..])
  }

  /** Decoding errors are not reported: only a text that is too short is. */
  function PullBase64(b: Blob, to: seq<Byte>): (r: (Blob, seq<Byte>))
    ensures |r.1| == |to|
  {
    var needed := (|to| + 2) / 3 * 4;
    if b.None? || |b.value| < needed then (None, to)
    else (Some(b.value[needed..]), Base64Bytes(b.value, to))
  }

  lemma ChunkRoundTrip(x: Byte, y: Byte, z: Byte, to: seq<Byte>)
    requires 1 <= |to| <= 3
    ensures ChunkBytes(ChunkText(x, y, z, |to|), to) == [x, y, z][..|to|]
  {
    SixBits(x, y, z);
  }

  lemma SixBits(x: Byte, y: Byte, z: Byte)
    ensures (x / 4 * 4 + ((x % 4) * 16 + y / 16) / 16) % 256 == x
    ensures (((x % 4) * 16 + y / 16) * 16 + (y % 16) * 4 / 4) % 256 == y
    ensures (((x % 4) * 16 + y / 16) * 16 + ((y % 16) * 4 + z / 64) / 4) % 256 == y
    ensures ((y % 16) * 4 + z / 64) % 4 * 64 + z % 64 == z
  {
    var (a, b, c, d, e, f) := (x / 4, x % 4, y / 16, y % 16, z / 64, z % 64);
    SixBitsOf(b, c, d, e);
    assert x == 4 * a + b && y == 16 * c + d && z == 64 * e + f;
  }

  lemma SixBitsOf(b: nat, c: nat, d: nat, e: nat)
    requires b < 4 && c < 16 && d < 16 && e < 4
    ensures (b * 16 + c) / 16 == b
    ensures (d * 4 + e) / 4 == d && (d * 4 + e) % 4 == e && d * 4 / 4 == d
    ensures ((b * 16 + c) * 16 + d) % 256 == c * 16 + d
  {
  }

  lemma {:induction false} Base64BytesOfText(bin: seq<Byte>, beyond: seq<Byte>, rest: string, to: seq<Byte>)
    requires |beyond| >= 2 && |to| == |bin|
    ensures |Base64Text(bin, beyond)| == (|bin| + 2) / 3 * 4
    ensures Base64Bytes(Base64Text(bin, beyond) + rest, to) == bin
  {
    hide ChunkText, ChunkBytes;
    Base64Length(bin, beyond);
    var s := Base64Text(bin, beyond) + rest;
    if |bin| == 1 {
      ChunkRoundTrip(bin[0], beyond[0], beyond[1], to);
      assert s[..4] == Base64Text(bin, beyond);
    } else if |bin| == 2 {
      ChunkRoundTrip(bin[0], bin[1], beyond[0], to);
      assert s[..4] == Base64Text(bin, beyond);
    } else if |bin| > 2 {
      ChunkRoundTrip(bin[0], bin[1], bin[2], to[..3]);
      assert s[..4] == ChunkText(bin[0], bin[1], bin[2], 3);
      assert s[4..] == Base64Text(bin[3..], beyond) + rest;
      Base64BytesOfText(bin[3..], beyond, rest, to[3..]);
      assert bin == [bin[0], bin[1], bin[2]] + bin[3..];
    }
  }

  /** Bytes of any number come back, whatever the encoder read behind them. */
  lemma Base64RoundTrip(bin: seq<Byte>, beyond: seq<Byte>, rest: string, to: seq<Byte>)
    requires |beyond| >= 2 && |to| == |bin|
    ensures PullBase64(Some(Base64Text(bin, beyond) + rest), to) == (Some(rest), bin)
  {
    Base64BytesOfText(bin, beyond, rest, to);
    assert (Base64Text(bin, beyond) + rest)[(|to| + 2) / 3 * 4..] == rest;
  }

  // ----- Checksums -----

  datatype SumKind = NoSum | Md5 | Sha1 {
    function Size(): nat { match this case NoSum => 0 case Md5 => 16 case Sha1 => 20 }
  }

  /** A digest in the first Size() bytes of a buffer of 20. */
  datatype Checksum = Checksum(kind: SumKind, data: seq<Byte>) {
    predicate Valid() { |data| == 20 }
    function Digest(): seq<Byte>
      requires Valid()
    {
      data[..kind.Size()]
    }
  }

  function Zeros(n: nat): (s: seq<Byte>)
    ensures |s| == n && forall i | 0 <= i < n :: s[i] == 0
  {
    if n == 0 then [] else [0] + Zeros(n - 1)
  }

  /** A checksum field of a fresh object. */
  function NoChecksum(): (c: Checksum)
    ensures c.Valid()
  {
    Checksum(NoSum, Zeros(20))
  }

  /** None: a checksum of no kind cannot be written. */
  function CsumText(c: Checksum, beyond: seq<Byte>): (s: Option<string>)
    requires c.Valid() && |beyond| >= 2
    ensures s.None? <==> c.kind.NoSum?
  {
    match c.kind
    case Md5 => Some(HexText(c.Digest()))
    case Sha1 => Some("Q1" + Base64Text(c.Digest(), beyond))
    case NoSum => None
  }

  predicate CsumReadable(b: Blob) {
    b.Some? && |b.value| >= 2 ==>
      if Dx(b.value[0]) != -1 then HexReadable(b, 16)
      else b.value[0] == 'X' && b.value[1] == '1' ==> HexReadable(Some(b.value[2..]), 20)
  }

  function PullCsum(b: Blob, c: Checksum): (r: (Blob, Checksum))
    requires c.Valid() && CsumReadable(b)
    ensures r.1.Valid()
  {
    if b.None? || |b.value| < 2 then (None, c)
    else if Dx(b.value[0]) != -1 then
      var (b', bytes) := PullHexdump(b, c.data[..16]);
      (b', Checksum(Md5, bytes + c.data[16..]))
    else if b.value[1] != '1' then (None, c)
    else
      var rest := Some(b.value[2..]);
      if b.value[0] == 'X' then
        var (b', bytes) := PullHexdump(rest, c.data);
        (b', Checksum(Sha1, bytes))
      else if b.value[0] == 'Q' then
        var (b', bytes) := PullBase64(rest, c.data);
        (b', Checksum(Sha1, bytes))
      else (None, c.(kind := Sha1))
  }

  /** Either kind of checksum comes back as what it was, and only its own text is consumed. */
  lemma CsumRoundTrip(c: Checksum, beyond: seq<Byte>, rest: string, into: Checksum)
    requires c.Valid() && into.Valid() && |beyond| >= 2 && !c.kind.NoSum?
    ensures
      var b := Some(CsumText(c, beyond).value + rest);
      && CsumReadable(b)
      && PullCsum(b, into).0 == Some(rest)
      && PullCsum(b, into).1 == Checksum(c.kind, c.Digest() + into.data[c.kind.Size()..])
  {
    hide HexText, Base64Text, PullCsum, CsumReadable, Dx;
    if c.kind.Md5? { HexCsumReads(c.Digest(), rest, into); } else { Base64CsumReads(c.Digest(), beyond, rest, into); }
  }

  lemma HexStarts(bytes: seq<Byte>)
    requires bytes != []
    ensures HexText(bytes)[0] == Xd(bytes[0] / 16)
  {
  }

  lemma HexCsumReads(digest: seq<Byte>, rest: string, into: Checksum)
    requires |digest| == 16 && into.Valid()
    ensures
      var b := Some(HexText(digest) + rest);
      CsumReadable(b) && PullCsum(b, into) == (Some(rest), Checksum(Md5, digest + into.data[16..]))
  {
    HexStarts(digest);
    HexRoundTrip(digest, rest, into.data[..16]);
    hide HexText, HexBytes, PullHexdump, Xd, Dx;
    assert (HexText(digest) + rest)[0] == HexText(digest)[0];
  }

  lemma Base64CsumReads(digest: seq<Byte>, beyond: seq<Byte>, rest: string, into: Checksum)
    requires |digest| == 20 && into.Valid() && |beyond| >= 2
    ensures
      var b := Some("Q1" + Base64Text(digest, beyond) + rest);
      CsumReadable(b) && PullCsum(b, into) == (Some(rest), Checksum(Sha1, digest + into.data[20..]))
  {
    hide Base64Text, PullBase64, PullCsum, CsumReadable;
    Base64RoundTrip(digest, beyond, rest, into.data);
    var t := Base64Text(digest, beyond) + rest;
    Q1Reads(t, into);
    assert "Q1" + Base64Text(digest, beyond) + rest == "Q1" + t;
    assert digest + into.data[20..] == digest;
  }

  lemma Q1Reads(t: string, into: Checksum)
    requires into.Valid()
    ensures CsumReadable(Some("Q1" + t))
    ensures
      var (b, bytes) := PullBase64(Some(t), into.data);
      PullCsum(Some("Q1" + t), into) == (b, Checksum(Sha1, bytes))
  {
    hide PullBase64, HexBytes, PullHexdump;
    assert ("Q1" + t)[2..] == t;
  }
}
