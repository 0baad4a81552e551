/** What the readers of numbers and checksums accept besides what the program itself writes. */
module CodecLaws {
  import opened Wrappers
  import opened Codec

  predicate IsHex(c: char) { '0' <= c <= '9' || 'a' <= c <= 'f' || 'A' <= c <= 'F' }

  const UPPER := "0123456789ABCDEF"

  /** Upper case digits, which are never written. */
  function UpperHex(bytes: seq<Byte>): (s: string)
    ensures |s| == 2 * |bytes|
  {
    if bytes == [] then "" else [UPPER[bytes[0] / 16], UPPER[bytes[0] % 16]] + UpperHex(bytes[1..])
  }

  lemma UpperDigit(d: nat)
    requires d < 16
    ensures Dx(UPPER[d]) == d
  {
  }

  /** A hex dump is read exactly if all its digits are such. */
  lemma {:induction false} HexReadExactly(s: string, a: seq<Byte>)
    requires |s| >= 2 * |a|
    ensures HexBytes(s, a).0 <==> forall i | 0 <= i < 2 * |a| :: IsHex(s[i])
    decreases a
  {
    if a != [] {
      HexReadExactly(s[2..], a[1..]);
      assert forall i | 2 <= i < 2 * |a| :: s[i] == s[2..][i - 2];
    }
  }

  lemma {:induction false} UpperHexRead(bytes: seq<Byte>, rest: string, a: seq<Byte>)
    requires |a| == |bytes|
    ensures HexBytes(UpperHex(bytes) + rest, a) == (true, bytes)
    decreases bytes
  {
    if bytes != [] {
      hide Dx;
      UpperDigit(bytes[0] / 16);
      UpperDigit(bytes[0] % 16);
      UpperHexRead(bytes[1..], rest, a[1..]);
      OneByte(UPPER[bytes[0] / 16], UPPER[bytes[0] % 16], UpperHex(bytes[1..]) + rest, a);
      assert UpperHex(bytes) + rest == [UPPER[bytes[0] / 16], UPPER[bytes[0] % 16]] + (UpperHex(bytes[1..]) + rest);
      assert bytes == [bytes[0]] + bytes[1..];
    }
  }

  lemma OneByte(c: char, d: char, more: string, a: seq<Byte>)
    requires a != [] && |more| >= 2 * |a| - 2 && Dx(c) >= 0 && Dx(d) >= 0
    ensures HexBytes([c, d] + more, a) == (HexBytes(more, a[1..]).0, [Dx(c) * 16 + Dx(d)] + HexBytes(more, a[1..]).1)
  {
    hide Dx;
    assert ([c, d] + more)[2..] == more;
  }

  /** The spelling of a SHA-1 checksum that is only read: X1 and hex digits, of either case. */
  lemma HexSha1Read(bytes: seq<Byte>, rest: string, into: Checksum)
    requires into.Valid() && |bytes| == 20
    ensures
      var b := Some("X1" + HexText(bytes) + rest);
      CsumReadable(b) && PullCsum(b, into) == (Some(rest), Checksum(Sha1, bytes))
    ensures
      var b := Some("X1" + UpperHex(bytes) + rest);
      CsumReadable(b) && PullCsum(b, into) == (Some(rest), Checksum(Sha1, bytes))
  {
    HexRoundTrip(bytes, rest, into.data);
    UpperHexRead(bytes, rest, into.data);
    assert (UpperHex(bytes) + rest)[2 * |bytes|..] == rest;
    hide HexBytes, HexText, UpperHex;
    ReadBehindMark(HexText(bytes) + rest, into);
    ReadBehindMark(UpperHex(bytes) + rest, into);
    assert "X1" + HexText(bytes) + rest == "X1" + (HexText(bytes) + rest);
    assert "X1" + UpperHex(bytes) + rest == "X1" + (UpperHex(bytes) + rest);
  }

  lemma ReadBehindMark(s: string, into: Checksum)
    requires into.Valid() && |s| >= 40
    ensures CsumReadable(Some("X1" + s))
    ensures
      var (b, bytes) := PullHexdump(Some(s), into.data);
      PullCsum(Some("X1" + s), into) == (b, Checksum(Sha1, bytes))
  {
    hide HexBytes;
    assert ("X1" + s)[2..] == s;
  }

  /** What begins with no hex digit has to begin with Q1 or X1. */
  lemma OtherCsumsRefused(s: string, into: Checksum)
    requires into.Valid() && CsumReadable(Some(s)) && (s == "" || !IsHex(s[0]))
    requires |s| < 2 || s[1] != '1' || s[0] !in ['Q', 'X']
    ensures PullCsum(Some(s), into).0 == None
  {
  }

  // ----- What is written -----

  const LOWER := "0123456789abcdef"

  function Run(first: char, n: nat): (s: string)
    requires first as nat + n < 128
    ensures |s| == n && forall i | 0 <= i < n :: s[i] == (first as nat + i) as char
  {
    seq(n, i requires 0 <= i < n => (first as nat + i) as char)
  }

  /** A to Z, a to z, 0 to 9, plus and slash. */
  function Alphabet(): (s: string)
    ensures |s| == 64
  {
    Run('A', 26) + Run('a', 26) + Run('0', 10) + "+/"
  }

  /** The digits and letters that stand for values. */
  lemma Alphabets(x: nat)
    ensures x < 16 ==> Xd(x) == LOWER[x] && Dx(LOWER[x]) == x
    ensures x < 64 ==> Encode6(x) == Alphabet()[x] && Decode6(Alphabet()[x]) == x
  {
  }

  /** Three bytes are four letters, most significant bits first; what is short is filled up. */
  lemma ThreeBytes(x: Byte, y: Byte, z: Byte) returns (a: nat, b: nat, c: nat, d: nat)
    ensures a < 64 && b < 64 && c < 64 && d < 64
    ensures ((a * 64 + b) * 64 + c) * 64 + d == (x * 256 + y) * 256 + z
    ensures ChunkText(x, y, z, 3) == [Alphabet()[a], Alphabet()[b], Alphabet()[c], Alphabet()[d]]
    ensures ChunkText(x, y, z, 2) == [Alphabet()[a], Alphabet()[b], Alphabet()[c]] + "="
    ensures ChunkText(x, y, z, 1) == [Alphabet()[a], Alphabet()[b]] + "=="
  {
    hide Encode6, Alphabet;
    a, b, c, d := x / 4, (x % 4) * 16 + y / 16, (y % 16) * 4 + z / 64, z % 64;
    Alphabets(a);
    Alphabets(b);
    Alphabets(c);
    Alphabets(d);
  }
}
