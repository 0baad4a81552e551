/** The push and pull operations of apk-tools/src/blob.c in place: pushes fill a buffer from a
    cursor on, pulls advance over a text and write what they decode into a destination. */
module CodecBuffer {
  import opened Wrappers
  import opened Codec

  class PushBuffer {
    const buf: array<char>
    var pos: nat
    var failed: bool

    ghost predicate Valid()
      reads this
    {
      pos <= buf.Length
    }

    ghost function Pushed(): string
      requires Valid()
      reads this, buf
    {
      buf[..pos]
    }

    constructor (size: nat)
      ensures Valid() && fresh(buf) && buf.Length == size && !failed && Pushed() == ""
    {
      buf := new char[size];
      pos, failed := 0, false;
    }

    /** Starts over, at the beginning of the buffer. */
    method Reset()
      modifies this
      ensures Valid() && !failed && Pushed() == ""
    {
      pos, failed := 0, false;
    }

    /** Either the text was appended, or it did not fit and every later push fails too. */
    twostate predicate Appended(text: string)
      requires old(Valid())
      reads this, buf
    {
      && Valid()
      && failed == (old(failed) || |text| > buf.Length - old(pos))
      && (!failed ==> Pushed() == old(Pushed()) + text)
    }

    method PushBlob(text: string)
      requires Valid()
      modifies this, buf
      ensures Appended(text)
    {
      if failed { return; }
      if buf.Length - pos < |text| {
        failed := true;
        return;
      }
      Put(pos, text);
      pos := pos + |text|;
    }

    method PushUint(value: nat, radix: Radix)
      requires Valid() && value < WRAP
      modifies this, buf
      ensures Appended(UintText(value, radix))
    {
      if value == 0 {
        PushBlob("0");
        return;
      }
      var text := FormatUint(value, radix);
      PushBlob(text);
    }

    /** Writes the digits from the last one on, backwards from the end of a small buffer. */
    static method FormatUint(value: nat, radix: Radix) returns (text: string)
      requires value < WRAP
      ensures text == Digits(value, radix)
    {
      hide Xd;
      var tmp := new char[64];
      var at, v := 63, value;
      DigitsLength(value, radix, 11);
      while v != 0
        invariant -1 <= at <= 63 && Digits(value, radix) == Digits(v, radix) + tmp[at + 1..]
        invariant 63 - at + |Digits(v, radix)| <= 11
        decreases v
      {
        ghost var tail := tmp[at + 1..];
        ShiftBack(v, radix);
        tmp[at] := Xd(Last(v, radix));
        at := at - 1;
        assert tmp[at + 1..] == [Xd(Last(v, radix))] + tail;
        v := Over(v, radix);
      }
      text := tmp[at + 1..];
    }

    method PushHexdump(binary: seq<Byte>)
      requires Valid()
      modifies this, buf
      ensures Appended(HexText(binary))
    {
      if failed { return; }
      if buf.Length - pos < |binary| * 2 {
        failed := true;
        return;
      }
      ghost var goal := Pushed() + HexText(binary);
      var d := pos;
      for i := 0 to |binary|
        invariant d + 2 * (|binary| - i) == pos + 2 * |binary|
        invariant goal == buf[..d] + HexText(binary[i..])
        modifies buf
      {
        var pair := [Xd(binary[i] / 16), Xd(binary[i] % 16)];
        assert HexText(binary[i..]) == pair + HexText(binary[i + 1..]);
        Put(d, pair);
        d := d + 2;
      }
      pos := d;
    }

    method Put(at: nat, text: string)
      requires at + |text| <= buf.Length
      modifies buf
      ensures buf[..at + |text|] == old(buf[..at]) + text
    {
      forall i | 0 <= i < |text| { buf[at + i] := text[i]; }
    }

    method PushBase64(binary: seq<Byte>, beyond: seq<Byte>)
      requires Valid() && |beyond| >= 2
      modifies this, buf
      ensures Appended(Base64Text(binary, beyond))
    {
      if failed { return; }
      Base64Length(binary, beyond);
      var needed := (|binary| + 2) / 3 * 4;
      if buf.Length - pos < needed {
        failed := true;
        return;
      }
      WriteBase64(binary, beyond);
      pos := pos + needed;
    }

    method WriteBase64(binary: seq<Byte>, beyond: seq<Byte>)
      requires |beyond| >= 2 && pos + (|binary| + 2) / 3 * 4 <= buf.Length
      modifies buf
      ensures buf[..pos + (|binary| + 2) / 3 * 4] == old(buf[..pos]) + Base64Text(binary, beyond)
    {
      hide ChunkText, Base64Text;
      ghost var goal := buf[..pos] + Base64Text(binary, beyond);
      var src, dst := 0, pos;
      assert binary[0..] == binary;
      for i := 0 to |binary| / 3
        invariant src == 3 * i && dst == pos + 4 * i
        invariant dst <= buf.Length && goal == buf[..dst] + Base64Text(binary[src..], beyond)
      {
        WriteChunk(binary, src, beyond, dst, goal);
        src, dst := src + 3, dst + 4;
      }
      WriteTail(binary, src, beyond, dst);
    }

    method WriteChunk(binary: seq<Byte>, src: nat, beyond: seq<Byte>, dst: nat, ghost goal: string)
      requires src + 3 <= |binary| && |beyond| >= 2 && dst + 4 <= buf.Length
      requires goal == buf[..dst] + Base64Text(binary[src..], beyond)
      modifies buf
      ensures goal == buf[..dst + 4] + Base64Text(binary[src + 3..], beyond)
    {
      hide ChunkText, Base64Text;
      Base64TextFrom(binary, beyond, src);
      Put(dst, ChunkText(binary[src], binary[src + 1], binary[src + 2], 3));
    }

    method WriteTail(binary: seq<Byte>, src: nat, beyond: seq<Byte>, dst: nat)
      requires src <= |binary| < src + 3 && |beyond| >= 2 && dst + (|binary| - src + 2) / 3 * 4 <= buf.Length
      modifies buf
      ensures buf[..dst + (|binary| - src + 2) / 3 * 4] == old(buf[..dst]) + Base64Text(binary[src..], beyond)
    {
      hide ChunkText, Base64Text;
      Base64TextFrom(binary, beyond, src);
      if |binary| - src == 1 {
        Put(dst, ChunkText(binary[src], beyond[0], beyond[1], 1));
      } else if |binary| - src == 2 {
        Put(dst, ChunkText(binary[src], binary[src + 1], beyond[0], 2));
      }
    }

    method PushCsum(c: Checksum, beyond: seq<Byte>)
      requires Valid() && c.Valid() && |beyond| >= 2
      modifies this, buf
      ensures CsumText(c, beyond).Some? ==> Appended(CsumText(c, beyond).value)
      ensures Valid() && (CsumText(c, beyond).None? ==> failed)
    {
      hide HexText, Base64Text;
      match c.kind
      case Md5 => PushHexdump(c.Digest());
      case Sha1 =>
        PushBlob("Q1");
        PushBase64(c.Digest(), beyond);
      case NoSum => failed := true;
    }
  }

  lemma DigitsLength(v: nat, radix: Radix, n: nat)
    requires v < Pow8(n)
    ensures |Digits(v, radix)| <= n
  {
    if v != 0 && n > 0 { DigitsLength(Over(v, radix), radix, n - 1); }
  }

  // ----- Pulling -----

  method ReadUint(b: string, radix: Radix) returns (val: nat, rest: string)
    ensures (val, rest) == PullUint(b, radix)
  {
    val, rest := 0, b;
    while |rest| != 0 && rest[0] != '\0' && DigitOf(rest[0], radix)
      invariant PullUintFrom(val, rest, radix) == PullUint(b, radix)
      decreases |rest|
    {
      val, rest := Shift(val, radix, Dx(rest[0])) % WRAP, rest[1..];
    }
  }

  lemma Base64TextFrom(binary: seq<Byte>, beyond: seq<Byte>, src: nat)
    requires src <= |binary| && |beyond| >= 2
    ensures
      var left := |binary| - src;
      Base64Text(binary[src..], beyond) ==
        if left == 0 then ""
        else if left == 1 then ChunkText(binary[src], beyond[0], beyond[1], 1)
        else if left == 2 then ChunkText(binary[src], binary[src + 1], beyond[0], 2)
        else ChunkText(binary[src], binary[src + 1], binary[src + 2], 3) + Base64Text(binary[src + 3..], beyond)
  {
    hide ChunkText;
    if |binary| - src > 2 { assert binary[src..][3..] == binary[src + 3..]; }
  }

  /** The destination once the bytes from `i` on have been decoded too, and whether that went well. */
  ghost function HexResult(s: string, was: seq<Byte>, done: seq<Byte>, i: nat): (bool, seq<Byte>)
    requires i <= |was| && |s| >= 2 * |was|
  {
    var (ok, bytes) := HexBytes(s[2 * i..], was[i..]);
    (ok, done + bytes)
  }

  lemma HexResultFrom(s: string, was: seq<Byte>, done: seq<Byte>, i: nat)
    requires i < |was| && |s| >= 2 * |was|
    ensures
      var r1, r2 := Dx(s[2 * i]), Dx(s[2 * i + 1]);
      HexResult(s, was, done, i) ==
        if r1 < 0 || r2 < 0 then (false, done + was[i..])
        else HexResult(s, was, done + [r1 * 16 + r2], i + 1)
  {
    hide Dx;
    assert s[2 * i..][2..] == s[2 * (i + 1)..] && was[i..][1..] == was[i + 1..];
    var x, more := Dx(s[2 * i]) * 16 + Dx(s[2 * i + 1]), HexBytes(s[2 * (i + 1)..], was[i + 1..]).1;
    assert done + ([x] + more) == (done + [x]) + more;
  }

  method ReadHexdump(b: Blob, to: array<Byte>) returns (rest: Blob)
    requires HexReadable(b, to.Length)
    modifies to
    ensures (rest, to[..]) == PullHexdump(b, old(to[..]))
  {
    if b.None? || to.Length > 2 * |b.value| { return None; }
    hide Dx;
    var s := b.value;
    ghost var was := to[..];
    assert s[0..] == s && was[0..] == was && [] + HexBytes(s, was).1 == HexBytes(s, was).1;
    for i := 0 to to.Length
      invariant to[i..] == was[i..] && HexBytes(s, was) == HexResult(s, was, to[..i], i)
    {
      HexResultFrom(s, was, to[..i], i);
      var r1, r2 := Dx(s[2 * i]), Dx(s[2 * i + 1]);
      if r1 < 0 || r2 < 0 {
        assert to[..] == to[..i] + was[i..];
        return None;
      }
      ghost var done := to[..i];
      to[i] := r1 * 16 + r2;
      assert to[..i + 1] == done + [to[i]];
    }
    assert was[to.Length..] == [] && to[..to.Length] + [] == to[..];
    rest := Some(s[2 * to.Length..]);
  }

  lemma Base64BytesFrom(s: string, was: seq<Byte>, src: nat, dst: nat, len: nat)
    requires dst < |was| && |s| >= src + (|was| - dst + 2) / 3 * 4
    requires len == if |was| - dst < 3 then |was| - dst else 3
    ensures Base64Bytes(s[src..], was[dst..]) ==
            ChunkBytes(s[src..src + 4], was[dst..dst + len]) + Base64Bytes(s[src + 4..], was[dst + len..])
  {
    hide ChunkBytes;
    assert s[src..][..4] == s[src..src + 4] && was[dst..][..len] == was[dst..dst + len];
    assert s[src..][4..] == s[src + 4..] && was[dst..][len..] == was[dst + len..];
    if len < 3 {
      assert was[dst + len..] == [] && was[dst..dst + len] == was[dst..];
      var chunk := ChunkBytes(s[src..src + 4], was[dst..dst + len]);
      assert chunk + [] == chunk && Base64Bytes(s[src + 4..], was[dst + len..]) == [];
    }
  }

  method ReadChunk(s: string, src: nat, to: array<Byte>, dst: nat, len: nat)
    requires 1 <= len <= 3 && src + 4 <= |s| && dst + len <= to.Length
    modifies to
    ensures to[..dst + len] == old(to[..dst]) + ChunkBytes(s[src..src + 4], old(to[dst..dst + len]))
    ensures to[dst + len..] == old(to[dst + len..])
  {
    var chunk := ChunkBytes(s[src..src + 4], to[dst..dst + len]);
    forall i | 0 <= i < len { to[dst + i] := chunk[i]; }
  }

  method ReadBase64(b: Blob, to: array<Byte>) returns (rest: Blob)
    modifies to
    ensures (rest, to[..]) == PullBase64(b, old(to[..]))
  {
    var needed := (to.Length + 2) / 3 * 4;
    if b.None? || |b.value| < needed { return None; }
    DecodeBase64(b.value, to);
    rest := Some(b.value[needed..]);
  }

  method DecodeBase64(s: string, to: array<Byte>)
    requires |s| >= (to.Length + 2) / 3 * 4
    modifies to
    ensures to[..] == Base64Bytes(s, old(to[..]))
  {
    hide ChunkBytes, Base64Bytes;
    ghost var goal := Base64Bytes(s, to[..]);
    var src, dst := 0, 0;
    assert s[0..] == s && to[0..] == to[..];
    for i := 0 to to.Length / 3
      invariant dst == 3 * i && dst <= to.Length && |s| >= src + (to.Length - dst + 2) / 3 * 4
      invariant goal == to[..dst] + Base64Bytes(s[src..], to[dst..])
    {
      StepChunk(s, src, to, dst, 3, goal);
      src, dst := src + 4, dst + 3;
    }
    var i := to.Length % 3;
    if i != 0 {
      StepChunk(s, src, to, dst, i, goal);
      src, dst := src + 4, dst + i;
    }
    Base64BytesOfNone(s[src..]);
    assert to[dst..] == [] && goal == to[..dst] + [] && to[..dst] == to[..];
  }

  method StepChunk(s: string, src: nat, to: array<Byte>, dst: nat, len: nat, ghost goal: seq<Byte>)
    requires dst < to.Length && |s| >= src + (to.Length - dst + 2) / 3 * 4
    requires len == if to.Length - dst < 3 then to.Length - dst else 3
    requires goal == to[..dst] + Base64Bytes(s[src..], to[dst..])
    modifies to
    ensures goal == to[..dst + len] + Base64Bytes(s[src + 4..], to[dst + len..])
  {
    hide ChunkBytes, Base64Bytes;
    Base64BytesFrom(s, to[..], src, dst, len);
    assert to[..][dst..] == to[dst..] && to[..][dst..dst + len] == to[dst..dst + len];
    ReadChunk(s, src, to, dst, len);
    assert to[..][dst + len..] == to[dst + len..];
  }

  lemma Base64BytesOfNone(s: string)
    ensures Base64Bytes(s, []) == []
  {
  }

  method ReadCsum(b: Blob, c: Checksum) returns (rest: Blob, c': Checksum)
    requires c.Valid() && CsumReadable(b)
    ensures (rest, c') == PullCsum(b, c)
  {
    if b.None? || |b.value| < 2 { return None, c; }
    var s := b.value;
    if Dx(s[0]) != -1 {
      var to := new Byte[16](i requires 0 <= i < 16 => c.data[i]);
      assert to[..] == c.data[..16];
      rest := ReadHexdump(b, to);
      return rest, Checksum(Md5, to[..] + c.data[16..]);
    }
    if s[1] != '1' { return None, c; }
    var to := new Byte[20](i requires 0 <= i < 20 => c.data[i]);
    assert to[..] == c.data;
    if s[0] == 'X' {
      rest := ReadHexdump(Some(s[2..]), to);
    } else if s[0] == 'Q' {
      rest := ReadBase64(Some(s[2..]), to);
    } else {
      rest := None;
    }
    c' := Checksum(Sha1, to[..]);
  }
}
