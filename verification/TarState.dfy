/** Writing and parsing tar archives, with a header buffer and a position in the stream. */
module TarState {
  import opened Wrappers
  import opened Codec
  import opened Streams
  import opened Tar
  import opened TarRoundTrip

  /** `t` in place of what is at `at`. */
  function Splice(s: string, at: nat, t: string): (r: string)
    requires at + |t| <= |s|
    ensures |r| == |s| && r[at..at + |t|] == t
    ensures forall a, b | 0 <= a <= b <= at || at + |t| <= a <= b <= |s| :: r[a..b] == s[a..b]
  {
    s[..at] + t + s[at + |t|..]
  }

  // ----- Headers -----

  /** The field's digits behind `p` are there; those of `v` are still to come. */
  ghost predicate Filling(now: string, was: string, at: nat, l: nat, value: nat, p: int, v: nat) {
    && |now| == |was| && at - 1 <= p < at + l - 1 && at + l <= |was|
    && now[..at] == was[..at] && now[at + l..] == was[at + l..] && now[at + l - 1] == NUL
    && Octal(l - 1, value) == Octal(p + 1 - at, v) + now[p + 1..at + l - 1]
  }

  lemma FillingFirst(was: string, at: nat, l: nat, value: nat)
    requires l > 0 && at + l <= |was|
    ensures Filling(was[at + l - 1 := NUL], was, at, l, value, at + l - 2, value)
  {
  }

  lemma FillingNext(now: string, was: string, at: nat, l: nat, value: nat, p: nat, v: nat)
    requires Filling(now, was, at, l, value, p, v) && p >= at
    ensures Filling(now[p := Xd(v % 8)], was, at, l, value, p - 1, v / 8)
  {
  }

  lemma FillingLast(now: string, was: string, at: nat, l: nat, value: nat, v: nat)
    requires Filling(now, was, at, l, value, at - 1, v)
    ensures now == Splice(was, at, OctalField(l, value))
  {
  }

  /** put_octal: from the last digit on. */
  method PutOctal(buf: array<char>, at: nat, l: nat, value: nat)
    requires l > 0 && at + l <= buf.Length
    modifies buf
    ensures buf[..] == Splice(old(buf[..]), at, OctalField(l, value))
  {
    hide Xd, Octal, Filling;
    ghost var was := buf[..];
    FillingFirst(was, at, l, value);
    var p: int, v := at + l - 1, value;
    buf[p] := NUL;
    p := p - 1;
    while v != 0 && p >= at
      invariant at - 1 <= p < at + l - 1 && Filling(buf[..], was, at, l, value, p, v)
      decreases p
    {
      FillingNext(buf[..], was, at, l, value, p, v);
      buf[p] := Xd(v % 8);
      p, v := p - 1, v / 8;
    }
    while p >= at
      invariant at - 1 <= p < at + l - 1 && Filling(buf[..], was, at, l, value, p, v) && (p >= at ==> v == 0)
      decreases p
    {
      FillingNext(buf[..], was, at, l, value, p, v);
      buf[p] := Xd(0);
      p := p - 1;
    }
    FillingLast(buf[..], was, at, l, value, v);
  }

  /** strncpy, and the other copies of text into the header. */
  method PutText(buf: array<char>, at: nat, text: string)
    requires at + |text| <= buf.Length
    modifies buf
    ensures buf[..] == Splice(old(buf[..]), at, text)
  {
    forall i | 0 <= i < |text| { buf[at + i] := text[i]; }
  }

  lemma Assembled(name: string, mode: string, uid: string, gid: string, size: string, mtime: string, sum: string,
                  flag: string, magic: string, uname: string, gname: string)
    requires |name| == 100 && |mode| == 8 && |uid| == 8 && |gid| == 8 && |size| == 12 && |mtime| == 12 && |sum| == 8
    requires |flag| == 1 && |magic| == 8 && |uname| == 32 && |gname| == 32
    ensures
      Written(name, mode, uid, gid, size, mtime, sum, flag, magic, uname, gname) ==
        (name + mode + uid + gid + size + mtime) + sum + (flag + Nuls(100) + magic + uname + gname + Nuls(183))
  {
    hide Nuls, Splice;
    var w := Written(name, mode, uid, gid, size, mtime, sum, flag, magic, uname, gname);
    assert forall a, b | 0 <= a <= b <= BLOCK :: Nuls(BLOCK)[a..b] == Nuls(b - a) by { NulsParts(); }
    assert w[0..100] == name && w[..100] == w[0..100] && w[100..108] == mode && w[108..116] == uid && w[116..124] == gid;
    assert w[124..136] == size && w[136..148] == mtime && w[148..156] == sum && w[156..157] == flag;
    assert w[157..257] == Nuls(100) && w[257..265] == magic && w[265..297] == uname && w[297..329] == gname;
    assert w[329..512] == Nuls(183) && w[329..] == w[329..512];
  }

  lemma {:induction false} NulsAre(s: string)
    requires forall i | 0 <= i < |s| :: s[i] == NUL
    ensures s == Nuls(|s|)
  {
  }

  lemma NulsParts()
    ensures forall a, b | 0 <= a <= b <= BLOCK :: Nuls(BLOCK)[a..b] == Nuls(b - a)
  {
  }

  /** The order in which the fields of a header are written. */
  function Written(name: string, mode: string, uid: string, gid: string, size: string, mtime: string, sum: string,
                   flag: string, magic: string, uname: string, gname: string): (h: string)
    requires |name| == 100 && |mode| == 8 && |uid| == 8 && |gid| == 8 && |size| == 12 && |mtime| == 12 && |sum| == 8
    requires |flag| == 1 && |magic| == 8 && |uname| == 32 && |gname| == 32
    ensures |h| == BLOCK
  {
    var b := Splice(Splice(Splice(Splice(Nuls(BLOCK), 156, flag), 0, name), 265, uname), 297, gname);
    var c := Splice(Splice(Splice(Splice(Splice(b, 124, size), 108, uid), 116, gid), 100, mode), 136, mtime);
    Splice(Splice(c, 257, magic), 148, sum)
  }

  /** The bytes of the header, added up. */
  method Checksum(buf: array<char>) returns (sum: nat)
    ensures sum == ByteSum(buf[..])
  {
    sum := 0;
    for i := 0 to buf.Length
      invariant sum == ByteSum(buf[..i])
    {
      assert buf[..i + 1][..i] == buf[..i];
      sum := sum + buf[i] as int;
    }
    assert buf[..buf.Length] == buf[..];
  }

  /** The header with blanks in the place of its checksum. */
  method FillHeader(buf: array<char>, e: Entry, now: nat)
    requires buf.Length == BLOCK && buf[..] == Nuls(BLOCK)
    modifies buf
    ensures buf[..] == HeaderFront(e, now) + BLANKS + HeaderBack(e)
  {
    hide Nuls, Splice, OctalField, Field;
    PutText(buf, 156, "0");
    PutText(buf, 0, Field(Or(e.name, ""), 100));
    PutText(buf, 265, Field(Or(e.uname, ROOT), 32));
    PutText(buf, 297, Field(Or(e.gname, ROOT), 32));
    PutOctal(buf, 124, 12, e.size);
    PutOctal(buf, 108, 8, e.uid);
    PutOctal(buf, 116, 8, e.gid);
    PutOctal(buf, 100, 8, e.mode % IFMT);
    PutOctal(buf, 136, 12, if e.mtime != 0 then e.mtime else now);
    PutText(buf, 257, Field(MAGIC, 8));
    PutText(buf, 148, BLANKS);
    Assembled(Field(Or(e.name, ""), 100), OctalField(8, e.mode % IFMT), OctalField(8, e.uid), OctalField(8, e.gid),
              OctalField(12, e.size), OctalField(12, if e.mtime != 0 then e.mtime else now), BLANKS, "0",
              Field(MAGIC, 8), Field(Or(e.uname, ROOT), 32), Field(Or(e.gname, ROOT), 32));
  }

  lemma SumInPlace(front: string, sum: string, back: string)
    requires |sum| == 7
    ensures Splice(front + BLANKS + back, |front|, sum) == front + (sum + " ") + back
  {
  }

  method WriteHeader(e: Entry, now: nat) returns (buf: array<char>)
    ensures fresh(buf) && buf[..] == Header(e, now)
  {
    hide Nuls, Splice, OctalField, ByteSum, HeaderFront, HeaderBack;
    buf := new char[BLOCK](_ => NUL);
    NulsAre(buf[..]);
    FillHeader(buf, e, now);
    var sum := Checksum(buf);
    SumInPlace(HeaderFront(e, now), OctalField(7, sum), HeaderBack(e));
    PutOctal(buf, 148, 7, sum);
  }

  /** apk_tar_write_entry; without an entry, the end of the archive.  Only regular files are written;
      it succeeds if the stream takes all. */
  method WriteEntry(os: OutStream, e: Option<Entry>, data: Option<string>, now: nat) returns (ok: bool)
    requires e.Some? && data.Some? ==> |data.value| == e.value.size
    modifies os
    ensures os.Now() == old(os.Now()).Take(EntryText(e, data, now))
    ensures ok == ((e.Some? ==> IsRegular(e.value.mode)) && |EntryText(e, data, now)| <= old(os.room))
  {
    hide Nuls, Header;
    ghost var k := os.Now();
    TakeNothing(k);
    if e.None? {
      assert Nuls(BLOCK) + Nuls(BLOCK) == Nuls(2 * BLOCK) by { NulsAre(Nuls(BLOCK) + Nuls(BLOCK)); }
      assert "" + Nuls(BLOCK) == Nuls(BLOCK);
      ok := os.Send(Nuls(BLOCK), k, "");
      if !ok { TakeFull(k, Nuls(BLOCK), Nuls(BLOCK)); return; }
      ok := os.Send(Nuls(BLOCK), k, Nuls(BLOCK));
      return;
    }
    if !IsRegular(e.value.mode) { return false; }
    var header := WriteHeader(e.value, now);
    ghost var h := Header(e.value, now);
    assert "" + h == h;
    ok := os.Send(header[..], k, "");
    if data.None? { return; }
    ghost var padding := Nuls(PadOf(e.value.size));
    assert h + data.value + padding == h + (data.value + padding);
    if !ok { TakeFull(k, h, data.value + padding); return; }
    ok := os.Send(data.value, k, h);
    if !ok { TakeFull(k, h + data.value, padding); return; }
    ok := WritePadding(os, e.value.size, k, h + data.value);
  }

  /** What is written for an entry, or without one. */
  function EntryText(e: Option<Entry>, data: Option<string>, now: nat): string {
    if e.None? then Nuls(2 * BLOCK)
    else if !IsRegular(e.value.mode) then ""
    else if data.Some? then Header(e.value, now) + data.value + Nuls(PadOf(e.value.size))
    else Header(e.value, now)
  }

  /** apk_tar_write_padding. */
  method WritePadding(os: OutStream, size: nat, ghost k: Sink, ghost done: string) returns (ok: bool)
    requires os.Now() == k.Take(done) && |done| <= k.room
    modifies os
    ensures os.Now() == k.Take(done + Nuls(PadOf(size))) && ok == (|done + Nuls(PadOf(size))| <= k.room)
  {
    var pad := BLOCK - size % BLOCK;
    if pad == BLOCK {
      assert done + "" == done;
      return true;
    }
    ok := os.Send(Nuls(pad), k, done);
  }

  // ----- Parsing -----

  /** tar_entry_read: no more than what is left of the entry. */
  class EntryStream {
    const tar: InStream
    var left: nat

    constructor (tar: InStream, size: nat)
      ensures this.tar == tar && left == size
    {
      this.tar, left := tar, size;
    }

    method Read(size: nat) returns (s: string)
      modifies this, tar
      ensures s == Take(old(tar.data), Min(size, old(left))) && left == old(left) - |s| && old(tar.data) == s + tar.data
    {
      var n := if size > left then left else size;
      if n == 0 { return ""; }
      s := tar.Take(n);
      left := left - |s|;
    }
  }

  /** A callback that reads `take` bytes, `piece` at a time, as long as there are any. */
  method ReadContent(es: EntryStream, take: nat, piece: nat) returns (content: string)
    requires piece > 0
    modifies es, es.tar
    ensures content == old(es.tar.data)[..Min(take, Min(old(es.left), |old(es.tar.data)|))]
    ensures es.left == old(es.left) - |content| && es.tar.data == old(es.tar.data)[|content|..]
  {
    content := "";
    ghost var all := es.tar.data;
    while |content| < take
      invariant |content| <= Min(take, Min(old(es.left), |all|))
      invariant content == all[..|content|] && es.tar.data == all[|content|..] && es.left == old(es.left) - |content|
      decreases take - |content|
    {
      var s := es.Read(Min(piece, take - |content|));
      if s == "" { return; }
      content := content + s;
    }
  }

  /** The rest of the archive: only empty headers may follow. */
  method ReadTrailer(tar: InStream, ghost at: nat) returns (result: int)
    modifies tar
    ensures result == Trailer(old(tar.data), at).result && Trailer(old(tar.data), at).seen == []
  {
    var buf := new char[BLOCK];
    ghost var pos: nat := at;
    var n := tar.Read(buf, 0, BLOCK);
    ghost var all := buf[..n] + tar.data;
    while n == BLOCK
      invariant n <= BLOCK && (n < BLOCK ==> tar.data == "")
      invariant Trailer(buf[..n] + tar.data, pos).result == Trailer(all, at).result
      invariant Trailer(buf[..n] + tar.data, pos).seen == Trailer(all, at).seen
      decreases n + |tar.data|
    {
      if buf[0] != NUL { return -EBADMSG; }
      assert (buf[..n] + tar.data)[BLOCK..] == tar.data;
      ghost var rest := tar.data;
      n := tar.Read(buf, 0, BLOCK);
      pos := pos + BLOCK;
      assert buf[..n] + tar.data == rest;
    }
    return if n > 0 then -EBADMSG else 0;
  }

  /** The outcome is what has been seen so far, and what the rest of the stream gives. */
  predicate Leads(all: Option<Outcome>, seen: seq<Seen>, rest: Option<Outcome>) {
    && all.Some? == rest.Some?
    && (all.Some? ==> all.value.result == rest.value.result && all.value.seen == seen + rest.value.seen)
  }

  lemma LeadsOn(all: Option<Outcome>, seen: seq<Seen>, at: nat, now: seq<Seen>, rest: Option<Outcome>)
    requires Leads(all, seen, ThenMore(at, now, rest))
    ensures Leads(all, seen + now, rest)
  {
  }

  lemma LongReads(h: string, rest: string, at: nat, ended: bool, name: Option<string>, k: nat, cb: Callback)
    requires |h| == BLOCK && h[0] != NUL && GetOctal(h[124..136]) >= 0 && h[156] == 'L'
    ensures
      var size := InfoOf(h, name).size;
      Parse(h + rest, at, ended, name, k, cb) ==
        ThenMore(at, [], After(rest, at + BLOCK, size + Skip(at + BLOCK + size, 0, 0), ended, Some(CStr(Take(rest, size))),
                              k, cb))
  {
    hide GetOctal, InfoOf, CStr, Trailer, PadOf, Drop, Take, ThenMore;
    assert (h + rest)[..BLOCK] == h && (h + rest)[BLOCK..] == rest;
  }

  lemma SkippedReads(h: string, rest: string, at: nat, ended: bool, name: Option<string>, k: nat, cb: Callback)
    requires |h| == BLOCK && h[0] != NUL && GetOctal(h[124..136]) >= 0 && h[156] != 'L' && TypeOf(h[156]) == 0
    ensures
      Parse(h + rest, at, ended, name, k, cb) ==
        ThenMore(at, [], After(rest, at + BLOCK, Skip(at + BLOCK, 0, InfoOf(h, name).size), ended, name, k, cb))
  {
    hide GetOctal, InfoOf, CStr, Trailer, Skip, Drop, Take, ThenMore;
    assert (h + rest)[..BLOCK] == h && (h + rest)[BLOCK..] == rest;
  }

  lemma CalledReads(h: string, rest: string, at: nat, ended: bool, name: Option<string>, k: nat, cb: Callback)
    requires |h| == BLOCK && h[0] != NUL && GetOctal(h[124..136]) >= 0 && h[156] != 'L' && TypeOf(h[156]) != 0
    ensures
      var info := InfoOf(h, name);
      var content := rest[..Min(cb.take(k, info), Min(info.size, |rest|))];
      Parse(h + rest, at, ended, name, k, cb) ==
        if cb.answer(k, info, content) != 0 then Some(Outcome(cb.answer(k, info, content), [Seen(info, content)], [at]))
        else
          ThenMore(at, [Seen(info, content)],
                   After(rest, at + BLOCK, |content| + Skip(at + BLOCK + |content|, 0, info.size - |content|),
                         ended, None, k + 1, cb))
  {
    hide GetOctal, InfoOf, CStr, Trailer, Skip, Drop, Take, ThenMore;
    assert (h + rest)[..BLOCK] == h && (h + rest)[BLOCK..] == rest;
  }

  /** The parse of what is behind the next `n` bytes. */
  function After(rest: string, pos: nat, n: nat, ended: bool, name: Option<string>, k: nat, cb: Callback): Option<Outcome> {
    Parse(Drop(rest, n), pos + n, ended, name, k, cb)
  }

  /** What a read leaves, and what two reads leave. */
  lemma TakeLeaves(was: string, s: string, data: string, n: nat)
    requires s == (if |was| < n then was else was[..n]) && was == s + data
    ensures data == Drop(was, n) && s == Take(was, n)
  {
  }

  lemma DropTwice(s: string, m: nat, n: nat)
    ensures Drop(Drop(s, m), n) == Drop(s, m + n)
  {
  }

  /** One entry: its name for the next one, or its data for the callback; then up to the next block. */
  method ParseEntry(tar: InStream, h: string, offset: nat, ghost ended: bool, name: Option<string>, k: nat,
                    cb: Callback, piece: nat)
    returns (error: int, offset': nat, name': Option<string>, k': nat, now: seq<Seen>)
    requires |h| == BLOCK && h[0] != NUL && GetOctal(h[124..136]) >= 0 && piece > 0 && offset >= BLOCK
    modifies tar
    ensures |tar.data| <= |old(tar.data)|
    ensures error != 0 ==>
              Parse(h + old(tar.data), offset - BLOCK, ended, name, k, cb) == Some(Outcome(error, now, [offset - BLOCK]))
    ensures error == 0 ==>
              Parse(h + old(tar.data), offset - BLOCK, ended, name, k, cb) ==
              ThenMore(offset - BLOCK, now, Parse(tar.data, offset', ended, name', k', cb))
  {
    hide GetOctal, InfoOf, CStr, Parse, Skip, PadOf, Drop, ThenMore, Take;
    ghost var rest, at := tar.data, offset - BLOCK;
    var info := InfoOf(h, name);
    error, offset', name', k', now := 0, offset, name, k, [];
    if h[156] == 'L' {
      LongReads(h, rest, at, ended, name, k, cb);
      var text := tar.Take(info.size);
      TakeLeaves(rest, text, tar.data, info.size);
      name' := Some(CStr(text));
      offset' := SkipRest(tar, rest, offset + info.size, info.size, 0);
    } else if TypeOf(h[156]) == 0 {
      SkippedReads(h, rest, at, ended, name, k, cb);
      DropNone(rest);
      offset' := SkipRest(tar, rest, offset, 0, info.size);
    } else {
      CalledReads(h, rest, at, ended, name, k, cb);
      var es := new EntryStream(tar, info.size);
      var content := ReadContent(es, cb.take(k, info), piece);
      now, error := [Seen(info, content)], cb.answer(k, info, content);
      if error != 0 { return; }
      name', k' := None, k + 1;
      DropSome(rest, |content|);
      offset' := SkipRest(tar, rest, offset + |content|, |content|, es.left);
    }
  }

  /** Skips what is left of an entry, of which `done` bytes were read, and up to the next block. */
  method SkipRest(tar: InStream, ghost rest: string, offset: nat, ghost done: nat, left: nat) returns (offset': nat)
    requires tar.data == Drop(rest, done)
    modifies tar
    ensures |tar.data| <= |old(tar.data)|
    ensures offset' == offset + Skip(offset, 0, left) && tar.data == Drop(rest, done + Skip(offset, 0, left))
  {
    hide PadOf, Drop;
    var toskip := left + PadOf(offset + left);
    ghost var here := tar.data;
    var skipped := tar.Take(toskip);
    TakeLeaves(here, skipped, tar.data, toskip);
    DropTwice(rest, done, toskip);
    offset' := offset + toskip;
  }

  lemma DropNone(s: string)
    ensures Drop(s, 0) == s
  {
  }

  lemma DropSome(s: string, n: nat)
    requires n <= |s|
    ensures Drop(s, n) == s[n..]
  {
  }

  /** apk_tar_parse.  None: a size that the header's field does not hold as an int. */
  method ParseTar(tar: InStream, cb: Callback, piece: nat) returns (result: Option<int>, seen: seq<Seen>)
    requires piece > 0
    modifies tar
    ensures
      var o := Parse(old(tar.data), 0, false, None, 0, cb);
      && result.Some? == o.Some?
      && (o.Some? ==> result.value == o.value.result && seen == o.value.seen)
  {
    hide GetOctal, InfoOf, CStr, PadOf, Parse, ThenMore, Leads;
    ghost var all := Parse(tar.data, 0, false, None, 0, cb);
    var offset: nat, end, name: Option<string>, k: nat := 0, false, None, 0;
    seen := [];
    LeadsFirst(all);
    ghost var data := tar.data;
    var header := tar.Take(BLOCK);
    assert header + tar.data == data;
    while |header| == BLOCK
      invariant |header| <= BLOCK && (|header| < BLOCK ==> tar.data == "")
      invariant Leads(all, seen, Parse(header + tar.data, offset, end, name, k, cb))
      decreases |header| + |tar.data|
    {
      ghost var s, at := header + tar.data, offset;
      assert s[BLOCK..] == tar.data && s[..BLOCK] == header;
      offset := offset + BLOCK;
      if header[0] == NUL {
        EmptyReads(s, at, name, k, cb);
        if end {
          var r := ReadTrailer(tar, offset);
          LeadsLast(all, seen, Parse(s, at, end, name, k, cb));
          return Some(r), seen;
        }
        LeadsOn(all, seen, at, [], Parse(tar.data, offset, true, name, k, cb));
        assert seen + [] == seen;
        end := true;
      } else {
        if GetOctal(header[124..136]) < 0 {
          NegativeReads(s, at, end, name, k, cb);
          LeadsLast(all, seen, None);
          return None, seen;
        }
        var error, now;
        error, offset, name, k, now := ParseEntry(tar, header, offset, end, name, k, cb, piece);
        if error != 0 {
          LeadsLast(all, seen, Some(Outcome(error, now, [at])));
          return Some(error), seen + now;
        }
        LeadsOn(all, seen, at, now, Parse(tar.data, offset, end, name, k, cb));
        seen := seen + now;
      }
      data := tar.data;
      header := tar.Take(BLOCK);
      assert header + tar.data == data;
    }
    assert header + tar.data == header;
    ShortReads(header, offset, end, name, k, cb);
    LeadsLast(all, seen, Parse(header, offset, end, name, k, cb));
    return Some(if |header| > 0 then -EBADMSG else 0), seen;
  }

  lemma LeadsFirst(all: Option<Outcome>)
    ensures Leads(all, [], all)
  {
  }

  lemma LeadsLast(all: Option<Outcome>, seen: seq<Seen>, rest: Option<Outcome>)
    requires Leads(all, seen, rest)
    ensures all.Some? == rest.Some?
    ensures all.Some? ==> all.value.result == rest.value.result && all.value.seen == seen + rest.value.seen
    ensures all.Some? && rest.value.seen == [] ==> all.value.seen == seen
  {
  }
}
