/** Archives that were written parse back, and every header is read where one can be. */
module TarRoundTrip {
  import opened Wrappers
  import opened Codec
  import opened Tar

  // ----- Octal fields -----

  lemma ModUnique(m: nat, a: nat, r: nat)
    requires r < m
    ensures (m * a + r) % m == r
  {
    var x: int := m * a + r;
    var q: int, t: int := x / m, x % m;
    assert m * (q - a) == r - t;
    Multiple(m, q - a);
  }

  lemma Multiple(m: nat, k: int)
    requires m > 0
    ensures k > 0 ==> m * k >= m
    ensures k < 0 ==> m * k + m <= 0
  {
  }

  lemma DigitsApart(v: nat, p: nat)
    requires p > 0
    ensures v % (8 * p) == 8 * (v / 8 % p) + v % 8
  {
    var q, d := v / 8, v % 8;
    var a, y := q / p, q % p;
    assert v == 8 * (p * a + y) + d;
    assert v == (8 * p) * a + (8 * y + d) by { assert 8 * (p * a) == (8 * p) * a; }
    ModUnique(8 * p, a, 8 * y + d);
  }

  lemma WrapLate(y: nat, d: nat)
    ensures (8 * (y % WRAP) + d) % WRAP == (8 * y + d) % WRAP
  {
  }

  lemma OctalDigit(d: nat)
    requires d < 8
    ensures DigitOf(Xd(d), 8) && Dx(Xd(d)) == d && Xd(d) != NUL
  {
  }

  lemma PowOfNone()
    ensures Pow8(0) == 1 && forall v: nat :: v % 1 == 0
  {
  }

  lemma PowNext(n: nat)
    requires n > 0
    ensures Pow8(n) == 8 * Pow8(n - 1)
  {
  }

  lemma {:induction false} OctalPull(n: nat, v: nat, rest: string)
    ensures PullUintFrom(0, Octal(n, v) + rest, 8) == PullUintFrom(v % Pow8(n) % WRAP, rest, 8)
  {
    hide Xd, Dx, PullUintFrom, Pow8, Shift;
    if n == 0 {
      PowOfNone();
      assert Octal(n, v) + rest == rest;
    } else {
      var d := Xd(v % 8);
      OctalDigit(v % 8);
      assert Octal(n, v) + rest == Octal(n - 1, v / 8) + ([d] + rest);
      OctalPull(n - 1, v / 8, [d] + rest);
      PullOne(v / 8 % Pow8(n - 1) % WRAP, 8, d, rest);
      DigitAdded(n, v);
    }
  }

  lemma DigitAdded(n: nat, v: nat)
    requires n > 0
    ensures Shift(v / 8 % Pow8(n - 1) % WRAP, 8, v % 8) % WRAP == v % Pow8(n) % WRAP
  {
    hide Pow8;
    PowNext(n);
    WrapLate(v / 8 % Pow8(n - 1), v % 8);
    DigitsApart(v, Pow8(n - 1));
  }

  /** A number comes back from a field exactly when its digits fit and it fits an int. */
  lemma OctalRoundTrip(l: nat, v: nat)
    requires l > 0
    ensures GetOctal(OctalField(l, v)) == v <==> v < Pow8(l - 1) && v < INT_LIMIT
  {
    hide Pow8, Octal, PullUintFrom;
    OctalPull(l - 1, v, [NUL]);
    var w := v % Pow8(l - 1);
    PullNothing(w % WRAP);
    assert GetOctal(OctalField(l, v)) == ToInt(w % WRAP);
    ValueBack(v, Pow8(l - 1));
  }

  lemma ValueBack(v: nat, p: nat)
    requires p > 0
    ensures ToInt(v % p % WRAP) == v <==> v < p && v < INT_LIMIT
  {
    ModFacts(v, p);
  }

  /** A size of 2 GiB comes back negative, although its digits fit. */
  lemma LargeSizeIsLost()
    ensures INT_LIMIT < Pow8(11) && GetOctal(OctalField(12, INT_LIMIT)) == -INT_LIMIT
  {
    var v: nat := INT_LIMIT;
    assert Pow8(3) == 512 && Pow8(6) == 512 * 512 && Pow8(9) == 512 * 512 * 512 && Pow8(11) == 64 * Pow8(9);
    hide Pow8, Octal;
    OctalPull(11, v, [NUL]);
    ModFacts(v, Pow8(11));
    PullNothing(v);
    hide PullUintFrom;
  }

  lemma PullNothing(v: nat)
    ensures PullUintFrom(v, [NUL], 8) == (v, [NUL])
  {
  }

  lemma ModFacts(v: nat, p: nat)
    requires p > 0
    ensures v % p <= v && v % p < p && (v < p ==> v % p == v)
  {
  }

  // ----- Headers -----

  predicate Legal(e: Entry) {
    && e.name.Some? && 1 <= |e.name.value| < 100 && |Or(e.uname, ROOT)| < 32 && |Or(e.gname, ROOT)| < 32
    && IsRegular(e.mode) && e.size < INT_LIMIT && 0 < e.mtime < INT_LIMIT && e.uid < Pow8(7) && e.gid < Pow8(7)
  }

  function Expected(e: Entry): FileInfo
    requires e.name.Some?
  {
    FileInfo(e.name.value, e.size, e.mode % IFMT + IFMT_REG * IFMT, e.mtime, e.uid, e.gid, Or(e.uname, ROOT),
             Or(e.gname, ROOT), 0, 0, None)
  }

  lemma {:induction false} CStrOf(c: CString, rest: string)
    requires rest != "" && rest[0] == NUL
    ensures CStr(c + rest) == c
  {
    if c == "" {
      assert c + rest == rest;
    } else {
      assert c[0] in c && forall x | x in c[1..] :: x in c;
      assert (c + rest)[1..] == c[1..] + rest;
      CStrOf(c[1..], rest);
    }
  }

  lemma FieldStarts(c: CString, n: nat, rest: string)
    requires |c| < n
    ensures CStr(Field(c, n) + rest) == c
  {
    CStrOf(c, Nuls(n - |c|) + rest);
    assert Field(c, n) + rest == c + (Nuls(n - |c|) + rest);
  }

  /** Where the fields of a header are. */
  lemma FrontFields(e: Entry, now: nat, h: string)
    requires |h| == BLOCK && h[..148] == HeaderFront(e, now)
    ensures h == Field(Or(e.name, ""), 100) + h[100..]
    ensures h[100..108] == OctalField(8, e.mode % IFMT) && h[108..116] == OctalField(8, e.uid)
    ensures h[116..124] == OctalField(8, e.gid) && h[124..136] == OctalField(12, e.size)
    ensures h[136..148] == OctalField(12, if e.mtime != 0 then e.mtime else now)
  {
    hide OctalField, Field;
    var f := h[..148];
    assert h[..100] == f[..100] && h[100..108] == f[100..108] && h[108..116] == f[108..116];
    assert h[116..124] == f[116..124] && h[124..136] == f[124..136] && h[136..148] == f[136..148];
  }

  lemma BackFields(e: Entry, h: string)
    requires |h| == BLOCK && h[156..] == HeaderBack(e)
    ensures h[156] == '0'
    ensures h[265..] == Field(Or(e.uname, ROOT), 32) + h[297..] && h[297..] == Field(Or(e.gname, ROOT), 32) + h[329..]
    ensures h[329..] == Nuls(183)
  {
    hide Field, Nuls;
    var b := h[156..];
    assert h[156] == b[0] && h[265..] == b[109..] && h[297..] == b[141..] && h[329..] == b[173..];
    assert b[109..] == b[109..141] + b[141..] && b[141..] == b[141..173] + b[173..];
  }

  lemma NoDevice(h: string)
    requires |h| == BLOCK && h[329..] == Nuls(183)
    ensures GetOctal(h[329..337]) == 0 && GetOctal(h[337..345]) == 0
  {
  }

  lemma TextFields(e: Entry, now: nat)
    requires Legal(e)
    ensures
      var h := Header(e, now);
      && CStr(h) == e.name.value && h[0] != NUL && h[156] == '0'
      && CStr(h[265..]) == Or(e.uname, ROOT) && CStr(h[297..]) == Or(e.gname, ROOT)
      && GetOctal(h[329..337]) == 0 && GetOctal(h[337..345]) == 0
  {
    var h := Header(e, now);
    assert h[..148] == HeaderFront(e, now) && h[156..] == HeaderBack(e);
    hide Header, HeaderFront, HeaderBack, OctalField, GetOctal, Pow8, CStr, Nuls, Field;
    FrontFields(e, now, h);
    BackFields(e, h);
    FieldStarts(e.name.value, 100, h[100..]);
    FieldStarts(Or(e.uname, ROOT), 32, h[297..]);
    FieldStarts(Or(e.gname, ROOT), 32, h[329..]);
    NoDevice(h);
    assert h[0] == e.name.value[0] && e.name.value[0] in e.name.value;
  }

  lemma NumberFields(e: Entry, now: nat)
    requires Legal(e)
    ensures
      var h := Header(e, now);
      && GetOctal(h[100..108]) == e.mode % IFMT && GetOctal(h[108..116]) == e.uid && GetOctal(h[116..124]) == e.gid
      && GetOctal(h[124..136]) == e.size && GetOctal(h[136..148]) == e.mtime
  {
    var h := Header(e, now);
    assert h[..148] == HeaderFront(e, now);
    hide Header, HeaderFront, OctalField, GetOctal, Pow8, Field;
    FrontFields(e, now, h);
    Limits();
    OctalRoundTrip(8, e.mode % IFMT);
    OctalRoundTrip(8, e.uid);
    OctalRoundTrip(8, e.gid);
    OctalRoundTrip(12, e.size);
    OctalRoundTrip(12, e.mtime);
  }

  /** A written header is read as what was written. */
  lemma HeaderReads(e: Entry, now: nat)
    requires Legal(e)
    ensures
      var h := Header(e, now);
      && h[0] != NUL && h[156] == '0' && GetOctal(h[124..136]) == e.size && InfoOf(h, None) == Expected(e)
  {
    hide Header, GetOctal, CStr;
    TextFields(e, now);
    NumberFields(e, now);
    assert e.mode % IFMT % IFMT == e.mode % IFMT;
  }

  lemma Limits()
    ensures Pow8(7) == 0x20_0000 && Pow8(11) == 0x2_0000_0000
  {
  }

  // ----- Archives -----

  datatype Item = Item(entry: Entry, data: string)

  predicate LegalItem(i: Item) { Legal(i.entry) && i.entry.size == |i.data| }

  /** What apk_tar_write_entry writes for an entry with its data, and at the end. */
  function ItemText(i: Item, now: nat): string { Header(i.entry, now) + i.data + Nuls(PadOf(|i.data|)) }

  function Archive(items: seq<Item>, now: nat): string {
    if items == [] then Nuls(2 * BLOCK) else ItemText(items[0], now) + Archive(items[1..], now)
  }

  /** What the k-th call of the callback sees. */
  function SeenOf(i: Item, k: nat, cb: Callback): Seen
    requires LegalItem(i)
  {
    Seen(Expected(i.entry), i.data[..Min(cb.take(k, Expected(i.entry)), |i.data|)])
  }

  ghost predicate Content(cb: Callback) { forall k, info, content :: cb.answer(k, info, content) == 0 }

  lemma EmptyReads(s: string, at: nat, name: Option<string>, k: nat, cb: Callback)
    requires |s| >= BLOCK && s[0] == NUL
    ensures Parse(s, at, false, name, k, cb) == ThenMore(at, [], Parse(s[BLOCK..], at + BLOCK, true, name, k, cb))
    ensures Parse(s, at, true, name, k, cb) == Some(AtHeader(at, Trailer(s[BLOCK..], at + BLOCK)))
  {
  }

  lemma ShortReads(s: string, at: nat, ended: bool, name: Option<string>, k: nat, cb: Callback)
    requires |s| < BLOCK
    ensures Parse(s, at, ended, name, k, cb) == Some(Outcome(if s == "" then 0 else -EBADMSG, [], []))
  {
  }

  lemma NegativeReads(s: string, at: nat, ended: bool, name: Option<string>, k: nat, cb: Callback)
    requires |s| >= BLOCK && s[0] != NUL && GetOctal(s[..BLOCK][124..136]) < 0
    ensures Parse(s, at, ended, name, k, cb) == None
  {
  }

  lemma EndReads(at: nat, k: nat, cb: Callback)
    ensures Parse(Nuls(2 * BLOCK), at, false, None, k, cb) == Some(Outcome(0, [], [at, at + BLOCK]))
  {
    hide Parse;
    var s := Nuls(2 * BLOCK);
    EmptyReads(s, at, None, k, cb);
    EmptyReads(s[BLOCK..], at + BLOCK, None, k, cb);
    assert s[BLOCK..][BLOCK..] == "" && Trailer("", at + 2 * BLOCK) == Outcome(0, [], []);
    assert AtHeader(at + BLOCK, Outcome(0, [], [])) == Outcome(0, [], [at + BLOCK]);
    var none: seq<Seen> := [];
    assert none + none == none && [at] + [at + BLOCK] == [at, at + BLOCK];
  }

  lemma FileReads(h: string, rest: string, at: nat, k: nat, cb: Callback)
    requires |h| == BLOCK && h[0] != NUL && h[156] == '0' && GetOctal(h[124..136]) >= 0 && Content(cb)
    ensures
      var info := InfoOf(h, None);
      var got := Min(cb.take(k, info), Min(info.size, |rest|));
      var next := got + Skip(at + BLOCK + got, 0, info.size - got);
      Parse(h + rest, at, false, None, k, cb) ==
        ThenMore(at, [Seen(info, rest[..got])],
                 Parse(Drop(rest, next), at + BLOCK + next, false, None, k + 1, cb))
  {
    hide GetOctal, InfoOf, Skip, Drop;
    var s := h + rest;
    assert s[..BLOCK] == h && s[BLOCK..] == rest;
    var info := InfoOf(h, None);
    var got := Min(cb.take(k, info), Min(info.size, |rest|));
    assert cb.answer(k, info, rest[..got]) == 0 && TypeOf('0') != 0;
    assert Parse(s, at, false, None, k, cb) ==
           ThenMore(at, [Seen(info, rest[..got])],
                    Parse(Drop(rest, got + Skip(at + BLOCK + got, 0, info.size - got)),
                          at + BLOCK + (got + Skip(at + BLOCK + got, 0, info.size - got)), false, None, k + 1, cb));
  }

  /** An entry is delivered, and the parse goes on behind its padding. */
  lemma ItemReads(i: Item, now: nat, rest: string, at: nat, k: nat, cb: Callback)
    requires LegalItem(i) && Content(cb) && at % BLOCK == 0
    ensures Parse(ItemText(i, now) + rest, at, false, None, k, cb) ==
            ThenMore(at, [SeenOf(i, k, cb)],
                     Parse(rest, at + |ItemText(i, now)|, false, None, k + 1, cb))
  {
    hide Parse, Header, GetOctal, InfoOf, Nuls, Expected, Skip, ThenMore, PadOf, ItemText, Drop, Content, Pow8;
    HeaderReads(i.entry, now);
    ExpectedSize(i.entry);
    var n := |i.data|;
    var h, body := Header(i.entry, now), i.data + Nuls(PadOf(n)) + rest;
    ItemParts(i, now, rest);
    var got := Min(cb.take(k, Expected(i.entry)), n);
    PadFrom(at + BLOCK, got, n);
    FileReads(h, body, at, k, cb);
  }

  lemma ItemParts(i: Item, now: nat, rest: string)
    ensures
      var n, body := |i.data|, i.data + Nuls(PadOf(|i.data|)) + rest;
      && ItemText(i, now) + rest == Header(i.entry, now) + body && Drop(body, n + PadOf(n)) == rest
      && |ItemText(i, now)| == BLOCK + (n + PadOf(n)) && forall k | 0 <= k <= n :: body[..k] == i.data[..k]
  {
    hide Header, Nuls;
  }

  lemma ExpectedSize(e: Entry)
    requires e.name.Some?
    ensures Expected(e).size == e.size
  {
  }

  lemma PadFrom(pos: nat, got: nat, n: nat)
    requires pos % BLOCK == 0 && got <= n
    ensures got + Skip(pos + got, 0, n - got) == n + PadOf(n)
  {
  }

  lemma {:induction false} ArchiveReads(items: seq<Item>, now: nat, at: nat, k: nat, cb: Callback)
    requires (forall i | 0 <= i < |items| :: LegalItem(items[i])) && Content(cb) && at % BLOCK == 0
    ensures
      var o := Parse(Archive(items, now), at, false, None, k, cb);
      && o.Some? && o.value.result == 0 && |o.value.seen| == |items|
      && forall i | 0 <= i < |items| :: o.value.seen[i] == SeenOf(items[i], k + i, cb)
    decreases items
  {
    hide Parse, ItemText, SeenOf;
    if items == [] {
      EndReads(at, k, cb);
    } else {
      assert LegalItem(items[0]);
      ItemReads(items[0], now, Archive(items[1..], now), at, k, cb);
      ItemLength(items[0], now);
      ArchiveReads(items[1..], now, at + |ItemText(items[0], now)|, k + 1, cb);
    }
  }

  lemma ItemLength(i: Item, now: nat)
    ensures |ItemText(i, now)| % BLOCK == 0
  {
    hide Header, Nuls;
  }

  // ----- Any stream -----

  lemma NextIsAligned(pos: nat, got: nat, size: nat)
    requires pos % BLOCK == 0 && got <= size
    ensures got + Skip(pos + got, 0, size - got) == size + PadOf(pos + size)
    ensures (pos + (size + PadOf(pos + size))) % BLOCK == 0
    ensures size + Skip(pos, size, 0) == size + PadOf(pos + size)
  {
  }

  /** All of these are positions of whole blocks of the stream. */
  predicate Blocks(headers: seq<nat>, at: nat, end: nat) {
    forall i | 0 <= i < |headers| :: headers[i] % BLOCK == 0 && at <= headers[i] && headers[i] + BLOCK <= end
  }

  lemma BlocksMore(at: nat, headers: seq<nat>, next: nat, end: nat)
    requires at % BLOCK == 0 && at <= next && at + BLOCK <= end && Blocks(headers, next, end)
    ensures Blocks([at] + headers, at, end)
  {
  }

  lemma NoBlocks(headers: seq<nat>, at: nat, end: nat, more: nat)
    requires headers == [] || (more <= end && Blocks(headers, at, more))
    ensures Blocks(headers, at, end)
  {
  }

  lemma {:induction false} TrailerAligned(s: string, at: nat)
    requires at % BLOCK == 0
    ensures Blocks(Trailer(s, at).headers, at, at + |s|)
    decreases |s|
  {
    if |s| >= BLOCK && s[0] == NUL {
      TrailerAligned(s[BLOCK..], at + BLOCK);
    }
  }

  /** How the parse goes on behind the header at the beginning of `s`. */
  datatype Ahead = Ahead(info: FileInfo, called: bool, content: string, next: nat, name: Option<string>)

  function Look(s: string, at: nat, name: Option<string>, k: nat, cb: Callback): (a: Ahead)
    requires |s| >= BLOCK && GetOctal(s[..BLOCK][124..136]) >= 0
  {
    var h, rest := s[..BLOCK], s[BLOCK..];
    var info := InfoOf(h, name);
    var called := TypeOf(h[156]) != 0;
    Ahead(info, called, if called then rest[..Min(cb.take(k, info), Min(info.size, |rest|))] else "",
          info.size + PadOf(at + BLOCK + info.size),
          if h[156] == 'L' then Some(CStr(Take(rest, info.size))) else if called then None else name)
  }

  /** What follows does not depend on how much of the entry was read. */
  lemma ParseAhead(s: string, at: nat, ended: bool, name: Option<string>, k: nat, cb: Callback)
    requires |s| >= BLOCK && at % BLOCK == 0 && s[0] != NUL && GetOctal(s[..BLOCK][124..136]) >= 0
    ensures
      var a := Look(s, at, name, k, cb);
      var seen := if a.called then [Seen(a.info, a.content)] else [];
      Parse(s, at, ended, name, k, cb) ==
        if a.called && cb.answer(k, a.info, a.content) != 0 then
          Some(Outcome(cb.answer(k, a.info, a.content), seen, [at]))
        else
          ThenMore(at, seen, Parse(Drop(s[BLOCK..], a.next), at + BLOCK + a.next, ended, a.name,
                                   if a.called then k + 1 else k, cb))
  {
    hide InfoOf, GetOctal, Skip, PadOf, Drop, Trailer, CStr, Take;
    var h, rest, pos := s[..BLOCK], s[BLOCK..], at + BLOCK;
    var info := InfoOf(h, name);
    var got := if TypeOf(h[156]) != 0 then Min(cb.take(k, info), Min(info.size, |rest|)) else 0;
    NextIsAligned(pos, got, info.size);
  }

  /** Every header is read at a multiple of the block size, whatever the callback reads or answers. */
  lemma {:induction false} HeadersAligned(s: string, at: nat, ended: bool, name: Option<string>, k: nat, cb: Callback)
    requires at % BLOCK == 0 && Parse(s, at, ended, name, k, cb).Some?
    ensures Blocks(Parse(s, at, ended, name, k, cb).value.headers, at, at + |s|)
    decreases |s|
  {
    hide Parse, InfoOf, GetOctal, PadOf, Drop, Trailer, Look, Blocks, CStr, Take;
    var end := at + |s|;
    if |s| < BLOCK {
      ShortReads(s, at, ended, name, k, cb);
      NoBlocks([], at, end, end);
    } else if s[0] == NUL {
      EmptyReads(s, at, name, k, cb);
      if ended {
        TrailerAligned(s[BLOCK..], at + BLOCK);
      } else {
        HeadersAligned(s[BLOCK..], at + BLOCK, true, name, k, cb);
      }
      var headers := Parse(s, at, ended, name, k, cb).value.headers;
      BlocksMore(at, headers[1..], at + BLOCK, end);
      assert [at] + headers[1..] == headers;
    } else if GetOctal(s[..BLOCK][124..136]) < 0 {
      NegativeReads(s, at, ended, name, k, cb);
    } else {
      ParseAhead(s, at, ended, name, k, cb);
      var a := Look(s, at, name, k, cb);
      NoBlocks([], at + BLOCK, end, end);
      BlocksMore(at, [], at + BLOCK, end);
      assert [at] + [] == [at];
      if !(a.called && cb.answer(k, a.info, a.content) != 0) {
        var rest, next := Drop(s[BLOCK..], a.next), at + BLOCK + a.next;
        LookNext(s, at, name, k, cb);
        HeadersAligned(rest, next, ended, a.name, if a.called then k + 1 else k, cb);
        RestBlocks(s, at, a.next, Parse(rest, next, ended, a.name, if a.called then k + 1 else k, cb).value.headers);
      }
    }
  }

  lemma LookNext(s: string, at: nat, name: Option<string>, k: nat, cb: Callback)
    requires |s| >= BLOCK && at % BLOCK == 0 && GetOctal(s[..BLOCK][124..136]) >= 0
    ensures (at + BLOCK + Look(s, at, name, k, cb).next) % BLOCK == 0
    ensures |Drop(s[BLOCK..], Look(s, at, name, k, cb).next)| < |s|
  {
  }

  lemma RestBlocks(s: string, at: nat, next: nat, headers: seq<nat>)
    requires |s| >= BLOCK && at % BLOCK == 0
    requires
      var rest := Drop(s[BLOCK..], next);
      Blocks(headers, at + BLOCK + next, at + BLOCK + next + |rest|)
    ensures Blocks([at] + headers, at, at + |s|)
  {
  }

  /** The same headers, entries and result, however much the callbacks read. */
  lemma {:induction false} ReadingLessIsTheSame(
    s: string, at: nat, ended: bool, name: Option<string>, k: nat, cb: Callback, cb': Callback)
    requires at % BLOCK == 0 && Content(cb) && Content(cb')
    ensures SameEntries(Parse(s, at, ended, name, k, cb), Parse(s, at, ended, name, k, cb'))
    decreases |s|
  {
    hide Parse, InfoOf, GetOctal, PadOf, Drop, Trailer, Look, CStr, Take, SameEntries, Content;
    if |s| < BLOCK {
      ShortReads(s, at, ended, name, k, cb);
      ShortReads(s, at, ended, name, k, cb');
      SameSelf(Parse(s, at, ended, name, k, cb));
    } else if s[0] == NUL {
      EmptyReads(s, at, name, k, cb);
      EmptyReads(s, at, name, k, cb');
      if ended {
        SameSelf(Parse(s, at, ended, name, k, cb));
      } else {
        ReadingLessIsTheSame(s[BLOCK..], at + BLOCK, true, name, k, cb, cb');
        SameMore(at, [], [], Parse(s[BLOCK..], at + BLOCK, true, name, k, cb),
                 Parse(s[BLOCK..], at + BLOCK, true, name, k, cb'));
      }
    } else if GetOctal(s[..BLOCK][124..136]) < 0 {
      NegativeReads(s, at, ended, name, k, cb);
      NegativeReads(s, at, ended, name, k, cb');
      SameSelf(None);
    } else {
      var a, b := Look(s, at, name, k, cb), Look(s, at, name, k, cb');
      ParseAhead(s, at, ended, name, k, cb);
      ParseAhead(s, at, ended, name, k, cb');
      LookNext(s, at, name, k, cb);
      LookSame(s, at, name, k, cb, cb');
      NoError(cb, k, a.info, a.content);
      NoError(cb', k, b.info, b.content);
      var rest, next, k1 := Drop(s[BLOCK..], a.next), at + BLOCK + a.next, if a.called then k + 1 else k;
      ReadingLessIsTheSame(rest, next, ended, a.name, k1, cb, cb');
      SameMore(at, if a.called then [Seen(a.info, a.content)] else [], if a.called then [Seen(a.info, b.content)] else [],
               Parse(rest, next, ended, a.name, k1, cb), Parse(rest, next, ended, a.name, k1, cb'));
    }
  }

  predicate SameEntries(o: Option<Outcome>, o': Option<Outcome>) {
    && o.Some? == o'.Some?
    && (o.Some? ==>
          && o.value.result == o'.value.result && o.value.headers == o'.value.headers
          && |o.value.seen| == |o'.value.seen|
          && forall i | 0 <= i < |o.value.seen| :: o.value.seen[i].info == o'.value.seen[i].info)
  }

  lemma SameSelf(o: Option<Outcome>)
    ensures SameEntries(o, o)
  {
  }

  lemma SameMore(at: nat, seen: seq<Seen>, seen': seq<Seen>, o: Option<Outcome>, o': Option<Outcome>)
    requires SameEntries(o, o') && |seen| == |seen'| && forall i | 0 <= i < |seen| :: seen[i].info == seen'[i].info
    ensures SameEntries(ThenMore(at, seen, o), ThenMore(at, seen', o'))
  {
  }

  lemma LookSame(s: string, at: nat, name: Option<string>, k: nat, cb: Callback, cb': Callback)
    requires |s| >= BLOCK && GetOctal(s[..BLOCK][124..136]) >= 0
    ensures Look(s, at, name, k, cb) == Look(s, at, name, k, cb').(content := Look(s, at, name, k, cb).content)
  {
  }

  lemma NoError(cb: Callback, k: nat, info: FileInfo, content: string)
    requires Content(cb)
    ensures cb.answer(k, info, content) == 0
  {
  }

  // ----- The round trip -----

  /** Parsing what was written returns 0 and delivers the entries in order, with the same names,
      sizes, modes and times, and the data as far as the callback reads them; every header is read at
      a multiple of the block size. */
  lemma TarRoundTrip(items: seq<Item>, now: nat, cb: Callback)
    requires (forall i | 0 <= i < |items| :: LegalItem(items[i])) && Content(cb)
    ensures
      var text := Archive(items, now);
      var o := Parse(text, 0, false, None, 0, cb);
      && o.Some? && o.value.result == 0 && |o.value.seen| == |items| && Blocks(o.value.headers, 0, |text|)
      && forall i | 0 <= i < |items| :: o.value.seen[i] == SeenOf(items[i], i, cb)
  {
    hide Parse, Archive, Blocks, SeenOf;
    ArchiveReads(items, now, 0, 0, cb);
    HeadersAligned(Archive(items, now), 0, false, None, 0, cb);
  }
}
