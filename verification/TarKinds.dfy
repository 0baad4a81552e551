/** Archives of every kind of entry, as tar programs write them, are delivered as what they are. */
module TarKinds {
  import opened Wrappers
  import opened Codec
  import opened Tar
  import opened TarRoundTrip

  // ----- The archives of other programs -----

  const S_IFCHR := 0x2000
  const S_IFDIR := 0x4000
  const S_IFBLK := 0x6000
  const S_IFREG := 0x8000
  const S_IFLNK := 0xA000

  datatype Kind =
    | Regular
    | Contiguous
    | HardLink(link: CString)
    | SymLink(link: CString)
    | CharDevice(major: nat, minor: nat)
    | BlockDevice(major: nat, minor: nat)
    | Directory
  {
    function Flag(): char {
      match this
      case Regular => '0'
      case HardLink(_) => '1'
      case SymLink(_) => '2'
      case CharDevice(_, _) => '3'
      case BlockDevice(_, _) => '4'
      case Directory => '5'
      case Contiguous => '7'
    }

    /** A hard link counts as a regular file. */
    function Bits(): nat {
      match this
      case Regular => S_IFREG
      case Contiguous => S_IFREG
      case HardLink(_) => S_IFREG
      case SymLink(_) => S_IFLNK
      case CharDevice(_, _) => S_IFCHR
      case BlockDevice(_, _) => S_IFBLK
      case Directory => S_IFDIR
    }

    function Target(): Option<CString> {
      match this case HardLink(l) => Some(l) case SymLink(l) => Some(l) case _ => None
    }

    function Major(): nat { match this case CharDevice(m, _) => m case BlockDevice(m, _) => m case _ => 0 }
    function Minor(): nat { match this case CharDevice(_, m) => m case BlockDevice(_, m) => m case _ => 0 }
  }

  /** `sum` is the text of the checksum, which nobody reads. */
  datatype Attributes = Attributes(
    mode: nat, uid: nat, gid: nat, mtime: nat, uname: CString, gname: CString, sum: string)

  /** What one header of an archive stands for: an entry, the name of the next one, or something else
      that has a header and data. */
  datatype Record =
    | Member(kind: Kind, name: CString, attr: Attributes, data: string)
    | LongName(name: CString)
    | Other(flag: char, name: CString, attr: Attributes, data: string)

  /** The fields of a ustar header, one after the other. */
  function Ustar(name: CString, a: Attributes, size: nat, flag: char, link: CString, major: nat, minor: nat): string {
    Field(name, 100) + OctalField(8, a.mode) + OctalField(8, a.uid) + OctalField(8, a.gid)
    + OctalField(12, size) + OctalField(12, a.mtime) + a.sum
    + ([flag] + Field(link, 100) + "ustar\000" + Field(a.uname, 32) + Field(a.gname, 32)
       + OctalField(8, major) + OctalField(8, minor) + Nuls(167))
  }

  const LONG_LINK: CString := "././@LongLink"
  const PLAIN := Attributes(0, 0, 0, 0, "root", "root", "0000000\0")

  function HeaderOf(r: Record): string {
    match r
    case Member(kind, name, a, data) =>
      Ustar(name, a, |data|, kind.Flag(), Or(kind.Target(), ""), kind.Major(), kind.Minor())
    case LongName(name) => Ustar(LONG_LINK, PLAIN, |name| + 1, 'L', "", 0, 0)
    case Other(flag, name, a, data) => Ustar(name, a, |data|, flag, "", 0, 0)
  }

  function DataOf(r: Record): string { if r.LongName? then r.name + [NUL] else r.data }

  function RecordText(r: Record): string { HeaderOf(r) + DataOf(r) + Nuls(PadOf(|DataOf(r)|)) }

  function ArchiveOf(rs: seq<Record>): string {
    if rs == [] then Nuls(2 * BLOCK) else RecordText(rs[0]) + ArchiveOf(rs[1..])
  }

  // ----- Which of them are in order -----

  predicate LegalAttributes(a: Attributes) {
    && a.mode < 0x1000 && a.uid < 0x20_0000 && a.gid < 0x20_0000 && a.mtime < INT_LIMIT
    && |a.uname| < 32 && |a.gname| < 32 && |a.sum| == 8
  }

  predicate LegalKind(k: Kind) {
    |Or(k.Target(), "")| < 100 && k.Major() < 0x20_0000 && k.Minor() < 0x20_0000
  }

  /** An entry's own name may be cut off if a long name comes before. */
  predicate LegalRecord(r: Record, named: bool) {
    && |DataOf(r)| < INT_LIMIT
    && match r
       case Member(kind, name, a, _) => 1 <= |name| && (|name| < 100 || named) && LegalAttributes(a) && LegalKind(kind)
       case LongName(_) => true
       case Other(flag, name, a, _) =>
         1 <= |name| && LegalAttributes(a) && flag !in {'0', '1', '2', '3', '4', '5', '7', 'L'}
  }

  predicate LegalArchive(rs: seq<Record>, named: bool)
    decreases rs
  {
    rs == [] || (LegalRecord(rs[0], named) && LegalArchive(rs[1..], NamedAfter(rs[0], named)))
  }

  predicate NamedAfter(r: Record, named: bool) {
    match r case Member(_, _, _, _) => false case LongName(_) => true case Other(_, _, _, _) => named
  }

  // ----- What is delivered -----

  function InfoFor(r: Record, name: Option<string>): FileInfo
    requires r.Member?
  {
    FileInfo(
      if name.Some? then name.value else r.name, |r.data|, r.attr.mode + r.kind.Bits(), r.attr.mtime, r.attr.uid,
      r.attr.gid, r.attr.uname, r.attr.gname, r.kind.Major(), r.kind.Minor(), r.kind.Target())
  }

  /** The entries, with the long name that comes before one for just that one. */
  function Delivered(rs: seq<Record>, name: Option<string>): seq<(FileInfo, string)> {
    if rs == [] then []
    else match rs[0]
      case Member(_, _, _, _) => [(InfoFor(rs[0], name), rs[0].data)] + Delivered(rs[1..], None)
      case LongName(n) => Delivered(rs[1..], Some(n))
      case Other(_, _, _, _) => Delivered(rs[1..], name)
  }

  /** With as much of their data as the callback reads. */
  function SeenBy(ds: seq<(FileInfo, string)>, k: nat, cb: Callback): (seen: seq<Seen>)
    ensures |seen| == |ds|
    ensures forall i | 0 <= i < |ds| :: seen[i] == Seen(ds[i].0, ds[i].1[..Min(cb.take(k + i, ds[i].0), |ds[i].1|)])
    decreases ds
  {
    if ds == [] then []
    else
      assert forall i | 0 < i < |ds| :: ds[i] == ds[1..][i - 1];
      [Seen(ds[0].0, ds[0].1[..Min(cb.take(k, ds[0].0), |ds[0].1|)])] + SeenBy(ds[1..], k + 1, cb)
  }

  // ----- Reading a header -----

  lemma UstarFront(h: string, name: CString, a: Attributes, size: nat, rest: string)
    requires |h| == BLOCK && |a.sum| == 8
    requires h == Field(name, 100) + OctalField(8, a.mode) + OctalField(8, a.uid) + OctalField(8, a.gid)
                  + OctalField(12, size) + OctalField(12, a.mtime) + a.sum + rest
    ensures h == Field(name, 100) + h[100..] && h[156..] == rest
    ensures h[100..108] == OctalField(8, a.mode) && h[108..116] == OctalField(8, a.uid)
    ensures h[116..124] == OctalField(8, a.gid) && h[124..136] == OctalField(12, size)
    ensures h[136..148] == OctalField(12, a.mtime)
  {
    hide Field, OctalField;
    var f := Field(name, 100) + OctalField(8, a.mode) + OctalField(8, a.uid) + OctalField(8, a.gid)
             + OctalField(12, size) + OctalField(12, a.mtime);
    assert |f| == 148 && h[..148] == f && h == f + a.sum + rest;
    assert h[..100] == f[..100] && h[100..108] == f[100..108] && h[108..116] == f[108..116];
    assert h[116..124] == f[116..124] && h[124..136] == f[124..136] && h[136..148] == f[136..148];
  }

  lemma UstarBack(b: string, a: Attributes, flag: char, link: CString, major: nat, minor: nat)
    requires b == [flag] + Field(link, 100) + "ustar\000" + Field(a.uname, 32) + Field(a.gname, 32)
                  + OctalField(8, major) + OctalField(8, minor) + Nuls(167)
    ensures |b| == 356 && b[0] == flag && b[1..] == Field(link, 100) + b[101..]
    ensures b[109..] == Field(a.uname, 32) + b[141..] && b[141..] == Field(a.gname, 32) + b[173..]
    ensures b[173..181] == OctalField(8, major) && b[181..189] == OctalField(8, minor)
  {
    hide Field, OctalField, Nuls;
    var l, u, g, o, p := Field(link, 100), Field(a.uname, 32), Field(a.gname, 32), OctalField(8, major), OctalField(8, minor);
    var tail := u + (g + (o + (p + Nuls(167))));
    assert b == [flag] + (l + ("ustar\000" + tail));
    SplitTwo(b, [flag], l + ("ustar\000" + tail));
    SplitTwo(b[1..], l, "ustar\000" + tail);
    SplitTwo(b[101..], "ustar\000", tail);
    SplitTwo(b[109..], u, g + (o + (p + Nuls(167))));
    SplitTwo(b[141..], g, o + (p + Nuls(167)));
    SplitTwo(b[173..], o, p + Nuls(167));
    SplitTwo(b[181..], p, Nuls(167));
    assert b[173..][..8] == b[173..181] && b[181..][..8] == b[181..189];
  }

  lemma SplitTwo(s: string, a: string, b: string)
    requires s == a + b
    ensures s[..|a|] == a && s[|a|..] == b && forall k: nat | k <= |b| :: s[|a| + k..] == b[k..]
  {
  }

  lemma OctalBack(l: nat, v: nat)
    requires (l == 8 && v < 0x20_0000) || (l == 12 && v < INT_LIMIT)
    ensures GetOctal(OctalField(l, v)) == v
  {
    Limits();
    hide Pow8, GetOctal;
    OctalRoundTrip(l, v);
  }

  /** Where the fields of the header are. */
  lemma UstarPlaces(
    h: string, name: CString, a: Attributes, size: nat, flag: char, link: CString, major: nat, minor: nat)
    requires h == Ustar(name, a, size, flag, link, major, minor) && |a.sum| == 8
    ensures |h| == BLOCK && h == Field(name, 100) + h[100..] && h[156] == flag && h[157..] == Field(link, 100) + h[257..]
    ensures h[100..108] == OctalField(8, a.mode) && h[108..116] == OctalField(8, a.uid)
    ensures h[116..124] == OctalField(8, a.gid) && h[124..136] == OctalField(12, size)
    ensures h[136..148] == OctalField(12, a.mtime)
    ensures h[265..] == Field(a.uname, 32) + h[297..] && h[297..] == Field(a.gname, 32) + h[329..]
    ensures h[329..337] == OctalField(8, major) && h[337..345] == OctalField(8, minor)
  {
    hide OctalField, Nuls, Field;
    var b := [flag] + Field(link, 100) + "ustar\000" + Field(a.uname, 32) + Field(a.gname, 32)
             + OctalField(8, major) + OctalField(8, minor) + Nuls(167);
    UstarBack(b, a, flag, link, major, minor);
    assert |h| == BLOCK;
    UstarFront(h, name, a, size, b);
    assert h[156] == b[0] && h[157..] == b[1..] && h[257..] == b[101..];
    assert h[265..] == b[109..] && h[297..] == b[141..] && h[329..] == b[173..];
    assert h[329..337] == b[173..181] && h[337..345] == b[181..189];
  }

  /** Every field of the header is read back. */
  lemma UstarReads(
    h: string, name: CString, a: Attributes, size: nat, flag: char, link: CString, major: nat, minor: nat)
    requires h == Ustar(name, a, size, flag, link, major, minor) && LegalAttributes(a) && 1 <= |name|
    requires size < INT_LIMIT && |link| < 100 && major < 0x20_0000 && minor < 0x20_0000
    ensures |h| == BLOCK && h[0] != NUL && h[156] == flag && GetOctal(h[124..136]) == size
    ensures GetOctal(h[100..108]) == a.mode && GetOctal(h[108..116]) == a.uid && GetOctal(h[116..124]) == a.gid
    ensures GetOctal(h[136..148]) == a.mtime && CStr(h[157..]) == link
    ensures CStr(h[265..]) == a.uname && CStr(h[297..]) == a.gname
    ensures GetOctal(h[329..337]) == major && GetOctal(h[337..345]) == minor
    ensures |name| < 100 ==> CStr(h) == name
  {
    NameStarts(name);
    hide OctalField, GetOctal, Pow8, CStr, Nuls, Field, Ustar;
    UstarPlaces(h, name, a, size, flag, link, major, minor);
    if |name| < 100 { FieldStarts(name, 100, h[100..]); }
    FieldStarts(link, 100, h[257..]);
    FieldStarts(a.uname, 32, h[297..]);
    FieldStarts(a.gname, 32, h[329..]);
    OctalBack(8, a.mode);
    OctalBack(8, a.uid);
    OctalBack(8, a.gid);
    OctalBack(12, size);
    OctalBack(12, a.mtime);
    OctalBack(8, major);
    OctalBack(8, minor);
  }

  lemma NameStarts(name: CString)
    requires 1 <= |name|
    ensures Field(name, 100)[0] != NUL
  {
    assert name[0] in name;
  }

  lemma MemberReads(r: Record, name: Option<string>)
    requires r.Member? && LegalRecord(r, name.Some?)
    ensures
      var h := HeaderOf(r);
      && |h| == BLOCK && h[0] != NUL && GetOctal(h[124..136]) == |r.data| && InfoOf(h, name) == InfoFor(r, name)
      && TypeOf(h[156]) != 0 && h[156] != 'L'
  {
    hide Ustar, GetOctal, CStr;
    var k := r.kind;
    UstarReads(HeaderOf(r), r.name, r.attr, |r.data|, k.Flag(), Or(k.Target(), ""), k.Major(), k.Minor());
  }

  lemma OtherReads(r: Record)
    requires !r.Member? && LegalRecord(r, true)
    ensures
      var h := HeaderOf(r);
      && |h| == BLOCK && h[0] != NUL && GetOctal(h[124..136]) == |DataOf(r)| && TypeOf(h[156]) == 0
      && (h[156] == 'L' <==> r.LongName?)
  {
    hide Ustar, GetOctal, CStr;
    match r {
      case LongName(n) => UstarReads(HeaderOf(r), LONG_LINK, PLAIN, |n| + 1, 'L', "", 0, 0);
      case Other(flag, name, a, data) => UstarReads(HeaderOf(r), name, a, |data|, flag, "", 0, 0);
    }
  }

  // ----- Reading an archive -----

  lemma RecordParts(r: Record, rest: string)
    requires |HeaderOf(r)| == BLOCK
    ensures
      var s, n := RecordText(r) + rest, |DataOf(r)|;
      && |s| >= BLOCK && s[..BLOCK] == HeaderOf(r) && |RecordText(r)| == BLOCK + (n + PadOf(n))
      && n <= |s[BLOCK..]| && s[BLOCK..][..n] == DataOf(r) && Drop(s[BLOCK..], n + PadOf(n)) == rest
      && forall k | 0 <= k <= n :: s[BLOCK..][..k] == DataOf(r)[..k]
  {
    hide HeaderOf, Nuls;
    var s := RecordText(r) + rest;
    assert s == HeaderOf(r) + (DataOf(r) + Nuls(PadOf(|DataOf(r)|)) + rest);
  }

  lemma PadAligned(at: nat, n: nat)
    requires at % BLOCK == 0
    ensures PadOf(at + BLOCK + n) == PadOf(n) && (at + BLOCK + (n + PadOf(n))) % BLOCK == 0
  {
  }

  /** One header and its data. */
  lemma RecordReads(r: Record, rest: string, at: nat, name: Option<string>, k: nat, cb: Callback)
    requires LegalRecord(r, name.Some?) && Content(cb) && at % BLOCK == 0
    ensures (at + |RecordText(r)|) % BLOCK == 0
    ensures
      var next := at + |RecordText(r)|;
      Parse(RecordText(r) + rest, at, false, name, k, cb) ==
        match r
        case Member(_, _, _, data) =>
          ThenMore(at, [Seen(InfoFor(r, name), data[..Min(cb.take(k, InfoFor(r, name)), |data|)])],
                   Parse(rest, next, false, None, k + 1, cb))
        case LongName(n) => ThenMore(at, [], Parse(rest, next, false, Some(n), k, cb))
        case Other(_, _, _, _) => ThenMore(at, [], Parse(rest, next, false, name, k, cb))
  {
    hide Parse, HeaderOf, GetOctal, InfoOf, InfoFor, ThenMore, PadOf, Drop, Content, Nuls, CStr, Look, RecordText, DataOf,
      LegalRecord;
    var s := RecordText(r) + rest;
    RecordAhead(r, rest, at, name, k, cb);
    var a := Look(s, at, name, k, cb);
    ParseAhead(s, at, false, name, k, cb);
    NoError(cb, k, a.info, a.content);
  }

  lemma RecordAhead(r: Record, rest: string, at: nat, name: Option<string>, k: nat, cb: Callback)
    requires LegalRecord(r, name.Some?) && at % BLOCK == 0
    ensures
      var s := RecordText(r) + rest;
      && |s| >= BLOCK && s[0] != NUL && GetOctal(s[..BLOCK][124..136]) >= 0 && (at + |RecordText(r)|) % BLOCK == 0
      && var a := Look(s, at, name, k, cb);
         && at + BLOCK + a.next == at + |RecordText(r)| && Drop(s[BLOCK..], a.next) == rest && a.called == r.Member?
         && (r.Member? ==> a.info == InfoFor(r, name) && a.name == None &&
                           a.content == r.data[..Min(cb.take(k, a.info), |r.data|)])
         && (r.LongName? ==> a.name == Some(r.name)) && (r.Other? ==> a.name == name)
  {
    hide HeaderOf, GetOctal, InfoOf, InfoFor, PadOf, Drop, Nuls, CStr, Look, RecordText;
    if r.Member? { MemberReads(r, name); } else { OtherReads(r); }
    RecordParts(r, rest);
    var s, n := RecordText(r) + rest, |DataOf(r)|;
    assert s[0] == HeaderOf(r)[0];
    PadAligned(at, n);
    LookAt(s, r, at, name, k, cb);
  }

  lemma LookAt(s: string, r: Record, at: nat, name: Option<string>, k: nat, cb: Callback)
    requires LegalRecord(r, name.Some?) && at % BLOCK == 0 && |s| >= BLOCK && s[..BLOCK] == HeaderOf(r)
    requires |DataOf(r)| <= |s[BLOCK..]| && s[BLOCK..][..|DataOf(r)|] == DataOf(r)
    requires forall k | 0 <= k <= |DataOf(r)| :: s[BLOCK..][..k] == DataOf(r)[..k]
    ensures GetOctal(s[..BLOCK][124..136]) >= 0
    ensures
      var a, n := Look(s, at, name, k, cb), |DataOf(r)|;
      && a.next == n + PadOf(n) && a.called == r.Member?
      && (r.Member? ==> a.info == InfoFor(r, name) && a.name == None &&
                        a.content == r.data[..Min(cb.take(k, a.info), |r.data|)])
      && (r.LongName? ==> a.name == Some(r.name)) && (r.Other? ==> a.name == name)
  {
    hide HeaderOf, GetOctal, InfoFor, PadOf, CStr;
    if r.Member? { MemberReads(r, name); } else { OtherReads(r); }
    InfoSize(s[..BLOCK], name);
    if r.Member? { InfoForSize(r, name); }
    hide InfoOf;
    PadAligned(at, |DataOf(r)|);
    if r.LongName? { NameBack(r.name); }
  }

  lemma InfoSize(h: string, name: Option<string>)
    requires |h| == BLOCK && GetOctal(h[124..136]) >= 0
    ensures InfoOf(h, name).size == GetOctal(h[124..136])
  {
  }

  lemma InfoForSize(r: Record, name: Option<string>)
    requires r.Member?
    ensures InfoFor(r, name).size == |r.data|
  {
  }

  lemma NameBack(name: CString)
    ensures CStr(name + [NUL]) == name
  {
    CStrOf(name, [NUL]);
  }

  /** Whole blocks, each of which begins with a NUL. */
  predicate EmptyBlocks(s: string)
    decreases |s|
  {
    s == "" || (|s| >= BLOCK && s[0] == NUL && EmptyBlocks(s[BLOCK..]))
  }

  lemma {:induction false} TrailerIs(s: string, at: nat)
    ensures Trailer(s, at).seen == [] && Trailer(s, at).result == if EmptyBlocks(s) then 0 else -EBADMSG
    decreases |s|
  {
    if |s| >= BLOCK && s[0] == NUL { TrailerIs(s[BLOCK..], at + BLOCK); }
  }

  /** Parsing such an archive delivers exactly its entries, in order, and ends well if only empty blocks
      follow its end, and with an error if anything else does. */
  lemma {:induction false} KindsRoundTrip(
    rs: seq<Record>, more: string, at: nat, name: Option<string>, k: nat, cb: Callback)
    requires LegalArchive(rs, name.Some?) && Content(cb) && at % BLOCK == 0
    ensures
      var o := Parse(ArchiveOf(rs) + more, at, false, name, k, cb);
      && o.Some? && o.value.seen == SeenBy(Delivered(rs, name), k, cb)
      && o.value.result == if EmptyBlocks(more) then 0 else -EBADMSG
    decreases rs
  {
    hide Parse, RecordText, InfoFor, Content, LegalRecord, EmptyBlocks, Nuls;
    if rs == [] {
      NamedEndReads(more, at, name, k, cb);
    } else {
      var r, rest := rs[0], ArchiveOf(rs[1..]) + more;
      assert ArchiveOf(rs) + more == RecordText(r) + rest;
      RecordReads(r, rest, at, name, k, cb);
      var next := at + |RecordText(r)|;
      match r {
        case Member(_, _, _, data) =>
          KindsRoundTrip(rs[1..], more, next, None, k + 1, cb);
          var d := (InfoFor(r, name), data);
          assert ([d] + Delivered(rs[1..], None))[1..] == Delivered(rs[1..], None);
        case LongName(n) => KindsRoundTrip(rs[1..], more, next, Some(n), k, cb);
        case Other(_, _, _, _) => KindsRoundTrip(rs[1..], more, next, name, k, cb);
      }
    }
  }

  lemma NamedEndReads(more: string, at: nat, name: Option<string>, k: nat, cb: Callback)
    ensures
      var o := Parse(Nuls(2 * BLOCK) + more, at, false, name, k, cb);
      o.Some? && o.value.seen == [] && o.value.result == if EmptyBlocks(more) then 0 else -EBADMSG
  {
    hide Parse, EmptyBlocks, Trailer;
    var s := Nuls(2 * BLOCK) + more;
    EmptyReads(s, at, name, k, cb);
    EmptyReads(s[BLOCK..], at + BLOCK, name, k, cb);
    assert s[BLOCK..][BLOCK..] == more;
    TrailerIs(more, at + 2 * BLOCK);
    var none: seq<Seen> := [];
    assert none + none == none;
  }

  /** An answer other than 0 ends the parse and is its result. */
  lemma AnswerEnds(r: Record, rest: string, at: nat, name: Option<string>, k: nat, cb: Callback)
    requires r.Member? && LegalRecord(r, name.Some?) && at % BLOCK == 0
    ensures
      var info := InfoFor(r, name);
      var content := r.data[..Min(cb.take(k, info), |r.data|)];
      cb.answer(k, info, content) != 0 ==>
        Parse(RecordText(r) + rest, at, false, name, k, cb) ==
        Some(Outcome(cb.answer(k, info, content), [Seen(info, content)], [at]))
  {
    hide Parse, HeaderOf, GetOctal, InfoOf, InfoFor, ThenMore, PadOf, Drop, Nuls, CStr, Look, RecordText, DataOf, LegalRecord;
    RecordAhead(r, rest, at, name, k, cb);
    ParseAhead(RecordText(r) + rest, at, false, name, k, cb);
  }

  // ----- The checksum -----

  lemma {:induction false} SumBounded(s: string)
    requires forall i | 0 <= i < |s| :: s[i] as nat < 256
    ensures ByteSum(s) <= 255 * |s|
  {
    if s != "" { SumBounded(s[..|s| - 1]); }
  }

  /** The headers that the program writes carry the sum of their bytes, with blanks for the sum itself,
      where other programs look for it. */
  lemma ChecksumIsWritten(e: Entry, now: nat)
    ensures
      var h := Header(e, now);
      var blank := h[..148] + "        " + h[156..];
      (forall i | 0 <= i < |blank| :: blank[i] as nat < 256) ==> GetOctal(h[148..155]) == ByteSum(blank) && h[155] == ' '
  {
    hide HeaderFront, HeaderBack, OctalField, GetOctal, ByteSum, Pow8;
    var h, sum := Header(e, now), HeaderSum(e, now);
    var f, o, b := HeaderFront(e, now), OctalField(7, sum), HeaderBack(e);
    assert h == f + o + " " + b;
    assert h[..148] == f && h[148..155] == o && h[155] == ' ' && h[156..] == b;
    if forall i | 0 <= i < 512 :: (f + "        " + b)[i] as nat < 256 {
      SumBounded(f + "        " + b);
      SixDigits();
      OctalRoundTrip(7, sum);
    }
  }

  lemma SixDigits()
    ensures Pow8(6) == 262144
  {
  }
}
