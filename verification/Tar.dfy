/** The tar format of apk-tools/src/archive.c: headers as written and as read, and what a parse of
    any stream delivers. */
module Tar {
  import opened Wrappers
  import opened Codec

  const BLOCK := 512
  const NUL := '\0'
  const INT_LIMIT := 0x8000_0000

  function Nuls(n: nat): (s: string)
    ensures |s| == n && forall i | 0 <= i < n :: s[i] == NUL
  {
    if n == 0 then "" else [NUL] + Nuls(n - 1)
  }

  // ----- Octal fields -----

  /** `n` octal digits; higher ones are lost. */
  function Octal(n: nat, v: nat): (s: string)
    ensures |s| == n
  {
    if n == 0 then "" else Octal(n - 1, v / 8) + [Xd(v % 8)]
  }

  function OctalField(l: nat, v: nat): (s: string)
    requires l > 0
    ensures |s| == l
  {
    Octal(l - 1, v) + [NUL]
  }

  /** The unsigned value as the program's int. */
  function ToInt(v: nat): int
    requires v < WRAP
  {
    if v < INT_LIMIT then v else v - WRAP
  }

  function GetOctal(s: string): (v: int)
    ensures -INT_LIMIT <= v < INT_LIMIT
  {
    PullBelow(0, s, 8);
    ToInt(PullUint(s, 8).0)
  }

  lemma {:induction false} PullBelow(val: nat, b: string, radix: Radix)
    requires val < WRAP
    ensures PullUintFrom(val, b, radix).0 < WRAP
    decreases b
  {
    if b != "" && b[0] != '\0' && DigitOf(b[0], radix) {
      PullBelow(Shift(val, radix, Dx(b[0])) % WRAP, b[1..], radix);
    }
  }

  // ----- Headers -----

  /** A string in memory: no NUL inside. */
  type CString = s: string | NUL !in s

  /** Up to the first NUL. */
  function CStr(s: string): (c: CString)
    ensures |c| <= |s| && c == s[..|c|]
  {
    if s == "" || s[0] == NUL then "" else [s[0]] + CStr(s[1..])
  }

  /** strncpy: cut off, or filled up with NULs. */
  function Field(s: CString, n: nat): (f: string)
    ensures |f| == n
  {
    if |s| >= n then s[..n] else s + Nuls(n - |s|)
  }

  /** What apk_tar_write_entry is given; None is a NULL string. */
  datatype Entry = Entry(
    name: Option<CString>, uname: Option<CString>, gname: Option<CString>, size: nat, uid: nat, gid: nat, mode: nat,
    mtime: nat)

  const IFMT_REG := 8
  const IFMT := 0x1000

  predicate IsRegular(mode: nat) { mode / IFMT % 16 == IFMT_REG }

  function Or(s: Option<CString>, other: CString): CString { if s.Some? then s.value else other }

  const MAGIC: CString := "ustar  "
  const ROOT: CString := "root"

  /** The header up to the checksum, and behind it. */
  function HeaderFront(e: Entry, now: nat): (s: string)
    ensures |s| == 148
  {
    Field(Or(e.name, ""), 100) + OctalField(8, e.mode % IFMT) + OctalField(8, e.uid) + OctalField(8, e.gid)
    + OctalField(12, e.size) + OctalField(12, if e.mtime != 0 then e.mtime else now)
  }

  function HeaderBack(e: Entry): (s: string)
    ensures |s| == 356
  {
    ['0'] + Nuls(100) + Field(MAGIC, 8) + Field(Or(e.uname, ROOT), 32) + Field(Or(e.gname, ROOT), 32) + Nuls(183)
  }

  function ByteSum(s: string): nat { if s == "" then 0 else ByteSum(s[..|s| - 1]) + s[|s| - 1] as int }

  const BLANKS := "        "

  /** The checksum is of the header with blanks in the checksum's place. */
  function HeaderSum(e: Entry, now: nat): nat { ByteSum(HeaderFront(e, now) + BLANKS + HeaderBack(e)) }

  function Header(e: Entry, now: nat): (s: string)
    ensures |s| == BLOCK
  {
    HeaderFront(e, now) + (OctalField(7, HeaderSum(e, now)) + " ") + HeaderBack(e)
  }

  function PadOf(size: nat): (n: nat)
    ensures n < BLOCK && (size + n) % BLOCK == 0
  {
    if size % BLOCK == 0 then 0 else BLOCK - size % BLOCK
  }

  // ----- Parsing -----

  datatype FileInfo = FileInfo(
    name: string, size: nat, mode: nat, mtime: int, uid: int, gid: int, uname: string, gname: string,
    major: int, minor: int, link: Option<string>)

  /** An entry as the callback saw it: the bytes it read, and how it was answered. */
  datatype Seen = Seen(info: FileInfo, content: string)

  /** How many bytes the callback reads of the k-th entry, and its result. */
  datatype Callback = Callback(take: (nat, FileInfo) -> nat, answer: (nat, FileInfo, string) -> int)

  const EBADMSG := 74

  /** The result, what was delivered, and the positions at which headers were read. */
  datatype Outcome = Outcome(result: int, seen: seq<Seen>, headers: seq<nat>)

  /** The file type that a typeflag stands for, and whether the link field is used. */
  function TypeOf(flag: char): nat {
    match flag
    case '0' => 8
    case '7' => 8
    case '1' => 8
    case '2' => 10
    case '3' => 2
    case '4' => 6
    case '5' => 4
    case _ => 0
  }

  function InfoOf(h: string, name: Option<string>): FileInfo
    requires |h| == BLOCK && GetOctal(h[124..136]) >= 0
  {
    var mode := GetOctal(h[100..108]) % IFMT;
    var flag := h[156];
    FileInfo(
      if name.Some? then name.value else CStr(h), GetOctal(h[124..136]), mode + TypeOf(flag) * IFMT,
      GetOctal(h[136..148]), GetOctal(h[108..116]), GetOctal(h[116..124]), CStr(h[265..]), CStr(h[297..]),
      GetOctal(h[329..337]), GetOctal(h[337..345]), if flag == '1' || flag == '2' then Some(CStr(h[157..])) else None)
  }

  function Take(s: string, n: nat): string { if n <= |s| then s[..n] else s }
  function Drop(s: string, n: nat): string { if n <= |s| then s[n..] else "" }

  function Min(a: nat, b: nat): nat { if a < b then a else b }

  /** The rest of the archive must be empty headers, and no partial one. */
  function Trailer(s: string, at: nat): Outcome {
    if |s| < BLOCK then Outcome(if s == "" then 0 else -EBADMSG, [], [])
    else if s[0] != NUL then Outcome(-EBADMSG, [], [at])
    else var o := Trailer(s[BLOCK..], at + BLOCK); o.(headers := [at] + o.headers)
  }

  /** Parsing `s`, which begins at `at`, after `k` entries; `ended` after one empty header; `name` from
      a long-name entry before.  None: a size field of 2^31 or more. */
  function Parse(s: string, at: nat, ended: bool, name: Option<string>, k: nat, cb: Callback): Option<Outcome>
    decreases |s|
  {
    if |s| < BLOCK then Some(Outcome(if s == "" then 0 else -EBADMSG, [], []))
    else
      var h, rest, pos := s[..BLOCK], s[BLOCK..], at + BLOCK;
      if h[0] == NUL then
        if ended then Some(AtHeader(at, Trailer(rest, pos)))
        else ThenMore(at, [], Parse(rest, pos, true, name, k, cb))
      else if GetOctal(h[124..136]) < 0 then None
      else
        var info := InfoOf(h, name);
        if h[156] == 'L' then
          var next := info.size + Skip(pos, info.size, 0);
          ThenMore(at, [], Parse(Drop(rest, next), pos + next, ended, Some(CStr(Take(rest, info.size))), k, cb))
        else
          var called := TypeOf(h[156]) != 0;
          var got := if called then Min(cb.take(k, info), Min(info.size, |rest|)) else 0;
          var seen := if called then [Seen(info, rest[..got])] else [];
          var next := got + Skip(pos + got, 0, info.size - got);
          if called && cb.answer(k, info, rest[..got]) != 0 then
            Some(Outcome(cb.answer(k, info, rest[..got]), seen, [at]))
          else
            ThenMore(at, seen, Parse(Drop(rest, next), pos + next, ended, if called then None else name,
                                     if called then k + 1 else k, cb))
  }

  function AtHeader(at: nat, o: Outcome): Outcome { o.(headers := [at] + o.headers) }

  function ThenMore(at: nat, seen: seq<Seen>, o: Option<Outcome>): Option<Outcome> {
    match o case None => None case Some(x) => Some(Outcome(x.result, seen + x.seen, [at] + x.headers))
  }

  /** What is skipped at `at`, after `done` bytes, with `left` bytes left of an entry: those, and up to
      the next multiple of the block size. */
  function Skip(at: nat, done: nat, left: nat): (n: nat)
    ensures n >= left
  {
    left + PadOf(at + done + left)
  }
}
