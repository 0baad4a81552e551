/** The buffered file writer of apk-tools/src/io.c, whose file replaces another one when it is closed:
    fdo_write, fdo_flush and fdo_close, on a disk that may become full. */
module BufferedWriter {
  import opened Wrappers

  const SIZE := 1024
  const EIO := 5

  type Errno = e: int | e > 0 witness 28

  /** `text` is what is in the file, `room` what still fits; a write beyond it fills the room and then
      fails.  `rc` is the trouble met. */
  datatype Writer = Writer(text: string, room: nat, errno: Errno, buffer: string, rc: int)

  function Fresh(room: nat, errno: Errno): Writer { Writer("", room, errno, "", 0) }

  function Failure(e: Errno): int { -(e as int) }

  /** safe_write: the file afterwards, and the result. */
  function SafeWrite(w: Writer, s: string): (Writer, int) {
    if |s| <= w.room then (w.(text := w.text + s, room := w.room - |s|), |s|)
    else (w.(text := w.text + s[..w.room], room := 0), Failure(w.errno))
  }

  /** A short or failed write is remembered. */
  function Noted(w: Writer, r: int): Writer { w.(rc := if r < 0 then r else -EIO) }

  function Flush(w: Writer): (Writer, int) {
    if w.buffer == "" then (w, 0)
    else
      var (v, r) := SafeWrite(w, w.buffer);
      if r != |w.buffer| then (Noted(v, r), r) else (v.(buffer := ""), 0)
  }

  /** Large texts go past the buffer. */
  function Write(w: Writer, s: string): (Writer, int) {
    if |s| + |w.buffer| < SIZE then (w.(buffer := w.buffer + s), |s|)
    else
      var (v, r) := Flush(w);
      if r != 0 then (v, r)
      else if |s| < SIZE / 2 then (v.(buffer := v.buffer + s), |s|)
      else
        var (u, n) := SafeWrite(v, s);
        (if n != |s| then Noted(u, n) else u, n)
  }

  /** The result, and the contents that replace the target, if any do; `closing` is an error of the
      system's close. */
  function Close(w: Writer, closing: Option<Errno>): (int, Option<string>) {
    var rc := if closing.Some? then Failure(closing.value) else w.rc;
    (rc, if rc == 0 then Some(Flush(w).0.text) else None)
  }

  function WriteAll(w: Writer, parts: seq<string>): Writer {
    if parts == [] then w else Write(WriteAll(w, parts[..|parts| - 1]), parts[|parts| - 1]).0
  }

  function Concat(parts: seq<string>): string {
    if parts == [] then "" else Concat(parts[..|parts| - 1]) + parts[|parts| - 1]
  }

  // ----- What is in the file -----

  /** The file and the buffer hold `all`, the file first. */
  predicate Holds(w: Writer, all: string, room: nat) {
    w.rc == 0 && w.text + w.buffer == all && w.room + |w.text| == room && |w.buffer| < SIZE
  }

  lemma FlushHolds(w: Writer, all: string, room: nat)
    requires Holds(w, all, room)
    ensures
      var (v, r) := Flush(w);
      if |all| <= room then r == 0 && v.buffer == "" && Holds(v, all, room)
      else w.buffer != "" && r != 0 && v.rc != 0 && v.text == all[..room]
  {
  }

  /** A write either adds to what is held, or is remembered as failed: no third thing. */
  lemma WriteHolds(w: Writer, s: string, all: string, room: nat)
    requires Holds(w, all, room)
    ensures
      var (v, r) := Write(w, s);
      if v.rc == 0 then r == |s| && Holds(v, all + s, room) else |all + s| > room
  {
  }

  lemma FailureStays(w: Writer, s: string)
    requires w.rc != 0
    ensures Write(w, s).0.rc != 0
  {
  }

  lemma {:induction false} WriteAllHolds(parts: seq<string>, room: nat, errno: Errno)
    ensures
      var w := WriteAll(Fresh(room, errno), parts);
      if w.rc == 0 then Holds(w, Concat(parts), room) else |Concat(parts)| > room
  {
    if parts != [] {
      var before, s := parts[..|parts| - 1], parts[|parts| - 1];
      WriteAllHolds(before, room, errno);
      var w := WriteAll(Fresh(room, errno), before);
      hide Write;
      if w.rc == 0 { WriteHolds(w, s, Concat(before), room); } else { FailureStays(w, s); }
    }
  }

  /** The target gets the whole text exactly when the disk has room for it and closing succeeds.  If
      not, either the target is left alone and the error is reported, or, when all that failed was the
      last flush, the target is replaced by the part that fitted and success is reported. */
  lemma CloseReplaces(parts: seq<string>, room: nat, errno: Errno, closing: Option<Errno>)
    ensures
      var w, all := WriteAll(Fresh(room, errno), parts), Concat(parts);
      && (Close(w, closing) == (0, Some(all)) <==> |all| <= room && closing.None?)
      && (closing.Some? ==> Close(w, closing) == (Failure(closing.value), None))
      && (closing.None? && |all| > room ==>
            Close(w, closing) == if w.rc == 0 then (0, Some(all[..room])) else (w.rc, None))
  {
    WriteAllHolds(parts, room, errno);
    var w := WriteAll(Fresh(room, errno), parts);
    hide WriteAll, Concat, Flush;
    if w.rc == 0 {
      var all, v := Concat(parts), Flush(w).0;
      FlushHolds(w, all, room);
      assert v.text + "" == v.text;
      assert |all| > room ==> |all[..room]| == room;
    }
  }

  /** A text that is still in the buffer is lost on a full disk without an error. */
  lemma FullDiskGoesUnnoticed()
    ensures Close(WriteAll(Fresh(0, 28), ["text"]), None) == (0, Some(""))
  {
    assert WriteAll(Fresh(0, 28), ["text"][..0]) == Fresh(0, 28);
    assert WriteAll(Fresh(0, 28), ["text"]) == Fresh(0, 28).(buffer := "text");
  }

  // ----- The code -----

  class FileWriter {
    var text: string
    var room: nat
    const errno: Errno
    const buffer: array<char>
    var bytes: nat
    var rc: int
    var target: Option<string>

    ghost predicate Valid()
      reads this
    {
      buffer.Length == SIZE && bytes <= SIZE
    }

    ghost function Now(): Writer
      requires Valid()
      reads this, buffer
    {
      Writer(text, room, errno, buffer[..bytes], rc)
    }

    constructor (room: nat, errno: Errno)
      ensures Valid() && fresh(buffer) && Now() == Fresh(room, errno) && target == None
    {
      this.room, this.errno, text, bytes, rc, target := room, errno, "", 0, 0, None;
      buffer := new char[SIZE];
    }

    /** The system's writes: as long as something can be written. */
    method WriteOut(s: string) returns (r: int)
      requires Valid()
      modifies this
      ensures Valid() && (Now(), r) == SafeWrite(old(Now()), s) && target == old(target) && bytes == old(bytes)
    {
      if |s| <= room {
        text, room := text + s, room - |s|;
        return |s|;
      }
      r := Failure(errno);
      text, room := text + s[..room], 0;
    }

    method FlushOut() returns (r: int)
      requires Valid()
      modifies this
      ensures Valid() && (Now(), r) == Flush(old(Now())) && target == old(target)
    {
      hide SafeWrite;
      if bytes == 0 { return 0; }
      assert |Now().buffer| == bytes;
      r := WriteOut(buffer[..bytes]);
      ghost var v := Now();
      if r != bytes {
        rc := if r < 0 then r else -EIO;
        return;
      }
      bytes := 0;
      assert buffer[..0] == "" && Now() == v.(buffer := "");
      return 0;
    }

    method Put(s: string) returns (r: int)
      requires Valid()
      modifies this, buffer
      ensures Valid() && (Now(), r) == Write(old(Now()), s) && target == old(target)
    {
      hide SafeWrite, Flush;
      if |s| + bytes >= SIZE {
        r := FlushOut();
        if r != 0 { return; }
        if |s| >= SIZE / 2 {
          r := WriteOut(s);
          if r != |s| { rc := if r < 0 then r else -EIO; }
          return;
        }
        assert bytes == 0 by { FlushEmpties(old(Now())); }
      }
      ghost var before := Now();
      forall i | 0 <= i < |s| { buffer[bytes + i] := s[i]; }
      bytes := bytes + |s|;
      assert Now() == before.(buffer := before.buffer + s);
      return |s|;
    }

    method Finish(closing: Option<Errno>) returns (result: int)
      requires Valid() && target == None
      modifies this
      ensures Valid() && (result, target) == Close(old(Now()), closing)
    {
      hide Flush;
      result := rc;
      var _ := FlushOut();
      if closing.Some? { result := Failure(closing.value); }
      if result == 0 { target := Some(text); }
    }
  }

  lemma FlushEmpties(w: Writer)
    ensures Flush(w).1 == 0 ==> Flush(w).0.buffer == ""
  {
  }
}
