/** The line readers of apk-tools/src/io.c: is_bs_read, which reads a stream through a buffer, and
    mmap_read, which has the whole file at hand. */
module LineReader {
  import opened Wrappers
  import opened Splitting
  import opened Streams

  const SIZE := 8 * 1024

  // ----- What is delivered -----

  /** As much of the text as the buffer can hold. */
  function Window(s: string): string { if |s| <= SIZE then s else s[..SIZE] }

  /** One delivery: the text up to a separator that the buffer can hold, or the full buffer. */
  function Deliver(s: string, sep: char): (r: (string, string))
    requires s != ""
    ensures |r.1| < |s|
  {
    match Split(Window(s), sep)
    case Some((l, _)) => (l, s[|l| + 1..])
    case None => (Window(s), s[|Window(s)|..])
  }

  function Chunks(s: string, sep: char): seq<string>
    decreases |s|
  {
    if s == "" then [] else [Deliver(s, sep).0] + Chunks(Deliver(s, sep).1, sep)
  }

  /** The mapped file's deliveries: the text after the last separator comes even if it is empty. */
  function Parts(s: string, sep: char): (r: seq<string>)
    ensures r != []
    decreases |s|
  {
    match Split(s, sep)
    case Some((l, rest)) => [l] + Parts(rest, sep)
    case None => [s]
  }

  // ----- The readers split -----

  /** Every line is shorter than the buffer; one without a separator may fill it. */
  predicate Short(s: string, sep: char)
    decreases |s|
  {
    match Split(s, sep)
    case Some((l, rest)) => |l| < SIZE && Short(rest, sep)
    case None => |s| <= SIZE
  }

  lemma DeliverIsSplit(s: string, sep: char)
    requires s != ""
    ensures Split(s, sep).Some? && |Split(s, sep).value.0| < SIZE ==> Deliver(s, sep) == Split(s, sep).value
    ensures Split(s, sep).Some? && |Split(s, sep).value.0| >= SIZE ==> Deliver(s, sep) == (s[..SIZE], s[SIZE..])
    ensures Split(s, sep).None? ==> Deliver(s, sep) == (Window(s), s[|Window(s)|..])
  {
    hide Split;
    var w := Window(s);
    match Split(s, sep) {
      case None =>
        assert forall i | 0 <= i < |w| :: w[i] == s[i];
      case Some((l, rest)) =>
        if |l| < SIZE {
          var more := w[|l| + 1..];
          assert w == l + [sep] + more && rest == s[|l| + 1..];
          SplitAt(l, sep, more);
        } else {
          assert w == l[..SIZE];
        }
    }
  }

  /** The buffer never merges two lines. */
  lemma {:induction false} NoFewerChunks(s: string, sep: char)
    ensures |Chunks(s, sep)| >= |Segments(s, sep)|
    ensures !Short(s, sep) ==> |Chunks(s, sep)| > |Segments(s, sep)|
    decreases |s|
  {
    hide Split, Deliver, Find;
    if s == "" {
    } else {
      DeliverIsSplit(s, sep);
      match Split(s, sep) {
        case None =>
          if |s| > SIZE { assert Chunks(s[SIZE..], sep) != []; }
        case Some((l, rest)) =>
          if |l| < SIZE {
            NoFewerChunks(rest, sep);
          } else {
            CutLine(s, sep);
            NoFewerChunks(s[SIZE..], sep);
          }
      }
    }
  }

  /** Cutting a line gives one segment more. */
  lemma CutLine(s: string, sep: char)
    requires Split(s, sep).Some? && |Split(s, sep).value.0| >= SIZE
    ensures |Segments(s[SIZE..], sep)| == |Segments(s, sep)|
  {
  }

  lemma {:induction false} ShortChunks(s: string, sep: char)
    requires Short(s, sep)
    ensures Chunks(s, sep) == Segments(s, sep)
    decreases |s|
  {
    hide Split, Deliver, Find;
    if s != "" {
      DeliverIsSplit(s, sep);
      match Split(s, sep) {
        case None => assert s[|s|..] == "";
        case Some((l, rest)) => ShortChunks(rest, sep);
      }
    }
  }

  /** The buffered reader delivers the segments of the text, exactly when its lines fit. */
  lemma BufferedReaderSplits(s: string, sep: char)
    ensures Chunks(s, sep) == Segments(s, sep) <==> Short(s, sep)
  {
    NoFewerChunks(s, sep);
    if Short(s, sep) { ShortChunks(s, sep); }
  }

  /** A line that fills the buffer is delivered without its end, which makes an empty line of its own. */
  lemma FullLineIsSplit(line: string, sep: char)
    requires |line| == SIZE && sep !in line
    ensures Segments(line + [sep], sep) == [line] && Chunks(line + [sep], sep) == [line, ""]
  {
    hide Split, Deliver, Chunks, Segments;
    var s, end := line + [sep], [sep];
    SingleLine(line, sep);
    SingleLine("", sep);
    assert "" + [sep] == end;
    DeliverIsSplit(s, sep);
    DeliverIsSplit(end, sep);
    assert s[..SIZE] == line && s[SIZE..] == end;
    ChunksFrom(s, sep);
    ChunksFrom(end, sep);
    assert [line] + [""] == [line, ""] && [""] + [] == [""];
  }

  lemma SingleLine(line: string, sep: char)
    requires sep !in line
    ensures Split(line + [sep], sep) == Some((line, "")) && Segments(line + [sep], sep) == [line]
  {
    assert line + [sep] + "" == line + [sep];
    SplitAt(line, sep, "");
    hide Split;
    assert Segments("", sep) == [];
  }

  lemma ChunksFrom(s: string, sep: char)
    requires s != ""
    ensures Chunks(s, sep) == [Deliver(s, sep).0] + Chunks(Deliver(s, sep).1, sep) && Chunks("", sep) == []
  {
    hide Deliver;
  }

  /** The mapped reader delivers one more, empty, blob if there is no line without a separator. */
  lemma {:induction false} MappedReaderSplits(s: string, sep: char)
    ensures Parts(s, sep) == Segments(s, sep) + if s == "" || s[|s| - 1] == sep then [""] else []
    decreases |s|
  {
    hide Split;
    match Split(s, sep) {
      case None =>
      case Some((l, rest)) =>
        MappedReaderSplits(rest, sep);
        assert rest != "" ==> rest[|rest| - 1] == s[|s| - 1];
    }
  }

  // ----- The buffered reader -----

  /** `start` and `len` are the part of the buffer that has not been delivered yet; `ended` is the
      NULL blob in its place. */
  class BufferedReader {
    const stream: InStream
    const buffer: array<char>
    var start: nat
    var len: nat
    var ended: bool

    ghost predicate Valid()
      reads this, stream
    {
      buffer.Length == SIZE && start + len <= SIZE && (ended ==> len == 0 && stream.data == "")
    }

    ghost function Left(): string
      requires Valid()
      reads this, stream, buffer
    {
      buffer[start..start + len]
    }

    /** What is still to come. */
    ghost function Rest(): string
      requires Valid()
      reads this, stream, buffer
    {
      Left() + stream.data
    }

    constructor (stream: InStream)
      ensures Valid() && this.stream == stream && fresh(buffer) && Rest() == stream.data
    {
      this.stream, buffer := stream, new char[SIZE];
      start, len, ended := 0, 0, false;
    }

    /** With a separator, the next line or a full buffer; without one, whatever is at hand.  None
        at the end, and from then on. */
    method Read(token: Option<char>) returns (r: Option<string>)
      requires Valid()
      modifies this, stream, buffer
      ensures Valid()
      ensures r.None? <==> old(Rest()) == ""
      ensures r.None? ==> Rest() == ""
      ensures r.Some? && token.Some? ==> (r.value, Rest()) == Deliver(old(Rest()), token.value)
      ensures r.Some? && token.None? ==> r.value != "" && r.value + Rest() == old(Rest())
    {
      hide Split, Deliver, Window;
      if len != 0 {
        r := TakeHeld(token);
        if r.Some? { return; }
      }
      if ended { return None; }
      Refill();
      NoneLeft(Rest());
      if len == 0 {
        ended := true;
        return None;
      }
      r := TakeFilled(token);
    }

    /** The next delivery, if what is at hand holds it. */
    method TakeHeld(token: Option<char>) returns (r: Option<string>)
      requires Valid() && len != 0
      modifies this
      ensures Valid() && !ended
      ensures r.None? ==> Rest() == old(Rest()) && Rest() != ""
      ensures r.Some? && token.Some? ==> (r.value, Rest()) == Deliver(old(Rest()), token.value)
      ensures r.Some? && token.None? ==> r.value != "" && r.value + Rest() == old(Rest())
      ensures r.Some? ==> old(Rest()) != ""
    {
      hide Split, Deliver, Window;
      assert Left() != "";
      if token.None? {
        r := TakeAll();
      } else {
        r := TakeLine(token.value);
      }
    }

    /** The next delivery from a buffer that has just been filled. */
    method TakeFilled(token: Option<char>) returns (r: Option<string>)
      requires Valid() && len != 0 && !ended && Left() == Window(Rest())
      modifies this
      ensures Valid() && r.Some?
      ensures token.Some? ==> (r.value, Rest()) == Deliver(old(Rest()), token.value)
      ensures token.None? ==> r.value != "" && r.value + Rest() == old(Rest())
    {
      hide Split, Deliver, Window;
      ghost var rest := Rest();
      if token.Some? {
        r := TakeLine(token.value);
        if r.Some? { return; }
        DeliverFull(rest, token.value);
      }
      r := TakeAll();
      assert Rest() == rest[|r.value|..];
    }

    method TakeAll() returns (r: Option<string>)
      requires Valid() && len != 0
      modifies this
      ensures Valid() && stream.data == old(stream.data) && !ended
      ensures r == Some(old(Left())) && r.value + Rest() == old(Rest()) && Rest() == stream.data
    {
      r := Some(buffer[start..start + len]);
      len := 0;
    }

    /** The first line of what is at hand, if there is a whole one. */
    method TakeLine(sep: char) returns (r: Option<string>)
      requires Valid() && len != 0
      modifies this
      ensures Valid() && !ended
      ensures r.Some? ==> (r.value, Rest()) == Deliver(old(Rest()), sep)
      ensures r.None? ==> sep !in Left() && start == old(start) && len == old(len)
    {
      hide Split, Deliver;
      ghost var left, at := Left(), start;
      var cut := Split(buffer[start..start + len], sep);
      if cut.None? { return None; }
      DeliverFrom(left, stream.data, sep);
      var l := cut.value.0;
      start, len := start + |l| + 1, len - |l| - 1;
      assert Left() == left[|l| + 1..];
      r := Some(l);
    }

    method MoveToFront()
      requires Valid()
      modifies this`start, buffer
      ensures Valid() && start == 0 && Left() == old(Left())
    {
      forall i | 0 <= i < len { buffer[i] := buffer[start + i]; }
      start := 0;
      assert buffer[..len] == old(Left());
    }

    /** Moves the rest to the front and reads as much behind it as there is room for. */
    method Refill()
      requires Valid() && !ended
      modifies this, stream, buffer
      ensures Valid() && !ended && Rest() == old(Rest()) && Left() == Window(old(Rest()))
    {
      hide Window;
      ghost var left, data := Left(), stream.data;
      MoveToFront();
      var size := stream.Read(buffer, len, SIZE - len);
      len := len + size;
      WindowOf(left, data, size);
    }
  }

  lemma NoneLeft(s: string)
    ensures Window(s) == "" <==> s == ""
  {
  }

  lemma WindowOf(left: string, data: string, n: nat)
    requires |left| <= SIZE && n == if |data| < SIZE - |left| then |data| else SIZE - |left|
    ensures left + data[..n] == Window(left + data) && left + data[..n] + data[n..] == left + data
  {
  }

  lemma DeliverFrom(left: string, data: string, sep: char)
    requires sep in left && |left| <= SIZE
    ensures
      var (l, more) := Split(left, sep).value;
      Deliver(left + data, sep) == (l, more + data) && more == left[|l| + 1..]
  {
    hide Split;
    var (l, more) := Split(left, sep).value;
    var w := Window(left + data);
    assert w == l + [sep] + w[|l| + 1..];
    SplitAt(l, sep, w[|l| + 1..]);
    assert (left + data)[|l| + 1..] == more + data;
  }

  lemma DeliverFull(s: string, sep: char)
    requires s != "" && sep !in Window(s)
    ensures Deliver(s, sep) == (Window(s), s[|Window(s)|..])
  {
  }

  /** Reading line by line to the end. */
  method ReadAll(reader: BufferedReader, sep: char) returns (lines: seq<string>)
    requires reader.Valid()
    modifies reader, reader.stream, reader.buffer
    ensures reader.Valid() && lines == Chunks(old(reader.Rest()), sep)
  {
    hide Deliver;
    lines := [];
    while true
      invariant reader.Valid()
      invariant lines + Chunks(reader.Rest(), sep) == Chunks(old(reader.Rest()), sep)
      decreases |reader.Rest()|
    {
      var line := reader.Read(Some(sep));
      if line.None? { return; }
      lines := lines + [line.value];
    }
  }

  // ----- The mapped reader -----

  class MappedReader {
    var left: Option<string>
    var eof: bool

    constructor (data: string)
      ensures left == Some(data) && !eof
    {
      left, eof := Some(data), false;
    }

    method Read(token: Option<char>) returns (r: Option<string>)
      modifies this
      ensures old(left).None? ==> r.None? && left.None? && eof
      ensures old(left).Some? && token.Some? && token.value in old(left).value ==>
                eof == old(eof) && (r, left) == var (l, rest) := Split(old(left).value, token.value).value; (Some(l), Some(rest))
      ensures old(left).Some? && (token.Some? ==> token.value !in old(left).value) ==>
                r == old(left) && left.None? && eof
    {
      if token.Some? && left.Some? {
        var cut := Split(left.value, token.value);
        if cut.Some? {
          left := Some(cut.value.1);
          return Some(cut.value.0);
        }
      }
      r := left;
      left, eof := None, true;
    }
  }

  method ReadAllMapped(reader: MappedReader, sep: char) returns (lines: seq<string>)
    requires reader.left.Some?
    modifies reader
    ensures lines == Parts(old(reader.left).value, sep) && reader.eof
  {
    hide Split;
    lines := [];
    while reader.left.Some?
      invariant lines + (if reader.left.Some? then Parts(reader.left.value, sep) else []) == Parts(old(reader.left).value, sep)
      invariant reader.left.None? ==> reader.eof
      decreases reader.left.Some?, if reader.left.Some? then |reader.left.value| else 0
    {
      var line := reader.Read(Some(sep));
      lines := lines + [line.value];
    }
  }
}
