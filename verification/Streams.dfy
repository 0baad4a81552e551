/** The streams that files are read from, whose errors are not modelled, and those that are written to,
    which may at any time take no more. */
module Streams {
  /** A stream that reads short only at its end. */
  class InStream {
    var data: string

    constructor (data: string)
      ensures this.data == data
    {
      this.data := data;
    }

    method Read(buffer: array<char>, at: nat, size: nat) returns (n: nat)
      requires at + size <= buffer.Length
      modifies this, buffer
      ensures n == (if |old(data)| < size then |old(data)| else size) && data == old(data)[n..]
      ensures buffer[..at + n] == old(buffer[..at]) + old(data)[..n]
    {
      n := if |data| < size then |data| else size;
      forall i | 0 <= i < n { buffer[at + i] := data[i]; }
      data := data[n..];
    }

    /** A read into memory of the caller's, or into none. */
    method Take(size: nat) returns (s: string)
      modifies this
      ensures s == (if |old(data)| < size then old(data) else old(data)[..size]) && old(data) == s + data
    {
      var n := if |data| < size then |data| else size;
      s, data := data[..n], data[n..];
    }
  }

  /** What has been written, and how much more is taken before writes come out short. */
  datatype Sink = Sink(text: string, room: nat) {
    function Take(s: string): Sink {
      if |s| <= room then Sink(text + s, room - |s|) else Sink(text + s[..room], 0)
    }
  }

  lemma TakeBoth(k: Sink, a: string, b: string)
    ensures k.Take(a).Take(b) == k.Take(a + b)
  {
    if |a| <= k.room {
      if |a + b| <= k.room {
        assert k.text + a + b == k.text + (a + b);
      } else {
        assert (a + b)[..k.room] == a + b[..k.room - |a|];
        assert k.text + a + b[..k.room - |a|] == k.text + (a + b)[..k.room];
      }
    } else {
      TakeFull(k, a, b);
    }
  }

  /** Nothing more gets through behind a short write. */
  lemma TakeFull(k: Sink, a: string, b: string)
    requires |a| > k.room
    ensures k.Take(a + b) == k.Take(a)
  {
    assert (a + b)[..k.room] == a[..k.room];
  }

  lemma TakeNothing(k: Sink)
    ensures k.Take("") == k
  {
    assert k.text + "" == k.text;
  }

  class OutStream {
    var text: string
    var room: nat

    ghost function Now(): Sink
      reads this
    {
      Sink(text, room)
    }

    constructor (room: nat)
      ensures Now() == Sink("", room)
    {
      this.text, this.room := "", room;
    }

    method Write(s: string) returns (n: nat)
      modifies this
      ensures Now() == old(Now()).Take(s) && (n == |s| <==> |s| <= old(room))
    {
      n := if |s| <= room then |s| else room;
      text, room := text + s[..n], room - n;
      assert s[..|s|] == s;
    }

    /** The next part of a text that the stream has taken so far. */
    method Send(s: string, ghost k: Sink, ghost done: string) returns (ok: bool)
      requires Now() == k.Take(done) && |done| <= k.room
      modifies this
      ensures Now() == k.Take(done + s) && ok == (|done + s| <= k.room)
    {
      TakeBoth(k, done, s);
      var n := Write(s);
      ok := n == |s|;
    }
  }
}
