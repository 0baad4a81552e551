/** What the bytes of a stream have been checked against when a run ends without an error. */
module SignatureSafety {
  import opened Wrappers
  import opened Codec
  import opened Signature

  // ----- Reading the events alone -----

  /** `control`, `data`: the control block, the data have been started.  `hashed`: the control block
      announced a digest of the data.  `begin`: the events behind the last boundary before the
      control block.  `check`: the events behind the boundary that ended it. */
  datatype Marks = Marks(control: bool, data: bool, hashed: bool, begin: nat, check: Option<nat>)

  function Mark(m: Marks, e: Event, n: nat): Marks {
    match e
    case File(name, _) => m.(control := m.control || !IsSignature(name), data := m.data || IsData(name))
    case Line(line) => m.(hashed := m.hashed || (!m.data && HasPrefix(line, DATAHASH)))
    case Stream(part, _) =>
      if part != Boundary || m.data then m
      else if !m.control then m.(begin := n + 1)
      else m.(data := true, check := if m.hashed then Some(n + 1) else None)
  }

  /** `started`: the kind of context that has no control block of its own. */
  function Scan(es: seq<Event>, started: bool): Marks {
    if es == [] then Marks(started, started, false, 0, None)
    else Mark(Scan(es[..|es| - 1], started), es[|es| - 1], |es| - 1)
  }

  // ----- Sequences of events -----

  lemma ScanMore(es: seq<Event>, e: Event, started: bool)
    ensures Scan(es + [e], started) == Mark(Scan(es, started), e, |es|)
  {
  }

  lemma RunMore(c: Context, es: seq<Event>, e: Event, env: Env)
    requires |c.dataChecksum| == MAX_MD
    ensures
      Run(c, es + [e], env) ==
        match Run(c, es, env)
        case None => None
        case Some(d) => if Handle(d, e, env).1.None? then Some(Handle(d, e, env).0) else None
  {
  }

  lemma BytesMore(es: seq<Event>, e: Event, from: nat)
    requires from <= |es|
    ensures Bytes((es + [e])[from..]) == Bytes(es[from..]) + if e.Stream? then e.data else []
  {
    var more := (es + [e])[from..];
    assert more[..|more| - 1] == es[from..] && more[|more| - 1] == e;
  }

  predicate NoEnd(es: seq<Event>) { forall i | 0 <= i < |es| :: !IsEnd(es[i]) }

  // ----- What a context knows -----

  predicate Fresh(c: Context) {
    && |c.dataChecksum| == MAX_MD && c.hash == Hash(c.md, []) && c.dataStarted == c.controlStarted
    && !c.hasDataChecksum && !c.controlVerified && !c.dataVerified && c.signature.None?
    && (c.action == NoAction || c.action == GenerateV1 ==> c.controlStarted)
  }

  lemma InitIsFresh(action: Action, identity: Checksum, keys: Option<map<string, Key>>)
    requires identity.Valid()
    ensures Fresh(Init(action, identity, keys))
  {
  }

  /** The digest that a run is to use from then on. */
  function MdAfter(c: Context, es: seq<Event>, env: Env): Md
    requires |c.dataChecksum| == MAX_MD
  {
    match Run(c, es, env) case None => NullMd case Some(d) => d.md
  }

  /** Before the control block has been checked, the digest holds everything since `begin`; after it,
      everything since. */
  predicate Tracks(c: Context, es: seq<Event>, s: Context, m: Marks, env: Env)
    requires |c.dataChecksum| == MAX_MD
  {
    && s.controlStarted == m.control && s.dataStarted == m.data && s.hasDataChecksum == m.hashed
    && s.action == c.action && (m.data ==> m.control) && m.begin <= |es|
    && (c.action == NoAction || c.action == GenerateV1 ==> m.data)
    && !s.dataVerified && |s.dataChecksum| == MAX_MD
    && match m.check
       case None =>
         && !s.controlVerified && s.hash == Hash(MdAfter(c, es[..m.begin], env), Bytes(es[m.begin..]))
         && s.identity == c.identity
       case Some(k) =>
         && m.begin <= k <= |es| && m.data && m.hashed && s.controlVerified
         && s.hash == Hash(s.md, Bytes(es[k..])) && s.md == MdAfter(c, es[..k], env)
         && (c.action == VerifyIdentity ==> s.identity == c.identity)
         && ControlMatches(s, Hash(MdAfter(c, es[..m.begin], env), Bytes(es[m.begin..k])), env)
  }

  lemma FileTracks(c: Context, es: seq<Event>, s: Context, m: Marks, e: Event, env: Env)
    requires |c.dataChecksum| == MAX_MD && Tracks(c, es, s, m, env) && e.File?
    requires Handle(s, e, env).1.None?
    ensures Tracks(c, es + [e], Handle(s, e, env).0, Mark(m, e, |es|), env)
  {
    hide MdAfter, Bytes;
    Slices(es, e, m);
    BytesMore(es, e, m.begin);
    if m.check.Some? { BytesMore(es, e, m.check.value); }
  }

  lemma Slices(es: seq<Event>, e: Event, m: Marks)
    requires m.begin <= |es| && (m.check.Some? ==> m.begin <= m.check.value <= |es|)
    ensures (es + [e])[..m.begin] == es[..m.begin]
    ensures m.check.Some? ==>
              && (es + [e])[..m.check.value] == es[..m.check.value]
              && (es + [e])[m.begin..m.check.value] == es[m.begin..m.check.value]
  {
  }

  lemma LineTracks(c: Context, es: seq<Event>, s: Context, m: Marks, e: Event, env: Env)
    requires |c.dataChecksum| == MAX_MD && Tracks(c, es, s, m, env) && e.Line?
    ensures Tracks(c, es + [e], Handle(s, e, env).0, Mark(m, e, |es|), env)
  {
    hide MdAfter, Bytes, Overlay;
    Slices(es, e, m);
    BytesMore(es, e, m.begin);
    if m.check.Some? { BytesMore(es, e, m.check.value); }
  }

  /** A part that is only fed to the digest. */
  lemma FeedTracks(c: Context, es: seq<Event>, s: Context, m: Marks, e: Event, env: Env)
    requires |c.dataChecksum| == MAX_MD && Tracks(c, es, s, m, env) && e.Stream? && !IsEnd(e)
    requires e.part == Data || m.data
    ensures Handle(s, e, env).1.None? && Tracks(c, es + [e], Handle(s, e, env).0, Mark(m, e, |es|), env)
  {
    hide MdAfter, Bytes;
    Slices(es, e, m);
    BytesMore(es, e, m.begin);
    if m.check.Some? { BytesMore(es, e, m.check.value); }
  }

  /** A boundary before the control block starts the digest anew. */
  lemma ResetTracks(c: Context, es: seq<Event>, s: Context, m: Marks, e: Event, env: Env)
    requires |c.dataChecksum| == MAX_MD && Tracks(c, es, s, m, env) && e.Stream? && e.part == Boundary && !m.control
    requires MdAfter(c, es + [e], env) == s.md
    ensures Tracks(c, es + [e], Handle(s, e, env).0, Mark(m, e, |es|), env)
  {
    hide Bytes, MdAfter;
    assert (es + [e])[..|es| + 1] == es + [e] && (es + [e])[|es| + 1..] == [];
    NoBytes();
  }

  /** The boundary that ends the control block: it is checked if it announced a digest. */
  lemma ControlTracks(c: Context, es: seq<Event>, s: Context, m: Marks, e: Event, env: Env)
    requires |c.dataChecksum| == MAX_MD && Tracks(c, es, s, m, env) && e.Stream? && e.part == Boundary
    requires m.control && !m.data && Handle(s, e, env).1.None? && MdAfter(c, es + [e], env) == s.md
    ensures Tracks(c, es + [e], Handle(s, e, env).0, Mark(m, e, |es|), env)
  {
    hide Bytes, MdAfter;
    Slices(es, e, m);
    BytesMore(es, e, m.begin);
    assert (es + [e])[..|es| + 1] == es + [e] && (es + [e])[|es| + 1..] == [];
    assert (es + [e])[m.begin..|es| + 1] == (es + [e])[m.begin..];
    NoBytes();
  }

  lemma MdAfterBoundary(c: Context, es: seq<Event>, e: Event, env: Env)
    requires |c.dataChecksum| == MAX_MD && Run(c, es, env).Some? && e.Stream? && Handle(Run(c, es, env).value, e, env).1.None?
    ensures MdAfter(c, es + [e], env) == Run(c, es, env).value.md
  {
  }

  lemma NoBytes()
    ensures Bytes([]) == []
  {
  }

  lemma {:induction false} RunTracks(c: Context, es: seq<Event>, env: Env)
    requires Fresh(c) && NoEnd(es) && Run(c, es, env).Some?
    ensures Tracks(c, es, Run(c, es, env).value, Scan(es, c.controlStarted), env)
  {
    if es == [] {
      NoBytes();
    } else {
      var before, e := es[..|es| - 1], es[|es| - 1];
      assert es == before + [e];
      RunMore(c, before, e, env);
      ScanMore(before, e, c.controlStarted);
      RunTracks(c, before, env);
      hide Run, Scan, Tracks, Handle, Fresh;
      var s, m := Run(c, before, env).value, Scan(before, c.controlStarted);
      match e {
        case File(_, _) => FileTracks(c, before, s, m, e, env);
        case Line(_) => LineTracks(c, before, s, m, e, env);
        case Stream(part, _) =>
          assert !IsEnd(e);
          if part == Data || m.data {
            FeedTracks(c, before, s, m, e, env);
          } else {
            MdAfterBoundary(c, before, e, env);
            if m.control { ControlTracks(c, before, s, m, e, env); } else { ResetTracks(c, before, s, m, e, env); }
          }
      }
    }
  }

  // ----- The end of the stream -----

  lemma EndChecks(s: Context, data: seq<Byte>, env: Env)
    requires !s.dataVerified && !env.allowUntrusted && |s.dataChecksum| == MAX_MD
    requires HandlePart(s, End, data, env).1.None? && HandlePart(s, End, data, env).0.dataVerified
    ensures
      var t, h := HandlePart(s, End, data, env).0, s.hash.(bytes := s.hash.bytes + data);
      && s.controlStarted && t.controlVerified && t.hasDataChecksum == s.hasDataChecksum
      && if s.hasDataChecksum then s.dataStarted && s.controlVerified && DataMatches(s.dataChecksum, h, env)
         else ControlMatches(s, h, env)
  {
  }

  /** The events up to `k` have been checked as the control block, from `begin` on. */
  predicate ControlCovered(c: Context, t: Context, es: seq<Event>, begin: nat, k: nat, env: Env)
    requires |c.dataChecksum| == MAX_MD && begin <= k <= |es|
  {
    ControlMatches(t, Hash(MdAfter(c, es[..begin], env), Bytes(es[begin..k])), env)
  }

  // ----- Where the key and the data's digest come from -----

  predicate Announces(e: Event) { e.Line? && HasPrefix(e.line, DATAHASH) }

  /** The bytes that the lines read before the data have left as the digest of the data. */
  function Announced(es: seq<Event>, started: bool, was: seq<Byte>): (r: seq<Byte>)
    requires |was| == MAX_MD
    ensures |r| == MAX_MD
  {
    if es == [] then was
    else
      var before, e := es[..|es| - 1], es[|es| - 1];
      var r := Announced(before, started, was);
      if Announces(e) && !Scan(before, started).data then Overlay(r, e.line[|DATAHASH|..]) else r
  }

  /** A signature file whose key is in the key directory. */
  predicate IsKeyFile(c: Context, e: Event, k: KeyAndData) {
    && e.File? && IsSignature(e.name) && |e.name| >= 10 && c.keys.Some? && e.name[10..] in c.keys.value
    && k == KeyAndData(c.keys.value[e.name[10..]], e.content)
  }

  predicate Sourced(c: Context, es: seq<Event>, s: Context)
    requires |c.dataChecksum| == MAX_MD
  {
    && s.keys == c.keys && s.dataChecksum == Announced(es, c.controlStarted, c.dataChecksum)
    && (s.signature.Some? ==> exists i | 0 <= i < |es| :: IsKeyFile(c, es[i], s.signature.value))
  }

  lemma {:induction false} RunSourced(c: Context, es: seq<Event>, env: Env)
    requires Fresh(c) && NoEnd(es) && Run(c, es, env).Some?
    ensures Sourced(c, es, Run(c, es, env).value)
  {
    if es != [] {
      var before, e := es[..|es| - 1], es[|es| - 1];
      assert es == before + [e];
      RunMore(c, before, e, env);
      RunSourced(c, before, env);
      RunTracks(c, before, env);
      var s := Run(c, before, env).value;
      assert s.dataStarted == Scan(before, c.controlStarted).data;
      hide Run, Scan, Tracks, Fresh, Handle, Announced, NoEnd;
      HandleSourced(c, before, s, e, env);
    }
  }

  lemma HandleSourced(c: Context, es: seq<Event>, s: Context, e: Event, env: Env)
    requires |c.dataChecksum| == MAX_MD && Sourced(c, es, s) && s.dataStarted == Scan(es, c.controlStarted).data
    ensures Sourced(c, es + [e], Handle(s, e, env).0)
  {
    hide Scan, Overlay, Announced, IsKeyFile, Announces, Handle;
    AnnouncedMore(es, e, c.controlStarted, c.dataChecksum);
    HandleAdds(c, s, e, env);
    var t, more := Handle(s, e, env).0, es + [e];
    assert more[|es|] == e && forall i | 0 <= i < |es| :: more[i] == es[i];
    if t.signature.Some? {
      if !IsKeyFile(c, e, t.signature.value) {
        var i :| 0 <= i < |es| && IsKeyFile(c, es[i], s.signature.value);
        assert IsKeyFile(c, more[i], t.signature.value);
      }
    }
  }

  /** What one event can change of it. */
  lemma HandleAdds(c: Context, s: Context, e: Event, env: Env)
    requires |s.dataChecksum| == MAX_MD && s.keys == c.keys
    ensures
      var t := Handle(s, e, env).0;
      && t.keys == s.keys
      && t.dataChecksum ==
         (if Announces(e) && !s.dataStarted then Overlay(s.dataChecksum, e.line[|DATAHASH|..]) else s.dataChecksum)
      && (t.signature == s.signature || (t.signature.Some? && IsKeyFile(c, e, t.signature.value)))
  {
    hide Overlay;
    match e {
      case File(name, content) => hide HandlePart, ParseLine, HasPrefix;
      case Line(_) => hide HandlePart, ProcessFile;
      case Stream(part, data) => PartKeeps(s, part, data, env); hide HandlePart, ProcessFile, ParseLine, IsKeyFile;
    }
  }

  lemma PartKeeps(s: Context, part: Part, data: seq<Byte>, env: Env)
    ensures
      var t := HandlePart(s, part, data, env).0;
      t.keys == s.keys && t.signature == s.signature && t.dataChecksum == s.dataChecksum
  {
    hide CheckControl, CheckData;
    var d := Feed(s.(dataStarted := true), data);
    ChecksKeep(d, part, env);
  }

  lemma ChecksKeep(s: Context, part: Part, env: Env)
    ensures CheckControl(s, part, env).0.keys == s.keys && CheckControl(s, part, env).0.signature == s.signature
    ensures CheckData(s, env).0.keys == s.keys && CheckData(s, env).0.signature == s.signature
  {
    hide Trusted, ControlMatches, DataMatches, Reset, Identified;
    ResetKeeps(env);
  }

  lemma ResetKeeps(env: Env)
    ensures forall c: Context :: Reset(c).keys == c.keys && Reset(c).signature == c.signature
    ensures forall c: Context :: Identified(c, env).keys == c.keys && Identified(c, env).signature == c.signature
  {
  }

  lemma AnnouncedMore(es: seq<Event>, e: Event, started: bool, was: seq<Byte>)
    requires |was| == MAX_MD
    ensures
      var r := Announced(es, started, was);
      Announced(es + [e], started, was) ==
        if Announces(e) && !Scan(es, started).data then Overlay(r, e.line[|DATAHASH|..]) else r
  {
    hide Scan, Overlay;
    var more := es + [e];
    assert more[..|more| - 1] == es && more[|es|] == e;
  }

  /** With 64 digits on the last such line, that is the digest it announces. */
  lemma {:induction false} LastLineCounts(es: seq<Event>, started: bool, was: seq<Byte>, i: nat, to: seq<Byte>)
    requires |was| == MAX_MD && i < |es| && Announces(es[i]) && !Scan(es[..i], started).data && |to| == 32
    requires forall j | i < j < |es| && Announces(es[j]) :: Scan(es[..j], started).data
    requires
      var text := es[i].line[|DATAHASH|..];
      HexReadable(Some(text), 32) && PullHexdump(Some(text), to).0.Some?
    ensures Announced(es, started, was)[..32] == PullHexdump(Some(es[i].line[|DATAHASH|..]), to).1
    decreases es
  {
    hide Scan, PullHexdump;
    var before, e := es[..|es| - 1], es[|es| - 1];
    assert before + [e] == es;
    AnnouncedMore(before, e, started, was);
    if i == |before| {
      assert es[..i] == before;
      OverlayIsText(Announced(before, started, was), e.line[|DATAHASH|..], to);
    } else {
      assert es[..|before|] == before;
      assert forall j | 0 <= j < |before| :: before[j] == es[j] && before[..j] == es[..j];
      LastLineCounts(before, started, was, i, to);
    }
  }

  lemma OverlayIsText(was: seq<Byte>, text: string, to: seq<Byte>)
    requires |was| == MAX_MD && |to| == 32 && HexReadable(Some(text), 32) && PullHexdump(Some(text), to).0.Some?
    ensures Overlay(was, text)[..32] == PullHexdump(Some(text), to).1
  {
    HexFills(text, was[..32], to);
    hide HexBytes;
    assert Overlay(was, text) == PullHexdump(Some(text), was[..32]).1 + was[32..];
  }

  /** What was in a buffer that is filled is of no account. */
  lemma {:induction false} HexFills(s: string, a: seq<Byte>, b: seq<Byte>)
    requires |a| == |b| && |s| >= 2 * |a| && HexBytes(s, b).0
    ensures HexBytes(s, a) == HexBytes(s, b)
    decreases a
  {
    if a != [] { HexFills(s[2..], a[1..], b[1..]); }
  }

  // ----- Safety -----

  /** Safety.  If a run that ends with the stream meets no error in its parts, whatever the file
      callback answered, and says that the data have been verified, then so has the control block.
      With an announced digest, the signature or identity fits exactly the bytes from the last
      boundary before the control block to its own boundary, and the digest exactly all bytes from
      there to the end; without one, the signature or identity fits all bytes from that first
      boundary to the end.  The key is one of the key directory and the signature the contents of a
      signature file, the identity is the one asked for, and the digest is that of the metadata
      lines before the data. */
  lemma VerifiedIsCovered(c: Context, es: seq<Event>, data: seq<Byte>, env: Env)
    requires Fresh(c) && NoEnd(es) && !env.allowUntrusted
    requires var t := Run(c, es + [Stream(End, data)], env); t.Some? && t.value.dataVerified
    ensures
      var all, m := es + [Stream(End, data)], Scan(es, c.controlStarted);
      var s, t := Run(c, es, env).value, Run(c, all, env).value;
      && s.action == c.action && (c.action == VerifyIdentity ==> s.identity == c.identity) && Sourced(c, es, s)
      && t.controlVerified && m.control && m.begin <= |es| && t.hasDataChecksum == m.hashed
      && if m.hashed then
           && m.check.Some? && m.begin <= m.check.value <= |es|
           && ControlCovered(c, s, all, m.begin, m.check.value, env)
           && DataMatches(s.dataChecksum, Hash(MdAfter(c, all[..m.check.value], env), Bytes(all[m.check.value..])), env)
         else ControlCovered(c, s, all, m.begin, |all|, env)
  {
    var e := Stream(End, data);
    RunMore(c, es, e, env);
    RunTracks(c, es, env);
    RunSourced(c, es, env);
    var s, m := Run(c, es, env).value, Scan(es, c.controlStarted);
    EndChecks(s, data, env);
    hide Run, Scan, Sourced, MdAfter, Bytes, HandlePart, DataMatches, ControlMatches;
    Slices(es, e, m);
    BytesMore(es, e, m.begin);
    if m.check.Some? { BytesMore(es, e, m.check.value); }
    assert (es + [e])[m.begin..|es + [e]|] == (es + [e])[m.begin..];
  }

  // ----- Metadata after the control block has been started -----

  /** Metadata lines are read from a file of the control block, as apk_sign_ctx_verify_tar does. */
  predicate InOrder(es: seq<Event>, started: bool) {
    forall i | 0 <= i < |es| && es[i].Line? :: Scan(es[..i], started).control
  }

  lemma {:induction false} AnnouncedIsSha256(c: Context, es: seq<Event>, env: Env)
    requires Fresh(c) && NoEnd(es) && Run(c, es, env).Some? && InOrder(es, c.controlStarted)
    ensures Scan(es, c.controlStarted).hashed ==>
              Scan(es, c.controlStarted).control && Run(c, es, env).value.md == Sha256Md
  {
    hide Run, Scan, Handle, Fresh, InOrder, NoEnd;
    FreshHasRoom(c);
    if es == [] {
      ShaStart(es, c.controlStarted);
    } else {
      var before, e := es[..|es| - 1], es[|es| - 1];
      assert es == before + [e];
      RunMore(c, before, e, env);
      ScanMore(before, e, c.controlStarted);
      OrderBefore(before, e, c.controlStarted);
      AnnouncedIsSha256(c, before, env);
      RunTracks(c, before, env);
      RunTracks(c, es, env);
      KeepsSha256(Run(c, before, env).value, e, env);
    }
  }

  lemma ShaStart(es: seq<Event>, started: bool)
    requires es == []
    ensures !Scan(es, started).hashed
  {
  }

  lemma FreshHasRoom(c: Context)
    requires Fresh(c)
    ensures |c.dataChecksum| == MAX_MD
  {
  }

  lemma OrderBefore(es: seq<Event>, e: Event, started: bool)
    requires NoEnd(es + [e]) && InOrder(es + [e], started)
    ensures NoEnd(es) && InOrder(es, started) && !IsEnd(e) && (e.Line? ==> Scan(es, started).control)
  {
    hide Scan;
    var all := es + [e];
    assert all[|es|] == e && all[..|es|] == es;
    assert forall i | 0 <= i < |es| :: all[i] == es[i] && all[..i] == es[..i];
  }

  lemma KeepsSha256(s: Context, e: Event, env: Env)
    requires |s.dataChecksum| == MAX_MD && (s.dataStarted ==> s.controlStarted)
    requires s.controlStarted && s.hasDataChecksum ==> s.md == Sha256Md
    requires s.hasDataChecksum || e.Line? ==> s.controlStarted
    ensures Handle(s, e, env).0.hasDataChecksum ==>
              Handle(s, e, env).0.controlStarted && Handle(s, e, env).0.md == Sha256Md
  {
  }

  /** In such a run the data are checked with SHA-256. */
  lemma DataIsSha256(c: Context, es: seq<Event>, env: Env)
    requires Fresh(c) && NoEnd(es) && Run(c, es, env).Some? && InOrder(es, c.controlStarted)
    ensures
      var m := Scan(es, c.controlStarted);
      m.check.Some? ==> m.check.value <= |es| && MdAfter(c, es[..m.check.value], env) == Sha256Md
  {
    RunTracks(c, es, env);
    AnnouncedIsSha256(c, es, env);
  }
}
