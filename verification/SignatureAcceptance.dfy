/** Packages that are in order are accepted: the other half of what the checks are for. */
module SignatureAcceptance {
  import opened Wrappers
  import opened Codec
  import opened Signature
  import opened SignatureSafety

  lemma Next(c: Context, es: seq<Event>, e: Event, env: Env, s: Context, t: Context)
    requires |c.dataChecksum| == MAX_MD && Run(c, es, env) == Some(s) && |s.dataChecksum| == MAX_MD
    requires Handle(s, e, env) == (t, None)
    ensures Run(c, es + [e], env) == Some(t)
  {
    hide Handle;
    RunMore(c, es, e, env);
  }

  lemma AtStart(c: Context, env: Env)
    requires |c.dataChecksum| == MAX_MD
    ensures Run(c, [], env) == Some(c)
  {
  }

  // ----- Single events -----

  /** The names that package tools give to signature files. */
  predicate SignatureName(name: string, dsa: bool, key: string) {
    '/' !in key && name == (if dsa then ".SIGN.DSA." else ".SIGN.RSA.") + key
  }

  /** The first signature file with a trusted key sets key and digest: SHA-1 for an RSA key, DSS1 for a DSA key. */
  lemma SignatureFileRead(s: Context, name: string, dsa: bool, key: string, sig: seq<Byte>, env: Env)
    requires |s.dataChecksum| == MAX_MD && SignatureName(name, dsa, key) && !s.dataStarted && !s.controlStarted
    requires (s.action == Verify || s.action == VerifyAndGenerate) && s.signature.None?
    ensures
      Handle(s, File(name, sig), env) ==
        if s.keys.Some? && key in s.keys.value then
          (s.(signatures := s.signatures + 1, md := if dsa then DssMd else Sha1Md,
              signature := Some(KeyAndData(s.keys.value[key], sig))), None)
        else (s.(signatures := s.signatures + 1), None)
  {
    assert |name| == 10 + |key| && name[10..] == key && name[0] == '.' && name[..6] == ".SIGN.";
    assert name[6..][..4] == if dsa then "DSA." else "RSA.";
    assert '/' !in name;
  }

  /** Another file that begins with a dot begins the control block; one that does not, the data. */
  lemma OtherFileRead(s: Context, name: string, content: seq<Byte>, env: Env)
    requires |s.dataChecksum| == MAX_MD && name != "" && !(".SIGN." <= name) && !s.dataStarted
    ensures
      Handle(s, File(name, content), env) ==
        if name[0] != '.' || '/' in name then (s.(controlStarted := true, dataStarted := true), None)
        else (s.(controlStarted := true), None)
  {
  }

  /** A digest line with 64 good digits. */
  lemma DigestLineRead(s: Context, h: seq<Byte>, env: Env)
    requires |s.dataChecksum| == MAX_MD && !s.dataStarted && |h| == 32
    ensures
      Handle(s, Line("datahash = " + HexText(h)), env) ==
      (s.(hasDataChecksum := true, md := Sha256Md, dataChecksum := h + s.dataChecksum[32..]), None)
  {
    var line := "datahash = " + HexText(h);
    assert line[..11] == "datahash = " && line[11..] == HexText(h);
    HexLength(h);
    HexRoundTrip(h, "", s.dataChecksum[..32]);
    assert HexText(h) + "" == HexText(h);
    hide PullHexdump, HexText;
  }

  lemma {:induction false} HexLength(h: seq<Byte>)
    ensures |HexText(h)| == 2 * |h|
  {
    if h != [] { HexLength(h[1..]); }
  }

  lemma PartRead(s: Context, part: Part, data: seq<Byte>, env: Env)
    requires |s.dataChecksum| == MAX_MD
    ensures part == Data || (part == Boundary && s.dataStarted) ==>
              Handle(s, Stream(part, data), env) == (s.(hash := Hash(s.hash.md, s.hash.bytes + data)), None)
    ensures part == Boundary && !s.dataStarted && !s.controlStarted ==>
              Handle(s, Stream(part, data), env) == (s.(hash := Hash(s.md, [])), None)
  {
    hide CheckControl, CheckData;
  }

  /** The end of the control block, which announced a digest. */
  lemma ControlRead(s: Context, data: seq<Byte>, env: Env)
    requires |s.dataChecksum| == MAX_MD && s.controlStarted && !s.dataStarted && s.hasDataChecksum
    requires s.action == Verify || s.action == VerifyIdentity
    requires ControlMatches(s, Hash(s.hash.md, s.hash.bytes + data), env)
    ensures Handle(s, Stream(Boundary, data), env) ==
            (s.(dataStarted := true, controlVerified := true, hash := Hash(s.md, [])), None)
  {
    hide SamePrefix;
  }

  /** The end of everything, if the control block announced a digest. */
  lemma DataRead(s: Context, data: seq<Byte>, env: Env)
    requires |s.dataChecksum| == MAX_MD && s.controlStarted && s.dataStarted && s.hasDataChecksum && s.controlVerified
    requires DataMatches(s.dataChecksum, Hash(s.hash.md, s.hash.bytes + data), env)
    ensures Handle(s, Stream(End, data), env) ==
            (s.(dataVerified := true, hash := Hash(s.hash.md, s.hash.bytes + data)), None)
  {
    hide CheckControl, DataMatches;
  }

  /** And if it did not: everything is checked as the control block. */
  lemma AllRead(s: Context, data: seq<Byte>, env: Env)
    requires |s.dataChecksum| == MAX_MD && s.controlStarted && s.dataStarted && !s.hasDataChecksum
    requires s.action == Verify || s.action == VerifyIdentity
    requires ControlMatches(s, Hash(s.hash.md, s.hash.bytes + data), env)
    ensures Handle(s, Stream(End, data), env) == (s.(controlVerified := true, dataVerified := true, hash := Hash(s.md, [])), None)
  {
    hide SamePrefix, CheckData;
  }

  lemma FirstDataRead(s: Context, data: seq<Byte>, env: Env)
    requires |s.dataChecksum| == MAX_MD && s.controlStarted && !s.dataStarted && !s.hasDataChecksum
    ensures Handle(s, Stream(Boundary, data), env) ==
            (s.(dataStarted := true, hash := Hash(s.hash.md, s.hash.bytes + data)), None)
  {
    hide CheckData, CheckControl;
  }

  lemma DataFileRead(s: Context, name: string, content: seq<Byte>, env: Env)
    requires |s.dataChecksum| == MAX_MD && s.dataStarted
    ensures Handle(s, File(name, content), env) == (s, None)
  {
  }

  // ----- Whole packages -----

  /** The control block of a package: its information, and what it announces of the data. */
  function Control(info: seq<Byte>, h: Option<seq<Byte>>): seq<Event> {
    [File(".PKGINFO", info)] + if h.Some? then [Line("datahash = " + HexText(h.value))] else []
  }

  /** After the control block's files have been read. */
  lemma ControlFiles(c: Context, es: seq<Event>, info: seq<Byte>, h: Option<seq<Byte>>, env: Env, s: Context) returns (t: Context)
    requires |c.dataChecksum| == MAX_MD && Run(c, es, env) == Some(s) && |s.dataChecksum| == MAX_MD
    requires !s.dataStarted && (h.Some? ==> |h.value| == 32)
    ensures Run(c, es + Control(info, h), env) == Some(t) && |t.dataChecksum| == MAX_MD
    ensures t == (if h.None? then s.(controlStarted := true)
                  else s.(controlStarted := true, hasDataChecksum := true, md := Sha256Md,
                          dataChecksum := h.value + s.dataChecksum[32..]))
  {
    hide Run, Handle, HexText;
    var name := ".PKGINFO";
    assert !(".SIGN." <= name) by { assert name[1] == 'P'; }
    assert '/' !in name;
    OtherFileRead(s, name, info, env);
    t := s.(controlStarted := true);
    Next(c, es, File(name, info), env, s, t);
    if h.Some? {
      DigestLineRead(t, h.value, env);
      var line := Line("datahash = " + HexText(h.value));
      var u := t.(hasDataChecksum := true, md := Sha256Md, dataChecksum := h.value + t.dataChecksum[32..]);
      Next(c, es + [File(name, info)], line, env, t, u);
      assert es + Control(info, h) == es + [File(name, info)] + [line];
      t := u;
    } else {
      assert es + Control(info, h) == es + [File(name, info)];
    }
  }

  /** The data behind it, up to the end: a file, and the stream in two parts. */
  function DataEvents(name: string, content: seq<Byte>, first: seq<Byte>, last: seq<Byte>): seq<Event> {
    [File(name, content), Stream(Data, first), Stream(End, last)]
  }

  /** A control block that announces a digest and data that fit it, from any state that would accept
      the control block. */
  lemma DigestedPackage(
    c: Context, es: seq<Event>, env: Env, s: Context, info: seq<Byte>, h: seq<Byte>, control: seq<Byte>, name: string,
    content: seq<Byte>, first: seq<Byte>, last: seq<Byte>)
    requires |c.dataChecksum| == MAX_MD && Run(c, es, env) == Some(s) && |s.dataChecksum| == MAX_MD
    requires !s.dataStarted && |h| == 32 && (s.action == Verify || s.action == VerifyIdentity)
    requires ControlMatches(s, Hash(s.hash.md, s.hash.bytes + control), env)
    requires |env.digest(Sha256Md, first + last)| >= 32 && env.digest(Sha256Md, first + last)[..32] == h
    ensures
      var all := es + Control(info, Some(h)) + [Stream(Boundary, control)] + DataEvents(name, content, first, last);
      var r := Run(c, all, env);
      r.Some? && r.value.controlVerified && r.value.dataVerified
  {
    hide Run, Handle, HexText, ControlMatches, Control, SamePrefix;
    var s1 := ControlFiles(c, es, info, Some(h), env, s);
    var es1 := es + Control(info, Some(h));
    SameCheck(s, s1, Hash(s.hash.md, s.hash.bytes + control), env);
    ControlRead(s1, control, env);
    var s2 := s1.(dataStarted := true, controlVerified := true, hash := Hash(Sha256Md, []));
    Next(c, es1, Stream(Boundary, control), env, s1, s2);
    var es2 := es1 + [Stream(Boundary, control)];
    DataFileRead(s2, name, content, env);
    Next(c, es2, File(name, content), env, s2, s2);
    var es3 := es2 + [File(name, content)];
    PartRead(s2, Data, first, env);
    var s4 := s2.(hash := Hash(Sha256Md, [] + first));
    Next(c, es3, Stream(Data, first), env, s2, s4);
    var es4 := es3 + [Stream(Data, first)];
    assert [] + first == first;
    DigestFits(h, s.dataChecksum, env, first + last);
    DataRead(s4, last, env);
    var s5 := s4.(dataVerified := true, hash := Hash(Sha256Md, first + last));
    Next(c, es4, Stream(End, last), env, s4, s5);
    assert es1 + [Stream(Boundary, control)] + DataEvents(name, content, first, last) == es4 + [Stream(End, last)];
  }

  lemma SameCheck(s: Context, t: Context, h: Hash, env: Env)
    requires s.action == t.action && s.identity == t.identity && s.signature == t.signature
    ensures ControlMatches(s, h, env) == ControlMatches(t, h, env)
  {
  }

  lemma DigestFits(h: seq<Byte>, was: seq<Byte>, env: Env, bytes: seq<Byte>)
    requires |h| == 32 && |was| == MAX_MD && |env.digest(Sha256Md, bytes)| >= 32 && env.digest(Sha256Md, bytes)[..32] == h
    ensures DataMatches(h + was[32..], Hash(Sha256Md, bytes), env)
  {
    assert (h + was[32..])[..32] == h;
  }

  /** A package whose control block is signed with a trusted key, and whose data have the digest that
      it announces, is accepted as verified. */
  lemma SignedPackageIsAccepted(
    keys: map<string, Key>, identity: Checksum, dsa: bool, key: string, sig: seq<Byte>, before: seq<Byte>,
    info: seq<Byte>, h: seq<Byte>, control: seq<Byte>, name: string, content: seq<Byte>, first: seq<Byte>,
    last: seq<Byte>, env: Env)
    requires identity.Valid() && key in keys && '/' !in key && |h| == 32
    requires env.verify(if dsa then DssMd else Sha1Md, control, sig, keys[key])
    requires |env.digest(Sha256Md, first + last)| >= 32 && env.digest(Sha256Md, first + last)[..32] == h
    ensures
      var sign := (if dsa then ".SIGN.DSA." else ".SIGN.RSA.") + key;
      var all := [File(sign, sig), Stream(Boundary, before)] + Control(info, Some(h)) + [Stream(Boundary, control)]
                 + DataEvents(name, content, first, last);
      var c := Init(Verify, identity, Some(keys));
      |c.dataChecksum| == MAX_MD && var r := Run(c, all, env);
      r.Some? && r.value.controlVerified && r.value.dataVerified
  {
    var c := Init(Verify, identity, Some(keys));
    var s := SignedStart(c, dsa, key, sig, before, env);
    hide Run, Init, Control, DataEvents;
    var sign := (if dsa then ".SIGN.DSA." else ".SIGN.RSA.") + key;
    assert [] + control == control;
    DigestedPackage(c, [File(sign, sig), Stream(Boundary, before)], env, s, info, h, control, name, content, first, last);
  }

  /** After the signature block: the key is known, and the digest begins anew. */
  lemma SignedStart(c: Context, dsa: bool, key: string, sig: seq<Byte>, before: seq<Byte>, env: Env) returns (s: Context)
    requires |c.dataChecksum| == MAX_MD && !c.dataStarted && !c.controlStarted && c.action == Verify && c.signature.None?
    requires !c.hasDataChecksum && c.keys.Some? && key in c.keys.value && '/' !in key
    ensures
      var sign := (if dsa then ".SIGN.DSA." else ".SIGN.RSA.") + key;
      Run(c, [File(sign, sig), Stream(Boundary, before)], env) == Some(s)
    ensures |s.dataChecksum| == MAX_MD && !s.dataStarted && !s.controlStarted && s.action == Verify && !s.hasDataChecksum
    ensures s.signature == Some(KeyAndData(c.keys.value[key], sig)) && s.hash == Hash(if dsa then DssMd else Sha1Md, [])
  {
    hide Run, Handle;
    var sign := (if dsa then ".SIGN.DSA." else ".SIGN.RSA.") + key;
    AtStart(c, env);
    SignatureFileRead(c, sign, dsa, key, sig, env);
    var md := if dsa then DssMd else Sha1Md;
    var s1 := c.(signatures := c.signatures + 1, md := md, signature := Some(KeyAndData(c.keys.value[key], sig)));
    Next(c, [], File(sign, sig), env, c, s1);
    PartRead(s1, Boundary, before, env);
    s := s1.(hash := Hash(md, []));
    Next(c, [] + [File(sign, sig)], Stream(Boundary, before), env, s1, s);
    assert [] + [File(sign, sig)] + [Stream(Boundary, before)] == [File(sign, sig), Stream(Boundary, before)];
  }

  /** So is one without a digest of its data that is signed as a whole. */
  lemma WhollySignedIsAccepted(
    keys: map<string, Key>, identity: Checksum, dsa: bool, key: string, sig: seq<Byte>, before: seq<Byte>,
    info: seq<Byte>, control: seq<Byte>, name: string, content: seq<Byte>, first: seq<Byte>, last: seq<Byte>, env: Env)
    requires identity.Valid() && key in keys && '/' !in key
    requires env.verify(if dsa then DssMd else Sha1Md, control + first + last, sig, keys[key])
    ensures
      var sign := (if dsa then ".SIGN.DSA." else ".SIGN.RSA.") + key;
      var all := [File(sign, sig), Stream(Boundary, before)] + Control(info, None) + [Stream(Boundary, control)]
                 + DataEvents(name, content, first, last);
      var c := Init(Verify, identity, Some(keys));
      |c.dataChecksum| == MAX_MD && var r := Run(c, all, env);
      r.Some? && r.value.controlVerified && r.value.dataVerified
  {
    var c := Init(Verify, identity, Some(keys));
    var s := SignedStart(c, dsa, key, sig, before, env);
    hide Run, Init, Handle, Control;
    var sign := (if dsa then ".SIGN.DSA." else ".SIGN.RSA.") + key;
    var es := [File(sign, sig), Stream(Boundary, before)];
    var s1 := ControlFiles(c, es, info, None, env, s);
    var es1 := es + Control(info, None);
    FirstDataRead(s1, control, env);
    var s2 := s1.(dataStarted := true, hash := Hash(s1.hash.md, s1.hash.bytes + control));
    Next(c, es1, Stream(Boundary, control), env, s1, s2);
    var es2 := es1 + [Stream(Boundary, control)];
    DataFileRead(s2, name, content, env);
    Next(c, es2, File(name, content), env, s2, s2);
    var es3 := es2 + [File(name, content)];
    PartRead(s2, Data, first, env);
    var s4 := s2.(hash := Hash(s2.hash.md, s2.hash.bytes + first));
    Next(c, es3, Stream(Data, first), env, s2, s4);
    var es4 := es3 + [Stream(Data, first)];
    assert [] + control == control;
    AllRead(s4, last, env);
    var s5 := s4.(controlVerified := true, dataVerified := true, hash := Hash(s4.md, []));
    Next(c, es4, Stream(End, last), env, s4, s5);
    assert es1 + [Stream(Boundary, control)] + DataEvents(name, content, first, last) == es4 + [Stream(End, last)];
  }

  /** And one whose control block has the identity that is asked for, signed or not. */
  lemma KnownPackageIsAccepted(
    keys: Option<map<string, Key>>, identity: Checksum, before: seq<Byte>, info: seq<Byte>, h: seq<Byte>,
    control: seq<Byte>, name: string, content: seq<Byte>, first: seq<Byte>, last: seq<Byte>, env: Env)
    requires identity.Valid() && identity.kind == Sha1 && |h| == 32
    requires |env.digest(Sha1Md, control)| >= 20 && env.digest(Sha1Md, control)[..20] == identity.data[..20]
    requires |env.digest(Sha256Md, first + last)| >= 32 && env.digest(Sha256Md, first + last)[..32] == h
    ensures
      var all := [Stream(Boundary, before)] + Control(info, Some(h)) + [Stream(Boundary, control)]
                 + DataEvents(name, content, first, last);
      var c := Init(VerifyIdentity, identity, keys);
      |c.dataChecksum| == MAX_MD && var r := Run(c, all, env);
      r.Some? && r.value.controlVerified && r.value.dataVerified
  {
    var c := Init(VerifyIdentity, identity, keys);
    hide Run, Handle, Control, DataEvents;
    AtStart(c, env);
    PartRead(c, Boundary, before, env);
    var s := c.(hash := Hash(Sha1Md, []));
    Next(c, [], Stream(Boundary, before), env, c, s);
    assert [] + [Stream(Boundary, before)] == [Stream(Boundary, before)] && [] + control == control;
    DigestedPackage(c, [Stream(Boundary, before)], env, s, info, h, control, name, content, first, last);
  }

  // ----- Finding out the identity -----

  /** Without verifying, the identity that is found is the SHA-1 digest of the control block, and the
      run ends there. */
  lemma IdentityIsFound(
    keys: Option<map<string, Key>>, identity: Checksum, before: seq<Byte>, info: seq<Byte>, h: seq<Byte>,
    control: seq<Byte>, env: Env)
    requires identity.Valid() && |h| == 32
    ensures
      var es := [Stream(Boundary, before)] + Control(info, Some(h));
      var c := Init(Generate, identity, keys);
      |c.dataChecksum| == MAX_MD && var r := Run(c, es, env);
      && r.Some? && |r.value.dataChecksum| == MAX_MD
      && Handle(r.value, Stream(Boundary, control), env).1 == Some(Canceled)
      && Handle(r.value, Stream(Boundary, control), env).0.identity == Identity(20, env.digest(Sha1Md, control))
  {
    var c := Init(Generate, identity, keys);
    AtStart(c, env);
    PartRead(c, Boundary, before, env);
    var s := c.(hash := Hash(Sha1Md, []));
    Next(c, [], Stream(Boundary, before), env, c, s);
    assert [] + [Stream(Boundary, before)] == [Stream(Boundary, before)] && [] + control == control;
    var t := ControlFiles(c, [Stream(Boundary, before)], info, Some(h), env, s);
    hide Run, Control, Init;
    IdentityRead(t, control, env);
  }

  /** Verifying a signed control block can find out its identity as well: its digest. */
  lemma SignedIdentityIsFound(s: Context, data: seq<Byte>, env: Env)
    requires |s.dataChecksum| == MAX_MD && s.controlStarted && !s.dataStarted && s.hasDataChecksum
    requires s.action == VerifyAndGenerate && s.signature.Some?
    requires env.verify(s.hash.md, s.hash.bytes + data, s.signature.value.data, s.signature.value.key)
    ensures Handle(s, Stream(Boundary, data), env) ==
            (s.(dataStarted := true, controlVerified := true, hash := Hash(s.md, []),
                identity := Identity(s.hash.md.Size(), env.digest(s.hash.md, s.hash.bytes + data))), None)
  {
  }

  // ----- Packages of the old format -----

  /** An MD5 identity is that of the whole stream. */
  lemma OldPackageIsAccepted(
    keys: Option<map<string, Key>>, identity: Checksum, first: seq<Byte>, last: seq<Byte>, env: Env)
    requires identity.Valid() && identity.kind == Md5
    ensures
      var c := Init(VerifyIdentity, identity, keys);
      |c.dataChecksum| == MAX_MD && var r := Run(c, [Stream(Data, first), Stream(End, last)], env);
      if SamePrefix(env.digest(Md5Md, first + last), identity.data, 16) then
        r.Some? && r.value.controlVerified && r.value.dataVerified
      else r == None
  {
    var c := Init(VerifyIdentity, identity, keys);
    var s := OldData(c, first, last, env);
    OldEnd(s, last, env);
    hide Run, Handle, SamePrefix;
    assert [] + first == first;
    RunMore(c, [Stream(Data, first)], Stream(End, last), env);
    assert [Stream(Data, first)] + [Stream(End, last)] == [Stream(Data, first), Stream(End, last)];
  }

  lemma OldData(c: Context, first: seq<Byte>, last: seq<Byte>, env: Env) returns (s: Context)
    requires |c.dataChecksum| == MAX_MD
    ensures s == c.(hash := Hash(c.hash.md, c.hash.bytes + first)) && Run(c, [Stream(Data, first)], env) == Some(s)
  {
    hide Run, Handle;
    AtStart(c, env);
    PartRead(c, Data, first, env);
    s := c.(hash := Hash(c.hash.md, c.hash.bytes + first));
    Next(c, [], Stream(Data, first), env, c, s);
    assert [] + [Stream(Data, first)] == [Stream(Data, first)];
  }

  lemma OldEnd(s: Context, data: seq<Byte>, env: Env)
    requires |s.dataChecksum| == MAX_MD && s.controlStarted && s.dataStarted && !s.hasDataChecksum && s.action == VerifyIdentity
    ensures
      var (t, error) := Handle(s, Stream(End, data), env);
      if SamePrefix(env.digest(s.hash.md, s.hash.bytes + data), s.identity.data, s.identity.size) then
        error.None? && t.controlVerified && t.dataVerified
      else error.Some?
  {
    hide SamePrefix, CheckData;
  }

  /** Finding out the identity of such a package, and reading one without any check. */
  lemma OldPackageIsRead(
    keys: Option<map<string, Key>>, identity: Checksum, first: seq<Byte>, last: seq<Byte>, env: Env)
    requires identity.Valid()
    ensures
      var c := Init(GenerateV1, identity, keys);
      |c.dataChecksum| == MAX_MD && var r := Run(c, [Stream(Data, first), Stream(End, last)], env);
      r.Some? && r.value.identity == Identity(16, env.digest(Md5Md, first + last))
    ensures
      var c := Init(NoAction, identity, keys);
      |c.dataChecksum| == MAX_MD && var r := Run(c, [Stream(Data, first), Stream(End, last)], env);
      r.Some? && !r.value.controlVerified && !r.value.dataVerified
  {
    var c, e := Init(GenerateV1, identity, keys), Init(NoAction, identity, keys);
    var s := OldData(c, first, last, env);
    var t := OldData(e, first, last, env);
    GenerateEnd(s, last, env);
    GenerateEnd(t, last, env);
    hide Run, Handle;
    assert [] + first == first;
    RunMore(c, [Stream(Data, first)], Stream(End, last), env);
    RunMore(e, [Stream(Data, first)], Stream(End, last), env);
    assert [Stream(Data, first)] + [Stream(End, last)] == [Stream(Data, first), Stream(End, last)];
  }

  lemma GenerateEnd(s: Context, data: seq<Byte>, env: Env)
    requires |s.dataChecksum| == MAX_MD && s.controlStarted && s.dataStarted && !s.hasDataChecksum
    requires s.action == GenerateV1 || s.action == NoAction
    ensures
      var (t, error) := Handle(s, Stream(End, data), env);
      && error.None? && t.controlVerified == s.controlVerified && t.dataVerified == s.dataVerified
      && (s.action == GenerateV1 ==> t.identity == Identity(s.hash.md.Size(), env.digest(s.hash.md, s.hash.bytes + data)))
  {
    hide CheckData;
  }

  lemma IdentityRead(s: Context, data: seq<Byte>, env: Env)
    requires |s.dataChecksum| == MAX_MD && s.controlStarted && !s.dataStarted && s.hasDataChecksum && s.action == Generate
    ensures Handle(s, Stream(Boundary, data), env).1 == Some(Canceled)
    ensures Handle(s, Stream(Boundary, data), env).0.identity ==
            Identity(s.hash.md.Size(), env.digest(s.hash.md, s.hash.bytes + data))
  {
  }
}
