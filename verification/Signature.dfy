/** The signature context of apk-tools/src/package.c: what has been verified when a package has been
    read to its end, whatever order its files, its metadata lines and its compressed parts came in. */
module Signature {
  import opened Wrappers
  import opened Codec

  datatype Md = NullMd | Md5Md | Sha1Md | DssMd | Sha256Md {
    function Size(): nat {
      match this case NullMd => 0 case Md5Md => 16 case Sha1Md => 20 case DssMd => 20 case Sha256Md => 32
    }
  }

  type Key = nat

  /** The digest and signature functions, and APK_ALLOW_UNTRUSTED. */
  datatype Env = Env(
    digest: (Md, seq<Byte>) -> seq<Byte>, verify: (Md, seq<Byte>, seq<Byte>, Key) -> bool, allowUntrusted: bool)

  datatype Action = NoAction | Verify | VerifyIdentity | GenerateV1 | Generate | VerifyAndGenerate

  datatype Error = NoKey | KeyRejected | Canceled

  datatype Identity = Identity(size: nat, data: seq<Byte>)
  datatype KeyAndData = KeyAndData(key: Key, data: seq<Byte>)
  datatype Hash = Hash(md: Md, bytes: seq<Byte>)

  /** `keys` is None when there is no key directory; `hash` is what the digest has been fed. */
  datatype Context = Context(
    keys: Option<map<string, Key>>, action: Action, md: Md, signatures: nat, controlStarted: bool, dataStarted: bool,
    hasDataChecksum: bool, controlVerified: bool, dataVerified: bool, dataChecksum: seq<Byte>, identity: Identity,
    hash: Hash, signature: Option<KeyAndData>)

  const MAX_MD := 64

  function Init(action: Action, identity: Checksum, keys: Option<map<string, Key>>): Context
    requires identity.Valid()
  {
    var legacy := action == VerifyIdentity && identity.kind == Md5;
    var md := match action
      case VerifyIdentity => if legacy then Md5Md else Sha1Md
      case GenerateV1 => Md5Md
      case Generate => Sha1Md
      case VerifyAndGenerate => Sha1Md
      case _ => NullMd;
    var started := legacy || action == GenerateV1 || action == NoAction;
    Context(keys, action, md, 0, started, started, false, false, false, Zeros(MAX_MD),
            if action == VerifyIdentity then Identity(identity.kind.Size(), identity.data) else Identity(0, Zeros(20)),
            Hash(md, []), None)
  }

  // ----- Files -----

  const SIGN := ".SIGN."

  predicate HasPrefix(s: string, p: string) { |s| >= |p| && s[..|p|] == p }

  predicate IsData(name: string) { name == "" || name[0] != '.' || '/' in name }

  predicate IsSignature(name: string) { !IsData(name) && HasPrefix(name, SIGN) }

  predicate Trusted(c: Context, env: Env) {
    (c.action == Verify || c.action == VerifyAndGenerate) && c.signature.None? ==> env.allowUntrusted
  }

  /** What a signature file adds: a key from the key directory, once. */
  function TakeKey(c: Context, name: string, content: seq<Byte>): Context
    requires IsSignature(name)
  {
    var more := c.(signatures := c.signatures + 1);
    if (c.action != Verify && c.action != VerifyAndGenerate) || c.signature.Some? || c.keys.None? then more
    else
      var kind, rest := name[6..], if |name| >= 10 then name[10..] else "";
      if !(HasPrefix(kind, "RSA.") || HasPrefix(kind, "DSA.")) || rest !in c.keys.value then more
      else more.(md := if kind[0] == 'R' then Sha1Md else DssMd, signature := Some(KeyAndData(c.keys.value[rest], content)))
  }

  function ProcessFile(c: Context, name: string, content: seq<Byte>, env: Env): (Context, Option<Error>) {
    if c.dataStarted then (c, None)
    else if IsData(name) then
      (c.(dataStarted := true, controlStarted := true), if Trusted(c, env) then None else Some(NoKey))
    else if c.controlStarted then (c, None)
    else if !HasPrefix(name, SIGN) then (c.(controlStarted := true), None)
    else (TakeKey(c, name, content), None)
  }

  // ----- Metadata lines -----

  const DATAHASH := "datahash = "

  /** A hex dump over the first bytes of a buffer. */
  function Overlay(to: seq<Byte>, text: string): (r: seq<Byte>)
    requires |to| == MAX_MD
    ensures |r| == MAX_MD
  {
    if HexReadable(Some(text), 32) then PullHexdump(Some(text), to[..32]).1 + to[32..] else to
  }

  function ParseLine(c: Context, line: string): Context
    requires |c.dataChecksum| == MAX_MD
  {
    if c.dataStarted || !HasPrefix(line, DATAHASH) then c
    else c.(hasDataChecksum := true, md := Sha256Md, dataChecksum := Overlay(c.dataChecksum, line[|DATAHASH|..]))
  }

  // ----- Parts of the compressed stream -----

  datatype Part = Data | Boundary | End

  predicate SamePrefix(a: seq<Byte>, b: seq<Byte>, n: nat) { |a| >= n && |b| >= n && a[..n] == b[..n] }

  function Feed(c: Context, data: seq<Byte>): Context { c.(hash := c.hash.(bytes := c.hash.bytes + data)) }

  function Reset(c: Context): Context { c.(hash := Hash(c.md, [])) }

  predicate DataMatches(checksum: seq<Byte>, h: Hash, env: Env) {
    h.md.Size() != 0 && SamePrefix(env.digest(h.md, h.bytes), checksum, h.md.Size())
  }

  /** The signature, or the identity, fits what has been hashed. */
  predicate ControlMatches(c: Context, h: Hash, env: Env) {
    match c.action
    case VerifyIdentity => SamePrefix(env.digest(h.md, h.bytes), c.identity.data, c.identity.size)
    case Verify => c.signature.Some? && env.verify(h.md, h.bytes, c.signature.value.data, c.signature.value.key)
    case VerifyAndGenerate =>
      c.signature.Some? && env.verify(h.md, h.bytes, c.signature.value.data, c.signature.value.key)
    case _ => false
  }

  function Identified(c: Context, env: Env): Context {
    c.(identity := Identity(c.hash.md.Size(), env.digest(c.hash.md, c.hash.bytes)))
  }

  /** The check of the control block, or of everything: the digest has got all of it. */
  function CheckControl(c: Context, part: Part, env: Env): (r: (Context, Option<Error>))
    ensures r.0.md == c.md && r.0.hasDataChecksum == c.hasDataChecksum && r.0.controlStarted == c.controlStarted
    ensures r.0.dataChecksum == c.dataChecksum
  {
    if !Trusted(c, env) then (c, Some(NoKey))
    else match c.action
      case NoAction => (Reset(c), None)
      case Generate =>
        if c.hasDataChecksum then (Identified(c, env), Some(Canceled)) else (Reset(Identified(c, env)), None)
      case GenerateV1 => (Reset(Identified(c, env)), None)
      case _ =>
        if !ControlMatches(c, c.hash, env) then (c, Some(KeyRejected))
        else
          var d := c.(controlVerified := true,
                      dataVerified := c.dataVerified || (!c.hasDataChecksum && part == End));
          (Reset(if c.action == VerifyAndGenerate then Identified(d, env) else d), None)
  }

  function CheckData(c: Context, env: Env): (r: (Context, Option<Error>))
    ensures r.0.md == c.md && r.0.hasDataChecksum == c.hasDataChecksum && r.0.controlStarted == c.controlStarted
    ensures r.0.dataChecksum == c.dataChecksum
  {
    if !DataMatches(c.dataChecksum, c.hash, env) then (c, Some(KeyRejected))
    else (c.(dataVerified := true), if c.controlVerified || env.allowUntrusted then None else Some(NoKey))
  }

  function HandlePart(c: Context, part: Part, data: seq<Byte>, env: Env): (r: (Context, Option<Error>))
    ensures r.0.md == c.md && r.0.hasDataChecksum == c.hasDataChecksum && r.0.controlStarted == c.controlStarted
    ensures r.0.dataChecksum == c.dataChecksum
  {
    if part == Data || (part == Boundary && c.dataStarted) then (Feed(c, data), None)
    else if !c.controlStarted then if part == End then (c, Some(KeyRejected)) else (Reset(c), None)
    else
      var endOfControl := !c.dataStarted;
      var d := Feed(c.(dataStarted := true), data);
      if !c.hasDataChecksum && endOfControl && part != End then (d, None)
      else if c.hasDataChecksum && !endOfControl then CheckData(d, env)
      else CheckControl(d, part, env)
  }

  // ----- Runs -----

  datatype Event =
    | File(name: string, content: seq<Byte>)
    | Line(line: string)
    | Stream(part: Part, data: seq<Byte>)

  /** The callers go on after an error of the file callback: only stream parts can end a run. */
  function Handle(c: Context, e: Event, env: Env): (r: (Context, Option<Error>))
    requires |c.dataChecksum| == MAX_MD
    ensures |r.0.dataChecksum| == MAX_MD
  {
    match e
    case File(name, content) => (ProcessFile(c, name, content, env).0, None)
    case Line(line) => (ParseLine(c, line), None)
    case Stream(part, data) => HandlePart(c, part, data, env)
  }

  /** None: a part of the stream was answered with an error. */
  function Run(c: Context, es: seq<Event>, env: Env): (r: Option<Context>)
    requires |c.dataChecksum| == MAX_MD
    ensures r.Some? ==> |r.value.dataChecksum| == MAX_MD
  {
    if es == [] then Some(c)
    else match Run(c, es[..|es| - 1], env)
      case None => None
      case Some(d) =>
        var (t, error) := Handle(d, es[|es| - 1], env);
        if error.None? then Some(t) else None
  }

  /** The bytes of the stream that the events carry. */
  function Bytes(es: seq<Event>): seq<Byte> {
    if es == [] then []
    else Bytes(es[..|es| - 1]) + if es[|es| - 1].Stream? then es[|es| - 1].data else []
  }

  predicate IsEnd(e: Event) { e.Stream? && e.part == End }
}
