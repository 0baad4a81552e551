/** The signature context as the program keeps it, updated in place by its three callbacks. */
module SignatureState {
  import opened Wrappers
  import opened Codec
  import opened Signature

  class SignContext {
    const keys: Option<map<string, Key>>
    const action: Action
    var md: Md
    var signatures: nat
    var controlStarted: bool
    var dataStarted: bool
    var hasDataChecksum: bool
    var controlVerified: bool
    var dataVerified: bool
    var dataChecksum: seq<Byte>
    var identity: Identity
    var hash: Hash
    var signature: Option<KeyAndData>

    ghost function Now(): Context
      reads this
    {
      Context(keys, action, md, signatures, controlStarted, dataStarted, hasDataChecksum, controlVerified,
              dataVerified, dataChecksum, identity, hash, signature)
    }

    /** apk_sign_ctx_init. */
    constructor (action: Action, id: Checksum, keys: Option<map<string, Key>>)
      requires id.Valid()
      ensures Now() == Init(action, id, keys)
    {
      this.keys, this.action := keys, action;
      controlStarted, dataStarted, md := false, false, NullMd;
      identity := Identity(0, Zeros(20));
      signatures, signature, dataChecksum := 0, None, Zeros(MAX_MD);
      hasDataChecksum, controlVerified, dataVerified := false, false, false;
      match action {
        case Verify =>
        case VerifyIdentity =>
          if id.kind == Md5 {
            md, controlStarted, dataStarted := Md5Md, true, true;
          } else {
            md := Sha1Md;
          }
          identity := Identity(id.kind.Size(), id.data);
        case GenerateV1 => md, controlStarted, dataStarted := Md5Md, true, true;
        case Generate => md := Sha1Md;
        case VerifyAndGenerate => md := Sha1Md;
        case NoAction => controlStarted, dataStarted := true, true;
      }
      new;
      hash := Hash(md, []);
    }

    method CheckTrust(env: Env) returns (error: Option<Error>)
      ensures error == if Trusted(Now(), env) then None else Some(NoKey)
    {
      if (action == Verify || action == VerifyAndGenerate) && signature.None? && !env.allowUntrusted {
        return Some(NoKey);
      }
      return None;
    }

    /** apk_sign_ctx_process_file. */
    method ReadFile(name: string, content: seq<Byte>, env: Env) returns (error: Option<Error>)
      modifies this
      ensures (Now(), error) == ProcessFile(old(Now()), name, content, env)
    {
      if dataStarted { return None; }
      if IsData(name) {
        dataStarted, controlStarted := true, true;
        error := CheckTrust(env);
        return;
      }
      if controlStarted { return None; }
      if !HasPrefix(name, SIGN) {
        controlStarted := true;
        return None;
      }
      signatures := signatures + 1;
      if (action != Verify && action != VerifyAndGenerate) || signature.Some? || keys.None? { return None; }
      if !HasPrefix(name[6..], "RSA.") && !HasPrefix(name[6..], "DSA.") { return None; }
      assert name[6..][..4] == name[6..10];
      if name[10..] !in keys.value { return None; }
      md := if name[6] == 'R' then Sha1Md else DssMd;
      signature := Some(KeyAndData(keys.value[name[10..]], content));
      return None;
    }

    /** apk_sign_ctx_parse_pkginfo_line. */
    method ReadLine(line: string)
      requires |dataChecksum| == MAX_MD
      modifies this
      ensures Now() == ParseLine(old(Now()), line)
    {
      if !dataStarted && HasPrefix(line, DATAHASH) {
        hasDataChecksum, md := true, Sha256Md;
        dataChecksum := Overlay(dataChecksum, line[|DATAHASH|..]);
      }
    }

    method Update(data: seq<Byte>)
      modifies this
      ensures Now() == Feed(old(Now()), data)
    {
      hash := Hash(hash.md, hash.bytes + data);
    }

    /** apk_sign_ctx_mpart_cb. */
    method ReadPart(part: Part, data: seq<Byte>, env: Env) returns (error: Option<Error>)
      modifies this
      ensures (Now(), error) == HandlePart(old(Now()), part, data, env)
    {
      if part == Data || (part == Boundary && dataStarted) {
        Update(data);
        return None;
      }
      if !controlStarted {
        if part == End { return Some(KeyRejected); }
        hash := Hash(md, []);
        return None;
      }
      var endOfControl := !dataStarted;
      dataStarted := true;
      Update(data);
      if !hasDataChecksum && endOfControl && part != End { return None; }
      if hasDataChecksum && !endOfControl {
        error := FinishData(env);
      } else {
        error := FinishControl(part, env);
      }
    }

    method FinishData(env: Env) returns (error: Option<Error>)
      modifies this
      ensures (Now(), error) == CheckData(old(Now()), env)
    {
      if hash.md.Size() == 0 || !SamePrefix(env.digest(hash.md, hash.bytes), dataChecksum, hash.md.Size()) {
        return Some(KeyRejected);
      }
      dataVerified := true;
      return if !env.allowUntrusted && !controlVerified then Some(NoKey) else None;
    }

    method FinishControl(part: Part, env: Env) returns (error: Option<Error>)
      modifies this
      ensures (Now(), error) == CheckControl(old(Now()), part, env)
    {
      hide SamePrefix, ControlMatches, Trusted;
      error := CheckTrust(env);
      if error.Some? { return; }
      if action == Generate || action == GenerateV1 {
        SetIdentity(env);
        if action == Generate && hasDataChecksum { return Some(Canceled); }
      } else if action != NoAction {
        var fits := Fits(env);
        if !fits { return Some(KeyRejected); }
        SetVerified(part);
        if action == VerifyAndGenerate { SetIdentity(env); }
      }
      hash := Hash(md, []);
    }

    method Fits(env: Env) returns (fits: bool)
      ensures fits == ControlMatches(Now(), hash, env)
    {
      match action {
        case VerifyIdentity => return SamePrefix(env.digest(hash.md, hash.bytes), identity.data, identity.size);
        case Verify =>
        case VerifyAndGenerate =>
        case _ => return false;
      }
      return signature.Some? && env.verify(hash.md, hash.bytes, signature.value.data, signature.value.key);
    }

    method SetVerified(part: Part)
      modifies this
      ensures Now() == old(Now()).(controlVerified := true, dataVerified := dataVerified)
      ensures dataVerified == (old(dataVerified) || (!hasDataChecksum && part == End))
    {
      controlVerified := true;
      if !hasDataChecksum && part == End { dataVerified := true; }
    }

    method SetIdentity(env: Env)
      modifies this
      ensures Now() == Identified(old(Now()), env)
    {
      identity := Identity(hash.md.Size(), env.digest(hash.md, hash.bytes));
    }
  }
}
