/** The provisioning script, setup.py: choose the upstream credential, then
    write it and the domain settings into the proxy configuration (config.json)
    and the service description (docker-compose.yml). */
module Setup {
  import opened Results
  import opened Documents

  /** The credential the shipped config.json holds until it is provisioned. */
  const Placeholder := "<UPSTREAM-UUID>"

  /** `config['inbounds'][0]['settings']['clients'][0]['id']` */
  const IdPath: Path := [Key("inbounds"), Index(0), Key("settings"), Key("clients"), Index(0), Key("id")]
  /** `dockerComposeObject["services"]["v2ray"]["environment"][1]` */
  const HostPath: Path := [Key("services"), Key("v2ray"), Key("environment"), Index(1)]
  /** `dockerComposeObject["services"]["v2ray"]["environment"][2]` */
  const CertPath: Path := [Key("services"), Key("v2ray"), Key("environment"), Index(2)]
  /** `dockerComposeObject["services"]["nginx-proxy-acme"]["environment"][0]` */
  const EmailPath: Path := [Key("services"), Key("nginx-proxy-acme"), Key("environment"), Index(0)]

  /** What the operator types at the four prompts. The e-mail prompt is shown
      only after `yes`; otherwise `email` is never read. */
  datatype Answers = Answers(credential: string, domain: string, ssl: string, email: string)

  predicate IsLowerHex(c: char) { '0' <= c <= '9' || 'a' <= c <= 'f' }

  /** The text of `str(uuid.uuid4())`: 32 lower-case hex digits in groups of
      8-4-4-4-12, version digit 4, variant digit 8, 9, a or b. */
  predicate IsUuid4Text(g: string)
  {
    |g| == 36 &&
    (forall i :: 0 <= i < 36 ==> (g[i] == '-' <==> i in {8, 13, 18, 23})) &&
    (forall i :: 0 <= i < 36 && g[i] != '-' ==> IsLowerHex(g[i])) &&
    g[14] == '4' && g[19] in {'8', '9', 'a', 'b'}
  }

  /** The credential setup.py:29-34 settles on: what was typed, verbatim and
      unchecked; when nothing was typed, the stored one, unless it is the
      placeholder, in which case the freshly generated one. */
  function ChooseCredential(stored: Doc, typed: string, generated: string): (r: Doc)
    ensures typed != "" ==> r == Str(typed)
    ensures typed == "" && stored != Str(Placeholder) ==> r == stored
    ensures typed == "" && stored == Str(Placeholder) ==> r == Str(generated)
  {
    if typed != "" then Str(typed)
    else if stored == Str(Placeholder) then Str(generated)
    else stored
  }

  /** The environment entries setup.py:51-56 leaves behind: the virtual host
      always, the certificate host and the e-mail only after exactly `yes`. */
  function HostEntry(a: Answers): (r: Doc)
    ensures r.Str? && |r.s| == 13 + |a.domain| && r.s[..13] == "VIRTUAL_HOST=" && r.s[13..] == a.domain
  {
    Str("VIRTUAL_HOST=" + a.domain)
  }

  function CertEntry(a: Answers): (r: Doc)
    ensures a.ssl == "yes" ==> r == Str("LETSENCRYPT_HOST=" + a.domain)
    ensures a.ssl != "yes" ==> r == Str("LETSENCRYPT_HOST=")
  {
    assert "LETSENCRYPT_HOST=" + "" == "LETSENCRYPT_HOST=";
    Str("LETSENCRYPT_HOST=" + (if a.ssl == "yes" then a.domain else ""))
  }

  function EmailEntry(a: Answers): (r: Doc)
    ensures a.ssl == "yes" ==> r == Str("DEFAULT_EMAIL=" + a.email)
    ensures a.ssl != "yes" ==> r == Str("DEFAULT_EMAIL=")
  {
    assert "DEFAULT_EMAIL=" + "" == "DEFAULT_EMAIL=";
    Str("DEFAULT_EMAIL=" + (if a.ssl == "yes" then a.email else ""))
  }

  /** The specification of a run: each of the four positions written once,
      with its final value. A shape mismatch anywhere is fatal. */
  function Provisioned(config: Doc, compose: Doc, a: Answers, generated: string): (r: Result<(Doc, Doc)>)
    ensures r.Err? ==> r.error == ShapeMismatch
    ensures r.Ok? ==> Get(config, IdPath).Some?
  {
    match Get(config, IdPath)
    case None => Err(ShapeMismatch)
    case Some(stored) =>
      match (Set(config, IdPath, ChooseCredential(stored, a.credential, generated)),
             Set(compose, HostPath, HostEntry(a)))
      case (Some(config'), Some(k1)) =>
        (match Set(k1, CertPath, CertEntry(a))
         case Some(k2) =>
           (match Set(k2, EmailPath, EmailEntry(a))
            case Some(k3) => Ok((config', k3))
            case None => Err(ShapeMismatch))
         case None => Err(ShapeMismatch))
      case _ => Err(ShapeMismatch)
  }

  /** The credential a run settles on, when the stored one can be read. */
  function ChosenCredential(config: Doc, a: Answers, generated: string): Option<Doc>
  {
    match Get(config, IdPath)
    case None => None
    case Some(stored) => Some(ChooseCredential(stored, a.credential, generated))
  }

  // ---------------------------------------------------------------------------
  // The script, step by step

  /** The two parsed documents the script holds and mutates in place. */
  class Provisioner {
    var config: Doc
    var compose: Doc

    /** setup.py:14-17, with the files' contents already parsed. */
    constructor (config: Doc, compose: Doc)
      ensures this.config == config && this.compose == compose
    {
      this.config := config;
      this.compose := compose;
    }

    /** setup.py:22-56: choose the credential, then rewrite the four fields,
        the last two first blanked and then, after `yes`, filled in. Returns
        the chosen credential. On failure the script dies before writing any
        file, so what is left in memory does not matter. */
    method Run(a: Answers, generated: string) returns (r: Result<Doc>)
      modifies this
      ensures r.Ok? <==> Provisioned(old(config), old(compose), a, generated).Ok?
      ensures r.Err? ==> r.error == ShapeMismatch
      ensures r.Ok? ==>
        Ok((config, compose)) == Provisioned(old(config), old(compose), a, generated) &&
        Some(r.value) == ChosenCredential(old(config), a, generated)
    {
      var stored := Get(config, IdPath);
      if stored.None? {
        return Err(ShapeMismatch);
      }
      var upstream := a.credential;
      var credential: Doc := Str(upstream);
      if upstream == "" {
        if stored.value == Str(Placeholder) {
          credential := Str(generated);
        } else {
          credential := stored.value;
        }
      }
      ghost var config0, compose0 := config, compose;

      SetExisting(config, IdPath, credential);
      config := Set(config, IdPath, credential).value;

      var k := Set(compose, HostPath, HostEntry(a));
      if k.None? {
        return Err(ShapeMismatch);
      }
      compose := k.value;
      ghost var k1 := compose;
      k := Set(compose, CertPath, Str("LETSENCRYPT_HOST="));
      if k.None? {
        assert Set(k1, CertPath, CertEntry(a)).None? by {
          SetAnyValue(k1, CertPath, CertEntry(a), Str("LETSENCRYPT_HOST="));
        }
        return Err(ShapeMismatch);
      }
      compose := k.value;
      k := Set(compose, EmailPath, Str("DEFAULT_EMAIL="));
      if k.None? {
        CertEmailDisjoint();
        SecondWriteFails(k1, CertPath, EmailPath, Str("LETSENCRYPT_HOST="), Str("DEFAULT_EMAIL="), CertEntry(a), EmailEntry(a));
        return Err(ShapeMismatch);
      }
      compose := k.value;
      if a.ssl == "yes" {
        CertEmailDisjoint();
        Overwrite(k1, CertPath, EmailPath, Str("LETSENCRYPT_HOST="), Str("DEFAULT_EMAIL="), CertEntry(a), EmailEntry(a));
        compose := Set(compose, CertPath, CertEntry(a)).value;
        compose := Set(compose, EmailPath, EmailEntry(a)).value;
      } else {
        assert CertEntry(a) == Str("LETSENCRYPT_HOST=") && EmailEntry(a) == Str("DEFAULT_EMAIL=");
      }
      assert Set(compose0, HostPath, HostEntry(a)) == Some(k1);
      assert Set(Set(k1, CertPath, CertEntry(a)).value, EmailPath, EmailEntry(a)) == Some(compose);
      return Ok(credential);
    }
  }

  // ---------------------------------------------------------------------------
  // Facts the method needs

  lemma CertEmailDisjoint()
    ensures Disjoint(CertPath, EmailPath) && Disjoint(HostPath, CertPath) && Disjoint(HostPath, EmailPath)
  {
    assert CertPath[1] != EmailPath[1] && HostPath[3] != CertPath[3] && HostPath[1] != EmailPath[1];
  }

  /** If the second of two writes to disjoint paths fails after one value was
      written first, it fails after any other value too. */
  lemma SecondWriteFails(k1: Doc, p: Path, q: Path, v0: Doc, w0: Doc, v: Doc, w: Doc)
    requires Disjoint(p, q) && |q| > 0 && q[|q| - 1].Index?
    requires Set(k1, p, v0).Some? && Set(Set(k1, p, v0).value, q, w0).None?
    ensures Set(k1, p, v).None? || Set(Set(k1, p, v).value, q, w).None?
  {
    var k2 := Set(k1, p, v0).value;
    SetAnyValue(k1, p, v0, v);
    var k2' := Set(k1, p, v).value;
    GetSetOther(k1, p, v0, q);
    GetSetOther(k1, p, v, q);
    if Set(k2', q, w).Some? {
      SetIndexExists(k2', q, w);
      SetExisting(k2, q, w0);
    }
  }

  /** Writing two disjoint paths and then overwriting both (setup.py:52-56)
      leaves the same document as writing the final values directly. */
  lemma Overwrite(k1: Doc, p: Path, q: Path, v0: Doc, w0: Doc, v: Doc, w: Doc)
    requires Disjoint(p, q)
    requires Set(k1, p, v0).Some?
    requires Set(Set(k1, p, v0).value, q, w0).Some?
    ensures Set(k1, p, v).Some?
    ensures Set(Set(k1, p, v).value, q, w).Some?
    ensures var k3 := Set(Set(k1, p, v0).value, q, w0).value;
      Set(k3, p, v).Some? &&
      Set(Set(k3, p, v).value, q, w) == Set(Set(k1, p, v).value, q, w)
  {
    var k2 := Set(k1, p, v0).value;
    var k3 := Set(k2, q, w0).value;
    SetAnyValue(k1, p, v0, v);
    assert Set(k2, p, v0).Some? by {
      GetSet(k1, p, v0);
      SetExisting(k2, p, v0);
    }
    SetAnyValue(k2, p, v0, v);
    SetCommute(k2, q, w0, p, v);
    var k2v := Set(k2, p, v).value;
    SetSet(k1, p, v0, v);
    assert k2v == Set(k1, p, v).value;
    var k4 := Set(k3, p, v).value;
    assert k4 == Set(k2v, q, w0).value;
    SetAnyValue(k2v, q, w0, w);
    SetSet(k2v, q, w0, w);
  }

  // ---------------------------------------------------------------------------
  // What a run promises

  /** After a run, the credential, the virtual host and the two TLS entries
      read back as written. */
  lemma {:induction false} ProvisionedWrites(config: Doc, compose: Doc, a: Answers, generated: string)
    requires Provisioned(config, compose, a, generated).Ok?
    ensures Get(Provisioned(config, compose, a, generated).value.0, IdPath) == ChosenCredential(config, a, generated)
    ensures Get(Provisioned(config, compose, a, generated).value.1, HostPath) == Some(HostEntry(a))
    ensures Get(Provisioned(config, compose, a, generated).value.1, CertPath) == Some(CertEntry(a))
    ensures Get(Provisioned(config, compose, a, generated).value.1, EmailPath) == Some(EmailEntry(a))
  {
    CertEmailDisjoint();
    var cred := ChooseCredential(Get(config, IdPath).value, a.credential, generated);
    GetSet(config, IdPath, cred);
    var k1 := Set(compose, HostPath, HostEntry(a)).value;
    var k2 := Set(k1, CertPath, CertEntry(a)).value;
    GetSet(compose, HostPath, HostEntry(a));
    GetSet(k1, CertPath, CertEntry(a));
    GetSet(k2, EmailPath, EmailEntry(a));
    GetSetOther(k1, CertPath, CertEntry(a), HostPath);
    GetSetOther(k2, EmailPath, EmailEntry(a), HostPath);
    GetSetOther(k2, EmailPath, EmailEntry(a), CertPath);
  }

  /** Everything else in both documents is left as it was: every path that
      neither leads to nor lies under a written position. */
  lemma {:induction false} ProvisionedFrame(config: Doc, compose: Doc, a: Answers, generated: string, q: Path)
    requires Provisioned(config, compose, a, generated).Ok?
    ensures var (config', compose') := Provisioned(config, compose, a, generated).value;
      (Disjoint(IdPath, q) ==> Get(config', q) == Get(config, q)) &&
      (Disjoint(HostPath, q) && Disjoint(CertPath, q) && Disjoint(EmailPath, q) ==>
         Get(compose', q) == Get(compose, q))
  {
    var cred := ChooseCredential(Get(config, IdPath).value, a.credential, generated);
    if Disjoint(IdPath, q) {
      GetSetOther(config, IdPath, cred, q);
    }
    if Disjoint(HostPath, q) && Disjoint(CertPath, q) && Disjoint(EmailPath, q) {
      var k1 := Set(compose, HostPath, HostEntry(a)).value;
      var k2 := Set(k1, CertPath, CertEntry(a)).value;
      GetSetOther(compose, HostPath, HostEntry(a), q);
      GetSetOther(k1, CertPath, CertEntry(a), q);
      GetSetOther(k2, EmailPath, EmailEntry(a), q);
    }
  }

  /** A run fails exactly when one of the four positions cannot be read in the
      documents as they were loaded; then nothing is saved. */
  lemma {:induction false} ProvisionedSucceeds(config: Doc, compose: Doc, a: Answers, generated: string)
    ensures Provisioned(config, compose, a, generated).Ok? <==>
      Get(config, IdPath).Some? && Get(compose, HostPath).Some? &&
      Get(compose, CertPath).Some? && Get(compose, EmailPath).Some?
    ensures Provisioned(config, compose, a, generated).Err? ==>
      Provisioned(config, compose, a, generated).error == ShapeMismatch
  {
    CertEmailDisjoint();
    var h, c, e := HostEntry(a), CertEntry(a), EmailEntry(a);
    if Get(config, IdPath).Some? {
      SetExisting(config, IdPath, ChooseCredential(Get(config, IdPath).value, a.credential, generated));
    }
    if Set(compose, HostPath, h).Some? {
      var k1 := Set(compose, HostPath, h).value;
      GetSetOther(compose, HostPath, h, CertPath);
      GetSetOther(compose, HostPath, h, EmailPath);
      SetIndexExists(compose, HostPath, h);
      if Set(k1, CertPath, c).Some? {
        var k2 := Set(k1, CertPath, c).value;
        GetSetOther(k1, CertPath, c, EmailPath);
        SetIndexExists(k1, CertPath, c);
        if Set(k2, EmailPath, e).Some? {
          SetIndexExists(k2, EmailPath, e);
        } else if Get(compose, EmailPath).Some? {
          SetExisting(k2, EmailPath, e);
        }
      } else if Get(compose, CertPath).Some? {
        SetExisting(k1, CertPath, c);
      }
    } else if Get(compose, HostPath).Some? {
      SetExisting(compose, HostPath, h);
    }
  }

  /** Once the stored credential is no longer the placeholder, running the
      script again with the same answers changes neither document, whatever
      credential would be generated the second time. */
  lemma {:induction false} ProvisionedIdempotent(config: Doc, compose: Doc, a: Answers, g1: string, g2: string)
    requires Provisioned(config, compose, a, g1).Ok?
    requires ChosenCredential(config, a, g1) != Some(Str(Placeholder))
    ensures var (config', compose') := Provisioned(config, compose, a, g1).value;
      Provisioned(config', compose', a, g2) == Ok((config', compose'))
  {
    var r := Provisioned(config, compose, a, g1).value;
    ProvisionedWrites(config, compose, a, g1);
    var cred := ChosenCredential(config, a, g1).value;
    assert Get(r.0, IdPath) == Some(cred);
    assert ChooseCredential(cred, a.credential, g2) == cred;
    SetSame(r.0, IdPath, cred);
    SetSame(r.1, HostPath, HostEntry(a));
    SetSame(r.1, CertPath, CertEntry(a));
    SetSame(r.1, EmailPath, EmailEntry(a));
    assert ChosenCredential(r.0, a, g2) == Some(cred);
  }

  /** The placeholder is never what a fresh `uuid4` reads as. */
  lemma FreshIsNotPlaceholder(g: string)
    requires IsUuid4Text(g)
    ensures g != Placeholder
  {
    assert IsLowerHex(g[0]) || g[0] == '-';
    assert Placeholder[0] == '<';
  }

  /** With an empty answer and the placeholder stored, the run settles on the
      freshly generated credential, and a second run keeps it. */
  lemma FreshCredential(config: Doc, a: Answers, generated: string)
    requires a.credential == "" && Get(config, IdPath) == Some(Str(Placeholder))
    requires IsUuid4Text(generated)
    ensures ChosenCredential(config, a, generated) == Some(Str(generated))
    ensures ChosenCredential(config, a, generated) != Some(Str(Placeholder))
  {
    FreshIsNotPlaceholder(generated);
  }
}
