/** The two scripts together: what setup.py writes is what vmess.py reads
    back, so the links carry the provisioned credential and domain. */
module Pipeline {
  import opened Results
  import opened Documents
  import opened Setup
  import opened Vmess

  /** After provisioning with a string credential, the link generator reads
      back that credential and the domain, when the domain has no `=`. */
  lemma ReadBack(config: Doc, compose: Doc, a: Answers, generated: string, uuid: string)
    requires Provisioned(config, compose, a, generated).Ok?
    requires ChosenCredential(config, a, generated) == Some(Str(uuid))
    requires '=' !in a.domain
    ensures var docs := Provisioned(config, compose, a, generated).value;
      ReadInputs(docs.0, docs.1) == Ok((uuid, a.domain))
  {
    ProvisionedWrites(config, compose, a, generated);
    ExtractVirtualHost(a.domain);
  }

  /** Without the CDN, the one link printed after provisioning is addressed
      to the provisioned domain and carries the provisioned credential. */
  lemma DirectLink(config: Doc, compose: Doc, a: Answers, generated: string, uuid: string)
    requires Provisioned(config, compose, a, generated).Ok?
    requires ChosenCredential(config, a, generated) == Some(Str(uuid))
    requires '=' !in a.domain
    ensures ReadInputs(Provisioned(config, compose, a, generated).value.0,
                       Provisioned(config, compose, a, generated).value.1) == Ok((uuid, a.domain))
    ensures DecodeLink(Link(a.domain, uuid, "")).Some?
    ensures Lookup(DecodeLink(Link(a.domain, uuid, "")).value, "add") == Some(a.domain)
    ensures Lookup(DecodeLink(Link(a.domain, uuid, "")).value, "id") == Some(uuid)
  {
    ReadBack(config, compose, a, generated, uuid);
    LinkFields(a.domain, uuid, "");
  }

  /** With an empty answer and the placeholder stored, a fresh `uuid4` text
      ends up in the link. */
  lemma FreshCredentialInLink(config: Doc, compose: Doc, a: Answers, generated: string)
    requires Provisioned(config, compose, a, generated).Ok?
    requires a.credential == "" && Get(config, IdPath) == Some(Str(Placeholder))
    requires IsUuid4Text(generated) && '=' !in a.domain
    ensures var docs := Provisioned(config, compose, a, generated).value;
      ReadInputs(docs.0, docs.1) == Ok((generated, a.domain)) && generated != Placeholder
  {
    FreshCredential(config, a, generated);
    FreshIsNotPlaceholder(generated);
    ReadBack(config, compose, a, generated, generated);
  }
}
