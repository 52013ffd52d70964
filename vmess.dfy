/** The share-link generator, vmess.py: read the credential and the domain
    back from the provisioned documents, then print one `vmess://` link, or,
    behind the CDN, one link per line of the range file, each with an address
    picked from that line's network. */
module Vmess {
  import opened Results
  import opened Text
  import opened Base64
  import opened Json
  import opened Documents
  import opened IPv4
  import Setup

  const Scheme := "vmess://"

  /** The keys `config_generator` writes, in order. */
  const FieldKeys: seq<string> := ["v", "ps", "add", "port", "id", "aid", "net", "type", "sni", "host", "path", "tls"]

  lemma FieldKeysDistinct()
    ensures forall i, j :: 0 <= i < j < |FieldKeys| ==> FieldKeys[i] != FieldKeys[j]
  {
  }

  /** The twelve members `config_generator` serialises, in insertion order
      (vmess.py:10-18): the address is the domain unless an IP is given. */
  function Fields(domain: string, uuid: string, ip: string): (r: seq<(string, string)>)
    ensures |r| == |FieldKeys| && forall i :: 0 <= i < |r| ==> r[i].0 == FieldKeys[i]
  {
    var add := if ip == "" then domain else ip;
    [("v", "2"), ("ps", domain), ("add", add), ("port", "443"), ("id", uuid), ("aid", "0"),
     ("net", "ws"), ("type", "none"), ("sni", domain), ("host", domain), ("path", "/"), ("tls", "tls")]
  }

  /** `config_generator(domain, uuid, ip)` (vmess.py:10-19): the members as
      `json.dumps` writes them, encoded to ASCII bytes, then to base64. */
  function Link(domain: string, uuid: string, ip: string): (r: string)
    ensures |r| > |Scheme| && r[..|Scheme|] == Scheme
  {
    var j := Dumps(Fields(domain, uuid, ip));
    DumpsAscii(Fields(domain, uuid, ip));
    Scheme + Encode(AsciiBytes(j))
  }

  /** What a client does with a link: check the scheme, decode the base64,
      the ASCII and the JSON object. */
  function DecodeLink(s: string): Option<seq<(string, string)>>
  {
    if |s| < |Scheme| || s[..|Scheme|] != Scheme then None
    else
      match Decode(s[|Scheme|..])
      case None => None
      case Some(b) =>
        match AsciiText(b)
        case None => None
        case Some(t) => ParseObject(t)
  }

  /** The keys of an object, in order. */
  function Keys(ps: seq<(string, string)>): (ks: seq<string>)
    ensures |ks| == |ps| && forall i :: 0 <= i < |ps| ==> ks[i] == ps[i].0
  {
    seq(|ps|, i requires 0 <= i < |ps| => ps[i].0)
  }

  /** The value of the first member named `k`. */
  function Lookup(ps: seq<(string, string)>, k: string): (r: Option<string>)
    ensures r.Some? <==> k in Keys(ps)
    decreases |ps|
  {
    if |ps| == 0 then None
    else if ps[0].0 == k then Some(ps[0].1)
    else
      assert Keys(ps) == [ps[0].0] + Keys(ps[1..]);
      Lookup(ps[1..], k)
  }

  /** Decoding a generated link gives back exactly the members it was made
      from (vmess.py:19). */
  lemma LinkRoundTrip(domain: string, uuid: string, ip: string)
    ensures DecodeLink(Link(domain, uuid, ip)) == Some(Fields(domain, uuid, ip))
  {
    var ps := Fields(domain, uuid, ip);
    var j := Dumps(ps);
    DumpsAscii(ps);
    var b := AsciiBytes(j);
    var s := Link(domain, uuid, ip);
    assert s[..|Scheme|] == Scheme && s[|Scheme|..] == Encode(b);
    DecodeEncode(b);
    AsciiRoundTrip(j);
    DumpsRoundTrip(ps);
  }

  /** A link starts with `vmess://` and its payload is the padded base64 of
      the JSON text: 4 characters per started group of 3 bytes, standard
      alphabet, `=` only as padding at the end. */
  lemma LinkShape(domain: string, uuid: string, ip: string)
    ensures var s, n := Link(domain, uuid, ip), |Dumps(Fields(domain, uuid, ip))|;
      |s| >= |Scheme| && s[..|Scheme|] == Scheme &&
      |s| - |Scheme| == 4 * ((n + 2) / 3) &&
      forall i :: |Scheme| <= i < |s| ==>
        (InAlphabet(s[i]) || s[i] == '=') &&
        (s[i] == '=' <==> |s| - PadLength(n) <= i)
  {
    var ps := Fields(domain, uuid, ip);
    DumpsAscii(ps);
    var b := AsciiBytes(Dumps(ps));
    var e := Encode(b);
    EncodeShape(b);
    ShiftShape(Scheme, e, PadLength(|b|));
  }

  /** The payload's character classes, seen through the prefix in front of it. */
  lemma ShiftShape(pre: string, e: string, pad: nat)
    requires forall i :: 0 <= i < |e| ==> (e[i] == '=' <==> |e| - pad <= i) && (InAlphabet(e[i]) || e[i] == '=')
    ensures forall i :: |pre| <= i < |pre + e| ==>
      (InAlphabet((pre + e)[i]) || (pre + e)[i] == '=') && ((pre + e)[i] == '=' <==> |pre + e| - pad <= i)
  {
    forall i | |pre| <= i < |pre + e|
      ensures (InAlphabet((pre + e)[i]) || (pre + e)[i] == '=') && ((pre + e)[i] == '=' <==> |pre + e| - pad <= i)
    {
      assert (pre + e)[i] == e[i - |pre|];
    }
  }

  /** The members come in the order v, ps, add, port, id, aid, net, type,
      sni, host, path, tls, each key once. */
  lemma FieldsKeys(domain: string, uuid: string, ip: string)
    ensures Keys(Fields(domain, uuid, ip)) == FieldKeys
    ensures forall i, j :: 0 <= i < j < 12 ==> Keys(Fields(domain, uuid, ip))[i] != Keys(Fields(domain, uuid, ip))[j]
  {
    assert Keys(Fields(domain, uuid, ip)) == FieldKeys;
    FieldKeysDistinct();
  }

  /** The address is the IP when one is given and the domain otherwise; the
      name, SNI and host header are the domain; the id is the credential. */
  lemma FieldsFromInputs(domain: string, uuid: string, ip: string)
    ensures Lookup(Fields(domain, uuid, ip), "add") == Some(if ip == "" then domain else ip)
    ensures Lookup(Fields(domain, uuid, ip), "ps") == Some(domain)
    ensures Lookup(Fields(domain, uuid, ip), "id") == Some(uuid)
    ensures Lookup(Fields(domain, uuid, ip), "sni") == Some(domain)
    ensures Lookup(Fields(domain, uuid, ip), "host") == Some(domain)
  {
    var ps := Fields(domain, uuid, ip);
    FieldsKeys(domain, uuid, ip);
    LookupAt(ps, 1);
    LookupAt(ps, 2);
    LookupAt(ps, 4);
    LookupAt(ps, 8);
    LookupAt(ps, 9);
  }

  /** The other members are fixed, whatever the inputs. */
  lemma FieldsFixed(domain: string, uuid: string, ip: string)
    ensures Lookup(Fields(domain, uuid, ip), "v") == Some("2")
    ensures Lookup(Fields(domain, uuid, ip), "port") == Some("443")
    ensures Lookup(Fields(domain, uuid, ip), "aid") == Some("0")
    ensures Lookup(Fields(domain, uuid, ip), "net") == Some("ws")
    ensures Lookup(Fields(domain, uuid, ip), "type") == Some("none")
    ensures Lookup(Fields(domain, uuid, ip), "path") == Some("/")
    ensures Lookup(Fields(domain, uuid, ip), "tls") == Some("tls")
  {
    var ps := Fields(domain, uuid, ip);
    FieldsKeys(domain, uuid, ip);
    LookupAt(ps, 0);
    LookupAt(ps, 3);
    LookupAt(ps, 5);
    LookupAt(ps, 6);
    LookupAt(ps, 7);
    LookupAt(ps, 10);
    LookupAt(ps, 11);
  }

  /** What a client reads from a generated link is exactly those members. */
  lemma LinkFields(domain: string, uuid: string, ip: string)
    ensures var ps := DecodeLink(Link(domain, uuid, ip));
      ps.Some? && Lookup(ps.value, "add") == Some(if ip == "" then domain else ip) &&
      Lookup(ps.value, "ps") == Some(domain) && Lookup(ps.value, "id") == Some(uuid)
  {
    LinkRoundTrip(domain, uuid, ip);
    FieldsFromInputs(domain, uuid, ip);
  }

  /** The first member with a key is the one found by it. */
  lemma {:induction false} LookupAt(ps: seq<(string, string)>, i: nat)
    requires i < |ps| && forall j :: 0 <= j < i ==> Keys(ps)[j] != Keys(ps)[i]
    ensures Lookup(ps, ps[i].0) == Some(ps[i].1)
    decreases i
  {
    if i > 0 {
      assert forall j :: 0 <= j < i - 1 ==> Keys(ps[1..])[j] == Keys(ps)[j + 1];
      LookupAt(ps[1..], i - 1);
    }
  }

  // ---------------------------------------------------------------------------
  // Reading the provisioned documents (vmess.py:28-29)

  /** `entry.split('=')[1]`: the text between the first `=` and the next one;
      no `=` at all is an IndexError. */
  function ExtractDomain(entry: string): (r: Result<string>)
    ensures r.Ok? <==> '=' in entry
    ensures r.Err? ==> r.error == NoDomainField
    ensures r.Ok? ==> '=' !in r.value
  {
    var parts := Split(entry, '=');
    CountZero(entry, '=');
    if |parts| < 2 then Err(NoDomainField) else Ok(parts[1])
  }

  /** The entry setup.py writes gives back the domain, when the domain has no
      `=` of its own. */
  lemma ExtractVirtualHost(domain: string)
    requires '=' !in domain
    ensures ExtractDomain("VIRTUAL_HOST=" + domain) == Ok(domain)
  {
    assert "VIRTUAL_HOST=" + domain == "VIRTUAL_HOST" + ['='] + domain;
    SplitAtFirst("VIRTUAL_HOST", '=', domain);
    SplitNoSeparator(domain, '=');
  }

  /** A domain with an `=` of its own comes back cut at that `=`. */
  lemma ExtractCutsAtSecondSeparator(a: string, b: string)
    requires '=' !in a
    ensures ExtractDomain("VIRTUAL_HOST=" + a + "=" + b) == Ok(a)
  {
    assert "VIRTUAL_HOST=" + a + "=" + b == "VIRTUAL_HOST" + ['='] + (a + ['='] + b);
    SplitAtFirst("VIRTUAL_HOST", '=', a + ['='] + b);
    SplitAtFirst(a, '=', b);
  }

  /** vmess.py:28-29: the credential and the domain, read in that order. A
      position that cannot be read, or holds something other than a string,
      ends the run. */
  function ReadInputs(config: Doc, compose: Doc): (r: Result<(string, string)>)
    ensures r.Ok? <==>
      Get(config, Setup.IdPath).Some? && Get(config, Setup.IdPath).value.Str? &&
      Get(compose, Setup.HostPath).Some? && Get(compose, Setup.HostPath).value.Str? &&
      '=' in Get(compose, Setup.HostPath).value.s
    ensures r.Err? ==> (r.error == NoDomainField <==>
      Get(config, Setup.IdPath).Some? && Get(config, Setup.IdPath).value.Str? &&
      Get(compose, Setup.HostPath).Some? && Get(compose, Setup.HostPath).value.Str?)
    ensures r.Err? ==> r.error in {ShapeMismatch, NoDomainField}
    ensures r.Ok? ==> Get(config, Setup.IdPath) == Some(Str(r.value.0))
    ensures r.Ok? ==> exists e :: Get(compose, Setup.HostPath) == Some(Str(e)) && ExtractDomain(e) == Ok(r.value.1)
  {
    match Get(config, Setup.IdPath)
    case Some(Str(uuid)) =>
      (match Get(compose, Setup.HostPath)
       case Some(Str(entry)) =>
         (match ExtractDomain(entry)
          case Ok(domain) => Ok((uuid, domain))
          case Err(e) => Err(e))
       case _ => Err(ShapeMismatch))
    case _ => Err(ShapeMismatch)
  }

  // ---------------------------------------------------------------------------
  // The links (vmess.py:32-41)

  /** The link printed for one line of the range file, with the random draw
      `k` for that line. */
  function LineLink(domain: string, uuid: string, read: string -> Option<(nat, nat)>, line: string, k: nat): (r: Result<string>)
    ensures r.Ok? <==> ReadNetwork(read, line).Ok?
  {
    match LineAddress(read, line, k)
    case Err(e) => Err(e)
    case Ok(ip) => Ok(Link(domain, uuid, ip))
  }

  lemma LineLinkOf(domain: string, uuid: string, read: string -> Option<(nat, nat)>, line: string, k: nat, n: Network)
    requires ReadNetwork(read, line) == Ok(n)
    ensures Valid(n) && Pick(Hosts(n), k) < Space
    ensures LineLink(domain, uuid, read, line, k) == Ok(Link(domain, uuid, FormatAddress(Pick(Hosts(n), k))))
  {
    PickInNetwork(n, k);
  }

  /** The outcome for every line of the range file, in file order. */
  function LineLinks(domain: string, uuid: string, read: string -> Option<(nat, nat)>,
                     lines: seq<string>, picks: seq<nat>): (r: seq<Result<string>>)
    requires |picks| == |lines|
    ensures |r| == |lines|
    ensures forall i :: 0 <= i < |r| ==> (r[i].Ok? <==> ReadNetwork(read, lines[i]).Ok?)
  {
    seq(|lines|, i requires 0 <= i < |lines| => LineLink(domain, uuid, read, lines[i], picks[i]))
  }

  /** `links` are the successful outcomes of the first `|links|` lines. */
  predicate Prefix(outcomes: seq<Result<string>>, links: seq<string>)
  {
    |links| <= |outcomes| && forall i :: 0 <= i < |links| ==> outcomes[i] == Ok(links[i])
  }

  lemma PrefixExtend(outcomes: seq<Result<string>>, links: seq<string>, link: string)
    requires Prefix(outcomes, links) && |links| < |outcomes| && outcomes[|links|] == Ok(link)
    ensures Prefix(outcomes, links + [link])
  {
  }

  /** A CDN link decodes to the line's picked address, which lies in the
      line's network, with the domain as name, SNI and host header. */
  lemma CdnLinkInNetwork(domain: string, uuid: string, read: string -> Option<(nat, nat)>, line: string, k: nat)
    requires LineLink(domain, uuid, read, line, k).Ok?
    ensures var n := ReadNetwork(read, line).value;
      var ps := DecodeLink(LineLink(domain, uuid, read, line, k).value);
      ps.Some? && Lookup(ps.value, "add").Some? &&
      ParseAddress(Lookup(ps.value, "add").value).Some? &&
      n.address <= ParseAddress(Lookup(ps.value, "add").value).value <= Broadcast(n) &&
      Lookup(ps.value, "sni") == Some(domain)
  {
    var ip := LineAddress(read, line, k).value;
    LineAddressInNetwork(read, line, k);
    assert ip != "" by {
      assert Split("", '.') == [""];
    }
    LinkRoundTrip(domain, uuid, ip);
    FieldsFromInputs(domain, uuid, ip);
  }

  /** vmess.py:34-39: one link per line, in file order, each with an address
      picked from the line's network; the first line that is not a network
      ends the run after the links before it. `picks` holds the draw made
      for each line. */
  method CdnLinks(domain: string, uuid: string, read: string -> Option<(nat, nat)>,
                  lines: seq<string>, picks: seq<nat>)
    returns (links: seq<string>, failure: Option<Failure>)
    requires |picks| == |lines|
    ensures Prefix(LineLinks(domain, uuid, read, lines, picks), links)
    ensures failure.None? ==> |links| == |lines|
    ensures failure.Some? ==>
      |links| < |lines| && LineLinks(domain, uuid, read, lines, picks)[|links|] == Err(failure.value)
  {
    links, failure := [], None;
    var i := 0;
    while i < |lines|
      invariant i <= |lines| && |links| == i
      invariant Prefix(LineLinks(domain, uuid, read, lines, picks), links)
    {
      var network := ReadNetwork(read, lines[i]);
      if network.Err? {
        return links, Some(network.error);
      }
      var tempIpList := Expand(network.value);
      PickInNetwork(network.value, picks[i]);
      var finalIP := FormatAddress(Pick(tempIpList, picks[i]));
      FormatAddressStripped(Pick(tempIpList, picks[i]));
      finalIP := Strip(finalIP);
      var link := Link(domain, uuid, finalIP);
      LineLinkOf(domain, uuid, read, lines[i], picks[i], network.value);
      PrefixExtend(LineLinks(domain, uuid, read, lines, picks), links, link);
      links := links + [link];
      i := i + 1;
    }
  }

  /** vmess.py:28-41, the whole run. `answer` is the reply to the CDN prompt;
      `rangeFile` the lines of cloudflare_ip_list.txt, `None` when it cannot be
      opened. Only the exact reply `yes` selects the CDN links; otherwise one
      link is printed, addressed to the domain itself. */
  method Share(config: Doc, compose: Doc, answer: string, read: string -> Option<(nat, nat)>,
               rangeFile: Option<seq<string>>, picks: seq<nat>)
    returns (links: seq<string>, failure: Option<Failure>)
    requires rangeFile.Some? ==> |picks| == |rangeFile.value|
    ensures ReadInputs(config, compose).Err? ==>
      links == [] && failure == Some(ReadInputs(config, compose).error)
    ensures ReadInputs(config, compose).Ok? && answer != "yes" ==>
      var (uuid, domain) := ReadInputs(config, compose).value;
      links == [Link(domain, uuid, "")] && failure.None?
    ensures ReadInputs(config, compose).Ok? && answer == "yes" && rangeFile.None? ==>
      links == [] && failure == Some(MissingRangeFile)
    ensures ReadInputs(config, compose).Ok? && answer == "yes" && rangeFile.Some? ==>
      var (uuid, domain) := ReadInputs(config, compose).value;
      var lines := rangeFile.value;
      Prefix(LineLinks(domain, uuid, read, lines, picks), links) &&
      (failure.None? ==> |links| == |lines|) &&
      (failure.Some? ==> |links| < |lines| && LineLinks(domain, uuid, read, lines, picks)[|links|] == Err(failure.value))
  {
    var inputs := ReadInputs(config, compose);
    if inputs.Err? {
      return [], Some(inputs.error);
    }
    var (uuid, domain) := inputs.value;
    if answer == "yes" {
      if rangeFile.None? {
        return [], Some(MissingRangeFile);
      }
      links, failure := CdnLinks(domain, uuid, read, rangeFile.value, picks);
    } else {
      links, failure := [Link(domain, uuid, "")], None;
    }
  }
}
