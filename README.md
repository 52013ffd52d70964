# vmess provisioning: a verified model

The repository holds two interactive Python scripts that set up a V2Ray proxy
behind nginx.

- `setup.py` loads the proxy configuration (`v2ray/config/config.json`) and the
  service description (`docker-compose.yml`). It settles on an upstream
  credential. The credential is the one typed at the prompt, verbatim. If
  nothing is typed, it is the stored one, or a fresh `uuid4` while the stored
  one is still the placeholder `<UPSTREAM-UUID>`. The script then rewrites
  four positions in the two documents: the client id, the `VIRTUAL_HOST`
  entry, and the two TLS entries, which are filled in only after an exact
  `yes`.
- `vmess.py` reads the credential and the domain back. It prints
  `vmess://` share links. Each link is a fixed twelve-member JSON object
  written by `json.dumps`, encoded as ASCII and then as padded base64
  (section 4 of RFC 4648). Behind the CDN it prints one link per line of
  `cloudflare_ip_list.txt`. For each line, the stripped text is read as an
  IPv4 network (section 3.1 of RFC 4632) and expanded into its list of
  addresses. One address is picked at random, and `str(address).strip()`
  becomes the link's `add` field.

The model has one Dafny module per concern, and the modules follow the
scripts.

- `results.dfy`: `Option`, `Result` and the ways a run can die (`Failure`).
- `text.dfy`: `str.split` and `sep.join` on one character, `str(n)` and its
  decimal reading, `encode('ascii')` / `decode('ascii')`, and `str.strip`
  with Python's whitespace set.
- `base64.dfy`: `base64.b64encode`. Its partner is a strict decoder, following
  section 3.5 of RFC 4648.
- `json.dfy`: `json.dumps` of a flat dict of strings, with `ensure_ascii`
  escaping, including surrogate pairs above U+FFFF. Its partner is a reader
  for the layout `dumps` writes, following section 7 of RFC 8259.
- `documents.dfy`: the parsed documents as nested dicts, lists and strings.
  It models Python's chained subscript read `d[a][b]...` and subscript
  assignment `d[a]...[z] = v`. Dict keys are strings and list indexes are
  naturals. A missing key, an out-of-range index, a string key on a list, an
  index on a dict, and any subscript of a string are failures. A dict assignment with a string key adds
  the key; a list assignment needs the index to exist.
- `setup.dfy`: `setup.py`.
  - `Provisioned` is the specification of a run: each position is written
    once, with its final value.
  - The class `Provisioner` holds the two documents the script mutates in
    place. Its `Run` method follows the script's own order of writes: the
    two TLS entries are first blanked, then overwritten after `yes`. `Run`
    is proved to end in the state `Provisioned` describes.
- `ipv4.dfy`:
  - the strict network check of `ipaddress.IPv4Network`;
  - the expansion loop;
  - the pick;
  - `str(IPv4Address)` and its dotted-quad reading.
- `vmess.py` is modelled in `vmess.dfy`:
  - `config_generator`;
  - the domain extraction `split('=')[1]`;
  - the reading of the two documents;
  - the per-line CDN loop (`CdnLinks`);
  - the whole run (`Share`).
  The printed links are returned as a sequence.
- `pipeline.dfy`: the two scripts together. What `setup.py` writes is what
  `vmess.py` reads back, so the links carry the provisioned credential and
  domain.

Randomness is a parameter.

- `uuid.uuid4()` is the string `generated`. Its textual shape is the
  predicate `IsUuid4Text`.
- `random.choice(xs)` with the draw `k` is `xs[k % |xs|]`, so every element
  can be chosen.

How `IPv4Network` turns a line of text into an address and a prefix length is
the parameter `read`. The checks it then makes are modelled: a prefix of at
most 32, an address below 2^32, and no host bits set.

`vmess.py:39` prints each CDN link as soon as its line is processed. When a
later line is malformed, the links of the lines before it are already out.
`CdnLinks` therefore returns the links made so far together with the failure.

## Model

| member | source | states |
|---|---|---|
| Text.Split | vmess.py:29 | `s.split(sep)` yields one more piece than `s` has separators, and no piece contains the separator |
| Text.JoinSplit | vmess.py:29 | joining the pieces of a split with the separator gives back the original text |
| Text.SplitAtFirst | vmess.py:29 | the first separator ends the first piece; what follows it is split on its own |
| Text.SplitJoin | vmess.py:38 | splitting a join gives back the pieces when no piece holds the separator |
| Text.Decimal | vmess.py:38 | `str(n)` is a non-empty run of digits with no leading zero, and is one digit exactly when `n < 10` |
| Text.DecimalRoundTrip | vmess.py:38 | reading back `str(n)` as a canonical decimal gives `n` |
| Text.AsciiBytes | vmess.py:19 | `s.encode('ascii')` of an ASCII text gives one byte per character, each byte the character's code; `AsciiRoundTrip` shows that decoding gives the text back |
| Text.AsciiText | vmess.py:19 | `decode('ascii')` succeeds exactly when every byte is below 128, and its result encodes back to the same bytes |
| Text.AsciiRoundTrip | vmess.py:19 | decoding the ASCII encoding of an ASCII text gives the text back |
| Text.Strip | vmess.py:36-38 | `str.strip` returns a slice `s[i..j]` of its input with only whitespace before `i` and after `j`, and the slice neither begins nor ends with whitespace: exactly the input with its leading and trailing whitespace removed |
| Text.TrimmedIsSlice | vmess.py:36-38 | dropping whitespace characters one at a time from either end leaves a slice of the input with only whitespace around it |
| Text.TrimmedTrans | vmess.py:36-38 | dropping surrounding whitespace from what is left after dropping surrounding whitespace is itself such a drop, which is how `strip` is `rstrip` after `lstrip` |
| Text.TrimStartTrims | vmess.py:36 | `lstrip` leaves what remains after dropping whitespace from the front one character at a time |
| Text.TrimEndTrims | vmess.py:36 | `rstrip` leaves what remains after dropping whitespace from the back one character at a time |
| Text.TrimStart | vmess.py:36 | `lstrip` keeps a suffix, drops only whitespace, and leaves no leading whitespace |
| Text.TrimEnd | vmess.py:36 | `rstrip` keeps a prefix, drops only whitespace, and leaves no trailing whitespace |
| Text.StripLine | vmess.py:34-36 | a line with trailing whitespace (its newline) strips back to its text when the text has no surrounding whitespace |
| Base64.CharOf | vmess.py:19 | every 6-bit value is written as a character of the standard alphabet that reads back as that value |
| Base64.Encode | vmess.py:19 | `b64encode` of n bytes has 4·⌈n/3⌉ characters |
| Base64.EncodeShape | vmess.py:19 | every character of the encoding is in the alphabet or is `=`, and `=` appears exactly in the last (3 − n mod 3) mod 3 positions |
| Base64.TripleRoundTrip | vmess.py:19 | a full group of three bytes decodes back to those bytes |
| Base64.DecodeEncode | vmess.py:19 | the strict decoder inverts the encoder on every byte sequence |
| Json.Hex4RoundTrip | vmess.py:14-18 | the four lower-case hex digits `\u` escapes use read back as the code unit |
| Json.EscapeChar | vmess.py:14-18 | the replacement `ensure_ascii` makes for any character is non-empty and printable ASCII |
| Json.EscapePrintable | vmess.py:14-18 | an escaped string body is printable ASCII |
| Json.DumpsAscii | vmess.py:14-19 | the text `json.dumps` writes is printable ASCII whatever the strings hold, so `.encode('ascii')` cannot fail |
| Json.Escape | vmess.py:14-18 | the `ensure_ascii` body of a string, one escape per character, is at least as long as the string |
| Json.Member | vmess.py:14-18 | one member is written `"key": "value"`: at least six characters, opening and closing with a quote |
| Json.Members | vmess.py:14-18 | the members joined by `, `; with at least one member the text opens and closes with a quote |
| Json.Dumps | vmess.py:14-18 | `json.dumps` of a flat dict of strings is the members between braces: it opens with `{` and closes with `}`, and with at least one member a key's quote follows the brace |
| Json.ReadEscapeChar | vmess.py:14-18 | reading the escape of any character (short escape, plain, `\uXXXX`, or surrogate pair) gives back that character and the rest of the text |
| Json.ReadEscaped | vmess.py:14-18 | reading an escaped string body and its closing quote gives back the string and the text after it |
| Json.ParseMemberOf | vmess.py:14-18 | one `"key": "value"` member reads back as its key and value |
| Json.DumpsRoundTrip | vmess.py:14-18 | parsing what `json.dumps` wrote gives back every key and value, in insertion order |
| Documents.Get | setup.py:22 | the chained read `d[p0][p1]...`: `None` as soon as one subscript misses a key, an index or the container type |
| Documents.GetLast | setup.py:22 | reading a path is reading its prefix and then subscripting once more, so the chain is read left to right and fails at the first missing step |
| Documents.Set | setup.py:50-56 | the chained assignment `d[p0]...[pn] = v`: the prefix is read, the last container is updated, and the containers on the way are rebuilt around it |
| Documents.Assign | setup.py:50 | after `d[s] = v` succeeds, `d[s]` reads `v` |
| Documents.GetSet | setup.py:50-56 | after `d[p] = v` succeeds, reading `d[p]` gives `v` |
| Documents.GetSetOther | setup.py:50-56 | `d[p] = v` leaves every path disjoint from `p` as it was |
| Documents.SetExisting | setup.py:50-56 | every path that can be read can be assigned |
| Documents.SetIndexExists | setup.py:51-53 | a path that ends in a list index can be assigned only if it can be read |
| Documents.SetSame | setup.py:50-56 | writing the value a path already holds leaves the document unchanged |
| Documents.SetSet | setup.py:52-56 | of two writes to one path, the second wins |
| Documents.SetAnyValue | setup.py:52-56 | a write to a path succeeds with one value exactly when it succeeds with any other: only the path decides |
| Documents.SetCommute | setup.py:52-56 | writes to two disjoint paths commute |
| Setup.ChooseCredential | setup.py:29-34 | typed input is used verbatim; with empty input, the stored credential is kept unless it is the placeholder, and then the generated one is used |
| Setup.HostEntry | setup.py:51 | the entry written at `environment[1]` is `VIRTUAL_HOST=` followed by exactly the domain |
| Setup.CertEntry | setup.py:52-55 | the certificate entry is `LETSENCRYPT_HOST=domain` after exactly `yes`, and `LETSENCRYPT_HOST=` otherwise |
| Setup.EmailEntry | setup.py:53-56 | the e-mail entry is `DEFAULT_EMAIL=email` after exactly `yes`, and `DEFAULT_EMAIL=` otherwise |
| Setup.Provisioned | setup.py:22-56 | the result of a whole run: the credential written at the client id and the three entries written into the service description; it fails only with a shape mismatch, and succeeds only when the stored credential can be read |
| Setup.IsUuid4Text | setup.py:32 | the text of `str(uuid.uuid4())`: 36 characters, hyphens exactly at 8, 13, 18 and 23, lower-case hex elsewhere, version digit `4`, variant digit `8`, `9`, `a` or `b` |
| Setup.Provisioner.constructor | setup.py:14-17 | the provisioner holds the two loaded documents |
| Setup.Provisioner.Run | setup.py:22-56 | the script's step-by-step writes succeed exactly when the specification `Provisioned` does, fail only with a shape mismatch, leave both documents as `Provisioned` describes, and return the chosen credential |
| Setup.Overwrite | setup.py:52-56 | blanking two disjoint positions and then overwriting both leaves the same document as writing the final values directly |
| Setup.ProvisionedWrites | setup.py:50-56 | after a run the client id is the chosen credential, `environment[1]` is `VIRTUAL_HOST=domain`, and the TLS entries are `LETSENCRYPT_HOST=domain` and `DEFAULT_EMAIL=email` after exactly `yes`, or blank otherwise |
| Setup.ProvisionedFrame | setup.py:50-56 | every path that neither leads to nor lies under one of the four written positions reads the same before and after the run, in both documents |
| Setup.ProvisionedSucceeds | setup.py:22-56 | a run fails exactly when one of the four positions cannot be read in the loaded documents, and then only with a shape mismatch |
| Setup.ProvisionedIdempotent | setup.py:30-56 | once the chosen credential is not the placeholder, running again with the same answers returns both documents unchanged, whatever would be generated |
| Setup.FreshIsNotPlaceholder | setup.py:31-32 | the text of a `uuid4` is never the placeholder |
| Setup.FreshCredential | setup.py:30-32 | with empty input and the placeholder stored, the generated credential is chosen, and it is not the placeholder |
| IPv4.CheckNetwork | vmess.py:36 | the strict network check accepts exactly a prefix of at most 32, an address below 2^32 and no host bits set, and reports host bits set only when the rest is well formed |
| IPv4.Hosts | vmess.py:36-37 | the addresses a valid network enumerates: 2^(32−p) of them for a `/p` network, from the network address to the broadcast address |
| IPv4.Pow2Split | vmess.py:36-37 | a `/p` network is one of 2^p equal blocks of the address space |
| IPv4.BroadcastFits | vmess.py:36-37 | the broadcast address of a valid network is below 2^32 |
| IPv4.Expand | vmess.py:35-37 | the append loop collects exactly the network's addresses, in order |
| IPv4.HostsSpan | vmess.py:36-37 | a `/p` network yields 2^(32−p) addresses, strictly ascending from the network address to the broadcast address, and an address is listed exactly when it lies in that span |
| IPv4.Pick | vmess.py:38 | `random.choice` with the draw `k`: the chosen element is one of the list's elements |
| IPv4.PickInNetwork | vmess.py:38 | the picked address belongs to the line's network |
| IPv4.PickReachesAll | vmess.py:38 | every address of the network can be the one picked |
| IPv4.FormatAddress | vmess.py:38 | `str(address)` is a dotted quad of at least seven characters that begins and ends with a digit |
| IPv4.AddressRoundTrip | vmess.py:38 | the dotted quad written for an address reads back as that address |
| IPv4.FormatAddressStripped | vmess.py:38 | `str(address).strip()` equals `str(address)` |
| IPv4.ReadNetwork | vmess.py:36 | a line that reads as a network reads as a valid one |
| IPv4.LineAddress | vmess.py:36-38 | a line yields an address exactly when it reads as a network |
| IPv4.LineAddressInNetwork | vmess.py:36-38 | the address written for a line reads back as an address of that line's network |
| IPv4.ExampleHosts | vmess.py:36-37 | `203.0.113.0/30` passes the strict check and yields its four addresses, .0 through .3 |
| IPv4.ExampleFormat | vmess.py:38 | the first of those is written `203.0.113.0` |
| IPv4.ExampleFormatBroadcast | vmess.py:38 | the last of those is written `203.0.113.3` |
| IPv4.ExampleParse | vmess.py:38 | `203.0.113.0` reads back as that address |
| Vmess.Fields | vmess.py:10-18 | the dict `config_generator` builds: twelve members whose keys are v, ps, add, port, id, aid, net, type, sni, host, path, tls in that order |
| Vmess.Link | vmess.py:10-19 | `config_generator` returns `vmess://` followed by a non-empty encoding |
| Vmess.LinkRoundTrip | vmess.py:10-19 | a link starts with `vmess://`, and decoding the base64, the ASCII and the JSON gives back exactly the twelve members it was built from |
| Vmess.LinkShape | vmess.py:19 | a link is `vmess://` followed by 4·⌈n/3⌉ characters for n bytes of JSON, in the standard alphabet, with `=` only as the final padding |
| Vmess.FieldsKeys | vmess.py:14-18 | the members come in the order v, ps, add, port, id, aid, net, type, sni, host, path, tls, each key once |
| Vmess.FieldsFromInputs | vmess.py:11-17 | `add` is the IP when one is given and the domain otherwise; `ps`, `sni` and `host` are the domain; `id` is the credential |
| Vmess.FieldsFixed | vmess.py:14-18 | v is 2, port 443, aid 0, net ws, type none, path `/` and tls `tls`, whatever the inputs |
| Vmess.LinkFields | vmess.py:10-19 | a client decoding a generated link finds the expected `add`, `ps` and `id` |
| Vmess.ExtractDomain | vmess.py:29 | `entry.split('=')[1]` succeeds exactly when the entry has an `=`, fails otherwise, and never contains an `=` |
| Vmess.ExtractVirtualHost | vmess.py:29 | `VIRTUAL_HOST=domain` gives back the domain when the domain has no `=` |
| Vmess.ExtractCutsAtSecondSeparator | vmess.py:29 | a domain with an `=` of its own comes back cut at that `=` |
| Vmess.ReadInputs | vmess.py:28-29 | the read succeeds exactly when the client id and `environment[1]` both hold strings and that entry contains `=`; it fails with `NoDomainField` exactly when both hold strings but the entry has no `=`, and with `ShapeMismatch` otherwise; on success the credential is the string at the client id and the domain is extracted from `environment[1]` |
| Vmess.LineLink | vmess.py:36-39 | a range line yields a link exactly when it reads as a network |
| Vmess.LineLinkOf | vmess.py:36-39 | the link of a line is built from the picked address of its network, written as a dotted quad |
| Vmess.LineLinks | vmess.py:34-39 | the link of every line on its own: one result per line, and a line's result is a link exactly when that line reads as a network |
| Vmess.CdnLinkInNetwork | vmess.py:36-39 | a CDN link decodes to an address inside the line's network, with the domain as SNI |
| Vmess.CdnLinks | vmess.py:34-39 | the loop returns one link per line, in file order, each the line's own link; at the first line that is not a network it stops, with that line's failure and the links of the lines before it |
| Vmess.Share | vmess.py:28-41 | a read failure yields no link; any answer but exactly `yes` yields the one link addressed to the domain; `yes` without the range file fails; `yes` with it yields the per-line links |
| Pipeline.ReadBack | vmess.py:28-29 | after provisioning, the link generator reads back the chosen credential and the domain |
| Pipeline.DirectLink | vmess.py:40-41 | after provisioning without the CDN, the one link is addressed to the provisioned domain and carries the provisioned credential |
| Pipeline.FreshCredentialInLink | setup.py:30-32 | with empty input and the placeholder stored, the fresh `uuid4` text is what the link generator reads back |

## Left out

- File opening, reading and writing, and `Path` handling: the documents arrive parsed and leave as values.
- `json.load`, `yaml.safe_load`, `json.dumps(config, indent=2)` and `yaml.dump` of the two documents: the model works on the parsed values. The saved text is not modelled, nor is dict key order.
- Non-string scalars (numbers, booleans, null) in the documents: a `Doc` leaf is a string. Every position the scripts touch holds a string.
- Vmess.ReadInputs: a credential stored as something other than a string is a `ShapeMismatch`. Python would pass such a value to `json.dumps`, which would write it as a non-string JSON value.
- Prompts and every `print`, including the summary at setup.py:64-72 and the blank line printed after each CDN link: the answers are parameters, and the printed links are a returned sequence.
- The order of prompts relative to a failed read: `Provisioner.Run` receives all answers up front. The script dies at setup.py:22 before prompting, and that gives the same outcome.
- The flag `sslEnable` (setup.py:8 and 43): it is assigned but never read.
- The randomness of `uuid.uuid4()` and `random.choice`: they are the parameters `generated` and `k`, with no distribution.
- How `IPv4Network` reads text (the address/prefix syntax, netmask forms, a bare address): it is the parameter `read`. Only the strict checks and the enumeration are modelled.
- Splitting the range file into lines: the lines arrive as a sequence, each possibly ending in its newline.
- Setup.Provisioner.Run: after a failed run the contents of the two fields are left unspecified. The script dies before saving anything, so that state is never observed.
- Integer keys in a dict: a dict key is a string. An integer subscript on a dict is a `ShapeMismatch` in the model. In Python, `environment[1] = ...` on an `environment:` written as a mapping adds the integer key 1, and the script completes.
- Setup.ProvisionedSucceeds: states that a run fails when a position cannot be read. That holds when each `environment:` is a list of entries, the layout both scripts address by position. When it is a mapping, Python adds the integer keys instead of failing (see the line above).
- Documents.Get: a string is a leaf, so reading any subscript of it fails with `ShapeMismatch`. Python's `s[i]` returns the i-th character instead. If `environment:` in the service description were a string such as `x=y`, vmess.py:29 would read `"x=y"[1]`, which is `=`, and print links with an empty domain; the model's `ReadInputs` fails there. setup.py cannot write such a document: its assignment at setup.py:51 into a string raises TypeError, as `Set` fails.
- YAML anchors and aliases: a `Doc` is a tree value. Two nodes that `yaml.safe_load` makes into one shared object are two independent values in the model, so a write through one is not seen through the other.
- Lone surrogate code points in Python strings: a Dafny `char` is a Unicode scalar value, so such strings are not represented. Their `\udXXX` escape is not modelled.
