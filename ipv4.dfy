/** The IPv4 side of the share-link generator, vmess.py:34-38: a line of the
    range file is stripped and read as a network (`ipaddress.IPv4Network`,
    strict), the network is enumerated from its network address to its
    broadcast address (section 3.1 of RFC 4632), and one address of it is
    picked and written in dotted-quad form. Addresses are naturals below 2^32. */
module IPv4 {
  import opened Results
  import opened Text

  /** The number of IPv4 addresses. */
  const Space: nat := 0x1_0000_0000

  function Pow2(n: nat): (r: nat)
    ensures r >= 1
  {
    if n == 0 then 1 else 2 * Pow2(n - 1)
  }

  lemma {:induction false} Pow2Add(a: nat, b: nat)
    ensures Pow2(a + b) == Pow2(a) * Pow2(b)
    decreases a
  {
    if a > 0 {
      Pow2Add(a - 1, b);
      assert Pow2(a + b) == 2 * Pow2(a - 1 + b);
    }
  }

  lemma Pow2Of32()
    ensures Pow2(32) == Space
  {
    assert Pow2(8) == 256;
    assert Pow2(16) == 65536 by { Pow2Add(8, 8); }
    Pow2Add(16, 16);
  }

  /** A network `address/prefix` as `IPv4Network` accepts it in strict mode. */
  datatype Network = Network(address: nat, prefix: nat)

  /** The number of addresses of a `/prefix` network. */
  function Size(prefix: nat): nat
    requires prefix <= 32
  {
    Pow2(32 - prefix)
  }

  predicate Valid(n: Network)
  {
    n.prefix <= 32 && n.address < Space && n.address % Size(n.prefix) == 0
  }

  function Broadcast(n: Network): nat
    requires Valid(n)
  {
    n.address + Size(n.prefix) - 1
  }

  /** The checks `IPv4Network(text)` makes once the text has been read as an
      address and a prefix length: the prefix is at most 32, the address fits
      in 32 bits, and no bit below the prefix is set. */
  function CheckNetwork(address: nat, prefix: nat): (r: Result<Network>)
    ensures r.Ok? <==> prefix <= 32 && address < Space && address % Pow2(32 - prefix) == 0
    ensures r.Ok? ==> Valid(r.value) && r.value == Network(address, prefix)
    ensures r.Err? ==> (r.error == HostBitsSet <==> prefix <= 32 && address < Space)
  {
    if prefix > 32 || address >= Space then Err(MalformedRange)
    else if address % Pow2(32 - prefix) != 0 then Err(HostBitsSet)
    else Ok(Network(address, prefix))
  }

  /** A block of `size` addresses starting at a multiple of `size` ends inside
      any multiple of `size` that lies above its start. */
  lemma BlockFits(address: nat, size: nat, blocks: nat)
    requires size > 0 && address % size == 0 && address < blocks * size
    ensures address + size <= blocks * size
  {
    assert blocks * size == size * blocks;
    var q := address / size;
    assert address == size * q;
    if blocks <= q {
      MulMono(size, blocks, q);
      assert false;
    }
    MulMono(size, q + 1, blocks);
  }

  lemma MulMono(a: nat, b: nat, c: nat)
    requires b <= c
    ensures a * b <= a * c
  {
    assert a * c == a * b + a * (c - b);
  }

  /** A `/p` network is one of 2^p equal blocks of the address space. */
  lemma Pow2Split(p: nat)
    requires p <= 32
    ensures Pow2(p) * Size(p) == Space
  {
    Pow2Add(p, 32 - p);
    Pow2Of32();
  }

  lemma ModSmall(i: nat, m: nat)
    requires i < m
    ensures i % m == i
  {
  }

  /** A valid network lies wholly inside the address space. */
  lemma BroadcastFits(n: Network)
    requires Valid(n)
    ensures Broadcast(n) < Space
  {
    Pow2Split(n.prefix);
    BlockFits(n.address, Size(n.prefix), Pow2(n.prefix));
  }

  /** The addresses of a network in ascending order, network to broadcast. */
  function Hosts(n: Network): (r: seq<nat>)
    requires Valid(n)
    ensures |r| == Size(n.prefix) && r[0] == n.address && r[|r| - 1] == Broadcast(n)
  {
    seq(Size(n.prefix), i requires 0 <= i < Size(n.prefix) => n.address + i)
  }

  /** vmess.py:35-37: collect the network's addresses into a list, one at a
      time, as iterating an `IPv4Network` yields them. */
  method Expand(n: Network) returns (addrs: seq<nat>)
    requires Valid(n)
    ensures addrs == Hosts(n)
  {
    addrs := [];
    var x := n.address;
    var last := Broadcast(n);
    while x <= last
      invariant n.address <= x <= last + 1
      invariant |addrs| == x - n.address
      invariant forall i :: 0 <= i < |addrs| ==> addrs[i] == n.address + i
      decreases last + 1 - x
    {
      addrs := addrs + [x];
      x := x + 1;
    }
  }

  /** A `/p` network has 2^(32-p) addresses in strictly ascending order, from
      the network address to the broadcast address, all of them in the
      address space; an address is listed exactly when it lies in that span. */
  lemma HostsSpan(n: Network)
    requires Valid(n)
    ensures |Hosts(n)| == Pow2(32 - n.prefix)
    ensures Hosts(n)[0] == n.address && Hosts(n)[|Hosts(n)| - 1] == Broadcast(n)
    ensures forall i, j :: 0 <= i < j < |Hosts(n)| ==> Hosts(n)[i] < Hosts(n)[j]
    ensures forall x :: x in Hosts(n) <==> n.address <= x <= Broadcast(n)
    ensures forall x :: x in Hosts(n) ==> x < Space
  {
    BroadcastFits(n);
    var h := Hosts(n);
    forall x | n.address <= x <= Broadcast(n)
      ensures x in h
    {
      assert h[x - n.address] == x;
    }
  }

  /** `random.choice(list)` with the random draw given as `k`. */
  function Pick(addrs: seq<nat>, k: nat): (x: nat)
    requires |addrs| > 0
    ensures x in addrs
  {
    addrs[k % |addrs|]
  }

  /** The picked address always belongs to the line's network. */
  lemma PickInNetwork(n: Network, k: nat)
    requires Valid(n)
    ensures n.address <= Pick(Hosts(n), k) <= Broadcast(n)
    ensures Pick(Hosts(n), k) < Space
  {
    BroadcastFits(n);
    var h := Hosts(n);
    var i := k % |h|;
    assert Pick(h, k) == n.address + i;
  }

  /** Every address of the network can be the one picked. */
  lemma PickReachesAll(n: Network, x: nat)
    requires Valid(n) && n.address <= x <= Broadcast(n)
    ensures Pick(Hosts(n), x - n.address) == x
  {
    var h, i := Hosts(n), x - n.address;
    ModSmall(i, |h|);
  }

  // ---------------------------------------------------------------------------
  // str(IPv4Address) and its reading

  /** The four octets, most significant first, each below 256. */
  function Octets(x: nat): seq<nat>
  {
    [x / 256 / 256 / 256, x / 256 / 256 % 256, x / 256 % 256, x % 256]
  }

  /** `str(IPv4Address(x))`: four decimal octets joined by dots. */
  function FormatAddress(x: nat): (r: string)
    requires x < Space
    ensures |r| >= 7 && IsDigit(r[0]) && IsDigit(r[|r| - 1])
  {
    var o := Octets(x);
    var d0, d1, d2, d3 := Decimal(o[0]), Decimal(o[1]), Decimal(o[2]), Decimal(o[3]);
    assert [d0, d1, d2, d3][1..] == [d1, d2, d3];
    assert [d1, d2, d3][1..] == [d2, d3];
    assert [d2, d3][1..] == [d3];
    assert Join([d3], '.') == d3;
    var j2 := Join([d2, d3], '.');
    var j1 := Join([d1, d2, d3], '.');
    assert j2 == d2 + ['.'] + d3;
    assert j1 == d1 + ['.'] + j2;
    var s := Join([d0, d1, d2, d3], '.');
    assert s == d0 + ['.'] + j1;
    assert s[0] == d0[0] && s[|s| - 1] == d3[|d3| - 1];
    Join([d0, d1, d2, d3], '.')
  }

  /** One octet as `IPv4Address` reads it: decimal digits, no leading zero,
      at most 255. */
  function ParseOctet(s: string): (r: Option<nat>)
    ensures r.Some? ==> r.value < 256
  {
    match ParseDecimal(s)
    case Some(v) => if v <= 255 then Some(v) else None
    case None => None
  }

  /** `IPv4Address(s)` for the dotted-quad form: exactly four octets. */
  function ParseAddress(s: string): (r: Option<nat>)
    ensures r.Some? ==> r.value < Space
  {
    var parts := Split(s, '.');
    if |parts| != 4 then None
    else
      match (ParseOctet(parts[0]), ParseOctet(parts[1]), ParseOctet(parts[2]), ParseOctet(parts[3]))
      case (Some(a), Some(b), Some(c), Some(d)) => Some(((a * 256 + b) * 256 + c) * 256 + d)
      case _ => None
  }

  lemma DecimalOctet(v: nat)
    requires v < 256
    ensures ParseOctet(Decimal(v)) == Some(v)
    ensures '.' !in Decimal(v)
  {
    DecimalRoundTrip(v);
    var d := Decimal(v);
    assert forall i :: 0 <= i < |d| ==> d[i] != '.';
  }

  lemma OctetsValue(x: nat)
    requires x < Space
    ensures Octets(x)[0] < 256
    ensures ((Octets(x)[0] * 256 + Octets(x)[1]) * 256 + Octets(x)[2]) * 256 + Octets(x)[3] == x
  {
    var q1 := x / 256;
    var q2 := q1 / 256;
    var q3 := q2 / 256;
    assert x == q1 * 256 + x % 256;
    assert q1 == q2 * 256 + q1 % 256;
    assert q2 == q3 * 256 + q2 % 256;
  }

  /** Reading back a formatted address gives the address. */
  lemma AddressRoundTrip(x: nat)
    requires x < Space
    ensures ParseAddress(FormatAddress(x)) == Some(x)
  {
    var o := Octets(x);
    OctetsValue(x);
    var parts := [Decimal(o[0]), Decimal(o[1]), Decimal(o[2]), Decimal(o[3])];
    DecimalOctet(o[0]);
    DecimalOctet(o[1]);
    DecimalOctet(o[2]);
    DecimalOctet(o[3]);
    SplitJoin(parts, '.');
  }

  /** `str(address).strip()` is `str(address)`: it starts and ends with a digit. */
  lemma FormatAddressStripped(x: nat)
    requires x < Space
    ensures Strip(FormatAddress(x)) == FormatAddress(x)
  {
    var s := FormatAddress(x);
    StripLine(s, "");
    assert s + "" == s;
  }

  // ---------------------------------------------------------------------------
  // One line of the range file

  /** vmess.py:36: the stripped line read as a network. How `IPv4Network`
      turns text into an address and a prefix length is the parameter `read`
      (`None` for text it cannot read); the strict checks are modelled. */
  function ReadNetwork(read: string -> Option<(nat, nat)>, line: string): (r: Result<Network>)
    ensures r.Ok? ==> Valid(r.value)
  {
    match read(Strip(line))
    case None => Err(MalformedRange)
    case Some((address, prefix)) => CheckNetwork(address, prefix)
  }

  /** vmess.py:36-38: the address picked for one line, as `str` writes it. */
  function LineAddress(read: string -> Option<(nat, nat)>, line: string, k: nat): (r: Result<string>)
    ensures r.Ok? <==> ReadNetwork(read, line).Ok?
  {
    match ReadNetwork(read, line)
    case Err(e) => Err(e)
    case Ok(n) =>
      PickInNetwork(n, k);
      Ok(FormatAddress(Pick(Hosts(n), k)))
  }

  /** The address written for a line reads back as an address of its network. */
  lemma LineAddressInNetwork(read: string -> Option<(nat, nat)>, line: string, k: nat)
    requires LineAddress(read, line, k).Ok?
    ensures var n := ReadNetwork(read, line).value;
      ParseAddress(LineAddress(read, line, k).value).Some? &&
      n.address <= ParseAddress(LineAddress(read, line, k).value).value <= Broadcast(n)
  {
    var n := ReadNetwork(read, line).value;
    PickInNetwork(n, k);
    AddressRoundTrip(Pick(Hosts(n), k));
  }

  // ---------------------------------------------------------------------------
  // A worked example

  /** `203.0.113.0` reads as the address 3405803776. */
  lemma ExampleParse()
    ensures ParseAddress("203.0.113.0") == Some(3405803776)
  {
    ExampleFormat();
    AddressRoundTrip(3405803776);
  }

  /** `203.0.113.0/30` passes the strict check and yields 203.0.113.0
      through 203.0.113.3. */
  lemma ExampleHosts()
    ensures CheckNetwork(3405803776, 30) == Ok(Network(3405803776, 30))
    ensures Hosts(Network(3405803776, 30)) == [3405803776, 3405803777, 3405803778, 3405803779]
  {
    assert Pow2(2) == 4;
    assert Size(30) == 4;
    var h := Hosts(Network(3405803776, 30));
    assert |h| == 4 && h[0] == 3405803776 && h[3] == 3405803779;
  }

  /** The network address of that network is written `203.0.113.0`. */
  lemma ExampleFormat()
    ensures FormatAddress(3405803776) == "203.0.113.0"
  {
    assert Octets(3405803776) == [203, 0, 113, 0];
    assert Decimal(203) == "203" && Decimal(113) == "113" && Decimal(0) == "0";
    assert Join(["203", "0", "113", "0"], '.') == "203.0.113.0";
  }

  /** Its broadcast address is written `203.0.113.3`. */
  lemma ExampleFormatBroadcast()
    ensures FormatAddress(3405803779) == "203.0.113.3"
  {
    assert Octets(3405803779) == [203, 0, 113, 3];
    assert Decimal(203) == "203" && Decimal(113) == "113" && Decimal(0) == "0" && Decimal(3) == "3";
    assert Join(["203", "0", "113", "3"], '.') == "203.0.113.3";
  }
}
