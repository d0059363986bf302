/** Following redirects to pinned addresses, whatever DNS and the servers answer.

    Two resolutions are made for every URL: one when it is checked and one when it is pinned.  The
    answers are arbitrary functions of the number of the call, and so are the servers' replies. */
module PinnedRedirects {
  import opened Options

  // ---------------------------------------------------------------- addresses

  /** `Unparsed` is an answer that is not an IP address. */
  datatype Address = V4(bits: nat) | V6(bits: nat) | Unparsed(text: string)

  /** The addresses of one family whose leading bits are `prefix`; `size` is 2 to the number of other bits. */
  datatype Network = Network(v6: bool, prefix: nat, size: nat)

  const TWO_TO16 := 0x1_0000
  const TWO_TO118: nat := 0x4000_0000_0000_0000 * 0x100_0000_0000_0000
  const TWO_TO121: nat := 8 * TWO_TO118

  const BLOCKED_NETWORKS: seq<Network> := [
    Network(false, 10, 0x100 * TWO_TO16),
    Network(false, 0xAC1, 0x10 * TWO_TO16),
    Network(false, 0xC0A8, TWO_TO16),
    Network(false, 127, 0x100 * TWO_TO16),
    Network(false, 0xA9FE, TWO_TO16),
    Network(true, 1, 1),
    Network(true, 0x7E, TWO_TO121),
    Network(true, 0x3FA, TWO_TO118)
  ]

  predicate InNetwork(a: Address, net: Network) {
    && net.size > 0
    && ((a.V4? && !net.v6 && a.bits / net.size == net.prefix) || (a.V6? && net.v6 && a.bits / net.size == net.prefix))
  }

  predicate Blocked(a: Address) {
    exists i :: 0 <= i < |BLOCKED_NETWORKS| && InNetwork(a, BLOCKED_NETWORKS[i])
  }

  /** An address a connection may go to: it parses, and lies outside every blocked network. */
  predicate Public(a: Address) {
    !a.Unparsed? && !Blocked(a)
  }

  lemma {:induction false} ProductGrows(a: nat, b: nat, size: nat)
    requires a < b
    ensures a * size + size <= b * size
  {
    assert b * size == (b - 1) * size + size;
    if a + 1 < b {
      ProductGrows(a, b - 1, size);
    }
  }

  lemma QuotientIsRange(n: nat, q: nat, r: nat, size: nat, p: nat)
    requires n == q * size + r && r < size
    ensures q == p <==> p * size <= n < p * size + size
  {
    if q < p {
      ProductGrows(q, p, size);
    } else if q > p {
      ProductGrows(p, q, size);
    }
  }

  /** Equal leading bits mean the address lies between the network's first and last address. */
  lemma NetworkIsRange(a: Address, net: Network)
    requires net.size > 0 && !a.Unparsed?
    ensures InNetwork(a, net) <==>
            a.V6? == net.v6 && net.prefix * net.size <= a.bits < net.prefix * net.size + net.size
  {
    QuotientIsRange(a.bits, a.bits / net.size, a.bits % net.size, net.size, net.prefix);
  }

  /** The blocked ranges by first and last address: 10.0.0.0 to 10.255.255.255, 172.16.0.0 to
      172.31.255.255, 192.168.0.0 to 192.168.255.255, 127.0.0.0 to 127.255.255.255 and 169.254.0.0 to
      169.254.255.255; ::1, fc00:: to the last address of fdff::/16 and fe80:: to the last of febf::/16. */
  ghost predicate InBlockedRange(a: Address) {
    || (a.V4? && (|| 0x0A00_0000 <= a.bits <= 0x0AFF_FFFF
                  || 0xAC10_0000 <= a.bits <= 0xAC1F_FFFF
                  || 0xC0A8_0000 <= a.bits <= 0xC0A8_FFFF
                  || 0x7F00_0000 <= a.bits <= 0x7FFF_FFFF
                  || 0xA9FE_0000 <= a.bits <= 0xA9FE_FFFF))
    || (a.V6? && (|| a.bits == 1
                  || 0xFC00_0000_0000_0000_0000_0000_0000_0000 <= a.bits
                     <= 0xFDFF_FFFF_FFFF_FFFF_FFFF_FFFF_FFFF_FFFF
                  || 0xFE80_0000_0000_0000_0000_0000_0000_0000 <= a.bits
                     <= 0xFEBF_FFFF_FFFF_FFFF_FFFF_FFFF_FFFF_FFFF))
  }

  /** An address is blocked exactly when it lies in one of these ranges. */
  lemma BlockedIff(a: Address)
    ensures Blocked(a) <==> InBlockedRange(a)
  {
    if !a.Unparsed? {
      var nets := BLOCKED_NETWORKS;
      forall i | 0 <= i < |nets|
        ensures InNetwork(a, nets[i]) <==>
                a.V6? == nets[i].v6 && nets[i].prefix * nets[i].size <= a.bits
                && a.bits < nets[i].prefix * nets[i].size + nets[i].size
      {
        NetworkIsRange(a, nets[i]);
      }
      assert Blocked(a) <==>
        || InNetwork(a, nets[0]) || InNetwork(a, nets[1]) || InNetwork(a, nets[2]) || InNetwork(a, nets[3])
        || InNetwork(a, nets[4]) || InNetwork(a, nets[5]) || InNetwork(a, nets[6]) || InNetwork(a, nets[7]);
    }
  }

  lemma BlockedRanges()
    ensures forall a :: Blocked(a) <==> InBlockedRange(a)
  {
    forall a ensures Blocked(a) <==> InBlockedRange(a) {
      BlockedIff(a);
    }
  }

  // ---------------------------------------------------------------- targets

  datatype Scheme = Http | Https | OtherScheme

  datatype Port = NoPort | PortNumber(number: nat) | BadPort

  /** A parsed URL.  `literal` is the host read as an address, `startsHttps` what its text begins with. */
  datatype Url = Url(scheme: Scheme, host: string, literal: Option<Address>, port: Port, startsHttps: bool)

  datatype PinnedTarget = PinnedTarget(url: Url, port: nat, ips: seq<Address>)

  predicate IsUrlSafe(url: Url, answer: seq<Address>) {
    && !url.scheme.OtherScheme?
    && url.host != ""
    && (url.literal.Some? ==> !Blocked(url.literal.value))
    && answer != []
    && (forall a :: a in answer && !a.Unparsed? ==> !Blocked(a))
  }

  /** `None` stands for the `ValueError`. */
  function ResolvePinnedTarget(url: Url, checked: seq<Address>, pinned: seq<Address>): (target: Option<PinnedTarget>)
    ensures target.Some? ==>
              target.value.ips == pinned && pinned != [] && forall a :: a in pinned ==> Public(a)
    ensures target.Some? ==> IsUrlSafe(url, checked)
  {
    if !IsUrlSafe(url, checked) || pinned == [] then None
    else if exists i :: 0 <= i < |pinned| && !Public(pinned[i]) then None
    else if url.port.BadPort? then None
    else
      var byDefault := if url.scheme.Https? then 443 else 80;
      var port := if url.port.PortNumber? && url.port.number != 0 then url.port.number else byDefault;
      Some(PinnedTarget(url, port, pinned))
  }

  /** A URL is a target exactly when its scheme is http or https, it has a host, its port is readable,
      no address it names or first resolved to lies in a blocked range, and the second resolution gave
      addresses, all of them readable and outside the blocked ranges. */
  lemma TargetIff(url: Url, checked: seq<Address>, pinned: seq<Address>)
    ensures ResolvePinnedTarget(url, checked, pinned).Some? <==>
            && url.scheme in {Http, Https} && url.host != "" && url.port != BadPort
            && (url.literal.Some? ==> !InBlockedRange(url.literal.value))
            && checked != [] && (forall a :: a in checked ==> !InBlockedRange(a))
            && pinned != [] && (forall a :: a in pinned ==> !a.Unparsed? && !InBlockedRange(a))
  {
    BlockedRanges();
  }

  /** A target keeps the URL and the second resolution; port 0 and no port mean 443 or 80. */
  lemma TargetIs(url: Url, checked: seq<Address>, pinned: seq<Address>)
    requires ResolvePinnedTarget(url, checked, pinned).Some?
    ensures ResolvePinnedTarget(url, checked, pinned).value.url == url
    ensures ResolvePinnedTarget(url, checked, pinned).value.ips == pinned
    ensures var port := ResolvePinnedTarget(url, checked, pinned).value.port;
            || (url.port == PortNumber(port) && port > 0)
            || (url.port in {NoPort, PortNumber(0)} && port == if url.scheme == Https then 443 else 80)
  {
  }

  // ---------------------------------------------------------------- the transport cache

  datatype Key = Key(host: string, port: nat, ssl: bool, ip: Address)

  /** A transport connects to its own address, whatever the request's URL says. */
  datatype Transport = Transport(host: string, ip: Address, port: nat, ssl: bool)

  class TransportCache {
    var cache: map<Key, Transport>

    predicate Valid()
      reads this
    {
      forall key :: key in cache ==>
        cache[key] == Transport(key.host, key.ip, key.port, key.ssl) && Public(key.ip)
    }

    constructor ()
      ensures Valid() && cache == map[]
    {
      cache := map[];
    }

    method PinnedTransportFor(target: PinnedTarget) returns (transport: Transport)
      requires Valid() && target.ips != [] && Public(target.ips[0])
      modifies this
      ensures Valid()
      ensures transport == Transport(target.url.host, target.ips[0], target.port, target.url.startsHttps)
      ensures forall key :: key in old(cache) ==> key in cache && cache[key] == old(cache)[key]
      ensures forall key :: key in cache && key !in old(cache) ==> cache[key] == transport
    {
      var key := Key(target.url.host, target.port, target.url.startsHttps, target.ips[0]);
      if key !in cache {
        cache := cache[key := Transport(target.url.host, target.ips[0], target.port, target.url.startsHttps)];
      }
      transport := cache[key];
    }

    method ClosePinnedTransports()
      modifies this
      ensures Valid() && cache == map[]
    {
      cache := map[];
    }
  }

  // ---------------------------------------------------------------- the redirect loop

  datatype Location = NoLocation | To(url: Url) | Malformed

  /** What a request comes to: `Raised` is any exception of the HTTP client. */
  datatype Reply = Raised | Response(status: int, location: Location)

  const MAX_REDIRECTS := 5

  predicate IsRedirect(r: Reply) {
    r.Response? && r.status in {301, 302, 303, 307, 308} && !r.location.NoLocation?
  }

  datatype Failure = TooManyRedirects | RedirectBlocked | UnexpectedStatus(status: int) | RequestFailed

  datatype Outcome = CheckBlocked | Up(code: int) | Down(failure: Failure)

  /** The `i`th URL of a check, resolved by the DNS calls made for it. */
  function TargetAt(dns: (nat, string) -> seq<Address>, url: Url, i: nat): Option<PinnedTarget> {
    ResolvePinnedTarget(url, dns(2 * i, url.host), dns(2 * i + 1, url.host))
  }

  predicate Leads(serve: nat -> Reply, urls: seq<Url>, i: int)
    requires 0 < i < |urls|
  {
    && serve(i - 1).Response? && serve(i - 1).status in {301, 302, 303, 307, 308}
    && serve(i - 1).location == To(urls[i])
  }

  /** A chain of URLs, each resolved and each but the first given by the redirect before it. */
  predicate Chain(dns: (nat, string) -> seq<Address>, serve: nat -> Reply, url: Url, urls: seq<Url>) {
    && |urls| > 0 && urls[0] == url
    && (forall i :: 0 <= i < |urls| ==> TargetAt(dns, urls[i], i).Some?)
    && (forall i :: 0 < i < |urls| ==> Leads(serve, urls, i))
  }

  /** What the end of a chain means for the check. */
  ghost predicate Ends(
    dns: (nat, string) -> seq<Address>, serve: nat -> Reply, urls: seq<Url>, codes: set<int>, outcome: Outcome)
    requires |urls| > 0
  {
    var last := serve(|urls| - 1);
    if last.Raised? then outcome == Down(RequestFailed)
    else if last.status !in {301, 302, 303, 307, 308} || last.location.NoLocation? then
      outcome ==
        if last.status in codes || (codes == {} && last.status == 200) then Up(last.status)
        else Down(UnexpectedStatus(last.status))
    else if |urls| > 5 then outcome == Down(TooManyRedirects)
    else if last.location.Malformed? then outcome == Down(RequestFailed)
    else TargetAt(dns, last.location.url, |urls|).None? && outcome == Down(RedirectBlocked)
  }

  /** Some chain within the redirect limit ends in a response that is no redirect and is expected. */
  ghost predicate ReachesExpected(
    dns: (nat, string) -> seq<Address>, serve: nat -> Reply, url: Url, codes: set<int>, urls: seq<Url>)
  {
    && Chain(dns, serve, url, urls) && |urls| <= 6
    && (var last := serve(|urls| - 1);
        && last.Response? && (last.status in codes || (codes == {} && last.status == 200))
        && (last.status !in {301, 302, 303, 307, 308} || last.location.NoLocation?))
  }

  lemma {:induction false} ChainsAgree(
    dns: (nat, string) -> seq<Address>, serve: nat -> Reply, url: Url, a: seq<Url>, b: seq<Url>, i: nat)
    requires Chain(dns, serve, url, a) && Chain(dns, serve, url, b) && i < |a| && i < |b|
    ensures a[i] == b[i]
  {
    if i > 0 {
      assert Leads(serve, a, i) && Leads(serve, b, i);
    }
  }

  lemma NextHop(
    dns: (nat, string) -> seq<Address>, serve: nat -> Reply, url: Url, urls: seq<Url>, next: Url)
    requires Chain(dns, serve, url, urls) && IsRedirect(serve(|urls| - 1))
    requires serve(|urls| - 1).location == To(next) && TargetAt(dns, next, |urls|).Some?
    ensures Chain(dns, serve, url, urls + [next])
  {
    var longer := urls + [next];
    forall i | 0 < i < |longer| ensures Leads(serve, longer, i) {
      assert i < |urls| ==> Leads(serve, urls, i);
    }
    forall i | 0 <= i < |longer| ensures TargetAt(dns, longer[i], i).Some? {
      assert i < |urls| ==> TargetAt(dns, urls[i], i).Some?;
    }
  }

  lemma InnerRedirect(
    dns: (nat, string) -> seq<Address>, serve: nat -> Reply, url: Url, urls: seq<Url>, i: nat)
    requires Chain(dns, serve, url, urls) && i < |urls| - 1
    ensures IsRedirect(serve(i)) && serve(i).location == To(urls[i + 1])
    ensures TargetAt(dns, urls[i + 1], i + 1).Some?
  {
    assert Leads(serve, urls, i + 1);
  }

  /** Only one chain can end: any other one that ends the check as up has its length. */
  lemma EndIsUnique(
    dns: (nat, string) -> seq<Address>, serve: nat -> Reply, url: Url, codes: set<int>,
    urls: seq<Url>, other: seq<Url>, outcome: Outcome)
    requires Chain(dns, serve, url, urls) && |urls| <= 6 && Ends(dns, serve, urls, codes, outcome)
    requires ReachesExpected(dns, serve, url, codes, other)
    ensures |other| == |urls| && outcome.Up?
  {
    if |other| < |urls| {
      InnerRedirect(dns, serve, url, urls, |other| - 1);
    } else if |urls| < |other| {
      InnerRedirect(dns, serve, url, other, |urls| - 1);
    }
  }

  /** A check whose chain ended is up exactly when some chain reaches an expected response. */
  lemma UpIffReached(
    dns: (nat, string) -> seq<Address>, serve: nat -> Reply, url: Url, codes: set<int>,
    urls: seq<Url>, outcome: Outcome)
    requires Chain(dns, serve, url, urls) && |urls| <= 6 && Ends(dns, serve, urls, codes, outcome)
    ensures outcome.Up? <==> exists reached :: ReachesExpected(dns, serve, url, codes, reached)
  {
    if outcome.Up? {
      assert ReachesExpected(dns, serve, url, codes, urls);
    }
    forall other | ReachesExpected(dns, serve, url, codes, other) ensures outcome.Up? {
      EndIsUnique(dns, serve, url, codes, urls, other, outcome);
    }
  }

  /** One connection, and the DNS call whose answer it was pinned to. */
  datatype Connection = Connection(ip: Address, host: string, call: nat)

  ghost predicate Pinned(dns: (nat, string) -> seq<Address>, c: Connection) {
    && c.ip in dns(c.call, c.host)
    && forall a :: a in dns(c.call, c.host) ==> !a.Unparsed? && !InBlockedRange(a)
  }

  /** Request `i` went to the first address that the chain's `i`th URL was pinned to. */
  ghost predicate Connects(dns: (nat, string) -> seq<Address>, urls: seq<Url>, connections: seq<Connection>) {
    && |connections| <= |urls|
    && (forall i :: 0 <= i < |connections| ==>
          && TargetAt(dns, urls[i], i).Some?
          && connections[i] == Connection(TargetAt(dns, urls[i], i).value.ips[0], urls[i].host, 2 * i + 1))
  }

  lemma NextConnection(
    dns: (nat, string) -> seq<Address>, urls: seq<Url>, connections: seq<Connection>, next: Connection)
    requires Connects(dns, urls, connections) && |urls| == |connections| + 1
    requires TargetAt(dns, urls[|connections|], |connections|).Some?
    requires next == Connection(TargetAt(dns, urls[|connections|], |connections|).value.ips[0],
                                urls[|connections|].host, 2 * |connections| + 1)
    ensures Connects(dns, urls, connections + [next])
    ensures forall url :: Connects(dns, urls + [url], connections + [next])
  {
  }

  /** A request that went to a pinned address connected outside every blocked range. */
  lemma ConnectsPinned(dns: (nat, string) -> seq<Address>, urls: seq<Url>, connections: seq<Connection>)
    requires Connects(dns, urls, connections)
    ensures forall i :: 0 <= i < |connections| ==> Pinned(dns, connections[i])
  {
    BlockedRanges();
  }

  class Prober {
    const transports: TransportCache

    constructor (transports: TransportCache)
      ensures this.transports == transports
    {
      this.transports := transports;
    }

    /** At most six requests are sent, each to an address of a resolution that is public throughout,
        cached transports included; the check is up exactly when following the redirects reaches an
        expected response. */
    method Probe(url: Url, expectedCodes: set<int>, dns: (nat, string) -> seq<Address>, serve: nat -> Reply)
      returns (outcome: Outcome, connections: seq<Connection>)
      requires transports.Valid()
      modifies transports
      ensures transports.Valid()
      ensures |connections| <= 6
      ensures forall i :: 0 <= i < |connections| ==> Pinned(dns, connections[i])
      ensures outcome.CheckBlocked? <==> TargetAt(dns, url, 0).None?
      ensures outcome.CheckBlocked? <==> connections == []
      ensures connections != [] ==>
                exists urls ::
                  && Chain(dns, serve, url, urls) && |urls| == |connections| && Connects(dns, urls, connections)
                  && Ends(dns, serve, urls, expectedCodes, outcome)
      ensures outcome.Up? <==>
              exists urls :: ReachesExpected(dns, serve, url, expectedCodes, urls)
    {
      connections := [];
      var target := TargetAt(dns, url, 0);
      if target.None? {
        return CheckBlocked, [];
      }
      ghost var urls := [url];
      var redirects := 0;
      while true
        invariant redirects <= MAX_REDIRECTS && |urls| == redirects + 1 == |connections| + 1
        invariant transports.Valid() && Chain(dns, serve, url, urls)
        invariant target == TargetAt(dns, urls[redirects], redirects) && target.Some?
        invariant Connects(dns, urls, connections)
        decreases MAX_REDIRECTS - redirects
      {
        var transport := transports.PinnedTransportFor(target.value);
        var connection := Connection(transport.ip, target.value.url.host, 2 * redirects + 1);
        NextConnection(dns, urls, connections, connection);
        connections := connections + [connection];
        var reply := serve(redirects);
        if reply.Raised? {
          outcome := Down(RequestFailed);
          break;
        }
        if !IsRedirect(reply) {
          outcome :=
            if reply.status in Expected(expectedCodes) then Up(reply.status)
            else Down(UnexpectedStatus(reply.status));
          break;
        }
        if redirects >= MAX_REDIRECTS {
          outcome := Down(TooManyRedirects);
          break;
        }
        if reply.location.Malformed? {
          outcome := Down(RequestFailed);
          break;
        }
        target := TargetAt(dns, reply.location.url, redirects + 1);
        if target.None? {
          outcome := Down(RedirectBlocked);
          break;
        }
        NextHop(dns, serve, url, urls, reply.location.url);
        urls := urls + [reply.location.url];
        redirects := redirects + 1;
      }
      ConnectsPinned(dns, urls, connections);
      UpIffReached(dns, serve, url, expectedCodes, urls, outcome);
    }
  }

  function Expected(codes: set<int>): set<int> {
    if codes == {} then {200} else codes
  }
}
