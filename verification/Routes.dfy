/** Overlay routing: which networks a certificate authorises, and the table that
    finds the peer for a destination. */
module Routes {
  import opened Bits
  import opened Types

  /** An address with a prefix length; host bits may be set. */
  datatype Net = Net(ip: Ip, prefix: nat)

  function Width(ip: Ip): nat {
    if ip.V4? then 32 else 128
  }

  function Number(ip: Ip): nat {
    match ip case V4(n) => n case V6(n) => n
  }

  predicate SameFamily(a: Ip, b: Ip) {
    a.V4? <==> b.V4?
  }

  /** The address bits below the prefix. */
  function HostBits(net: Net): nat {
    if net.prefix <= Width(net.ip) then Width(net.ip) - net.prefix else 0
  }

  predicate Contains(net: Net, ip: Ip) {
    SameFamily(net.ip, ip) && Shr(Number(ip), HostBits(net)) == Shr(Number(net.ip), HostBits(net))
  }

  /** An address of its family's width. */
  predicate Proper(ip: Ip) {
    Number(ip) < Pow2(Width(ip))
  }

  /** A network with a prefix no longer than its addresses. */
  predicate Sound(net: Net) {
    net.prefix <= Width(net.ip) && Proper(net.ip)
  }

  /** Of the address digits, the first `prefix` agree. */
  ghost predicate SamePrefix(net: Net, ip: Ip) {
    forall k: nat | Width(net.ip) - net.prefix <= k < Width(net.ip) :: Bit(Number(ip), k) == Bit(Number(net.ip), k)
  }

  /** A network contains exactly the addresses of its family whose first `prefix` binary
      digits are its own. */
  lemma ContainsExactly(net: Net, ip: Ip)
    requires Sound(net) && Proper(ip)
    ensures Contains(net, ip) <==> SameFamily(net.ip, ip) && SamePrefix(net, ip)
  {
    if SameFamily(net.ip, ip) {
      var n := HostBits(net);
      ShrEqualExactly(Number(ip), Number(net.ip), n);
      if SamePrefix(net, ip) {
        forall k: nat | n <= k
          ensures Bit(Number(ip), k) == Bit(Number(net.ip), k)
        {
          if Width(net.ip) <= k {
            NoHighBit(Number(ip), Width(net.ip), k);
            NoHighBit(Number(net.ip), Width(net.ip), k);
          }
        }
      }
    }
  }

  /** A host route contains its own address and no other. */
  lemma HostRouteIsExact(net: Net, ip: Ip)
    requires Proper(net.ip) && Proper(ip)
    ensures Contains(HostRoute(net), ip) <==> ip == net.ip
  {
    ContainsExactly(HostRoute(net), ip);
    ContainsExactly(HostRoute(net), net.ip);
    ShrEqualExactly(Number(ip), Number(net.ip), 0);
  }

  /** The default route of a family contains all of it. */
  lemma DefaultRouteIsTotal(net: Net, ip: Ip)
    requires Proper(net.ip) && Proper(ip) && net.prefix == 0
    ensures Contains(net, ip) <==> SameFamily(net.ip, ip)
  {
    ContainsExactly(net, ip);
  }

  /** A network address proper: its host bits are zero. */
  predicate Canonical(net: Net) {
    net.prefix <= Width(net.ip) && Number(net.ip) == Shr(Number(net.ip), HostBits(net)) * Pow2(HostBits(net))
  }

  lemma CanonicalIsUnique(a: Net, b: Net, ip: Ip)
    requires Canonical(a) && Canonical(b) && a.prefix == b.prefix
    requires Contains(a, ip) && Contains(b, ip)
    ensures a == b
  {
    assert HostBits(a) == HostBits(b);
    assert Number(a.ip) == Number(b.ip);
  }

  // ------------------------------------------------ the table

  type Table = seq<(Net, Id)>

  /** What a `retain` removes: one network, or everything of one peer. */
  datatype Unwanted = OfNet(net: Net) | OfPeer(peer: Id)

  predicate Keeps(u: Unwanted, net: Net, peer: Id) {
    match u case OfNet(n) => net != n case OfPeer(p) => peer != p
  }

  /** `retain`: the entries that are not unwanted, in order. */
  function Retain(routes: Table, u: Unwanted): Table {
    if routes == [] then []
    else
      var last := routes[|routes| - 1];
      Retain(routes[..|routes| - 1], u) + (if Keeps(u, last.0, last.1) then [last] else [])
  }

  /** Entry i is the best match: no longer prefix contains the address, and among
      equally long ones it is the last in the table. */
  ghost predicate BestMatch(routes: Table, ip: Ip, i: nat)
    requires i < |routes|
  {
    && Contains(routes[i].0, ip)
    && forall j | 0 <= j < |routes| && Contains(routes[j].0, ip) ::
         routes[j].0.prefix < routes[i].0.prefix || (routes[j].0.prefix == routes[i].0.prefix && j <= i)
  }

  ghost predicate IsLookup(routes: Table, ip: Ip, r: Option<Id>) {
    match r
    case None => forall j | 0 <= j < |routes| :: !Contains(routes[j].0, ip)
    case Some(id) => exists i | 0 <= i < |routes| :: BestMatch(routes, ip, i) && routes[i].1 == id
  }

  class RouteTable {
    var routes: Table
    ghost var ops: seq<Op>

    /** The table is what its history of insertions and removals makes of it. */
    ghost predicate Valid()
      reads this
    {
      routes == TableAfter(ops)
    }

    constructor ()
      ensures Valid() && ops == []
    {
      routes, ops := [], [];
    }

    /** The network now belongs to this peer, as the newest entry; who holds any other
        network is unchanged. */
    method Insert(net: Net, peer: Id)
      requires Valid()
      modifies this
      ensures Valid() && ops == old(ops) + [InsertRoute(net, peer)]
      ensures Holders(ops) == old(Holders(ops))[net := Holder(peer, |ops|)]
    {
      routes := Retain(routes, OfNet(net));
      routes := routes + [(net, peer)];
      ops := ops + [InsertRoute(net, peer)];
      assert ops[..|ops| - 1] == old(ops);
    }

    /** The peer holds nothing any more; every other network keeps its holder and its
        place. */
    method RemovePeer(peer: Id)
      requires Valid()
      modifies this
      ensures Valid() && ops == old(ops) + [DropPeer(peer)]
      ensures forall net :: net in Holders(ops) <==> net in old(Holders(ops)) && old(Holders(ops))[net].peer != peer
      ensures forall net | net in Holders(ops) :: Holders(ops)[net] == old(Holders(ops))[net]
    {
      routes := Retain(routes, OfPeer(peer));
      ops := ops + [DropPeer(peer)];
      assert ops[..|ops| - 1] == old(ops);
    }

    /** The holder of the longest network that contains the address, the latest among
        equally long ones; nothing exactly when no held network contains it. */
    method Lookup(ip: Ip) returns (r: Option<Id>)
      requires Valid()
      ensures FindsLongest(Holders(ops), ip, r)
    {
      r := FindBest(routes, ip);
      LookupIsLongestPrefix(ops, ip, r);
    }
  }

  /** One pass over the table: `filter`, then `max_by_key`, which keeps the last maximum. */
  method FindBest(routes: Table, ip: Ip) returns (r: Option<Id>)
    ensures IsLookup(routes, ip, r)
  {
    var best: Option<nat> := None;
    for i := 0 to |routes|
      invariant best.None? ==> forall j | 0 <= j < i :: !Contains(routes[j].0, ip)
      invariant best.Some? ==> best.value < i && BestMatch(routes[..i], ip, best.value)
    {
      if Contains(routes[i].0, ip) && (best.None? || routes[i].0.prefix >= routes[best.value].0.prefix) {
        best := Some(i);
      }
    }
    assert routes[..|routes|] == routes;
    r := match best case None => None case Some(i) => Some(routes[i].1);
  }

  // ------------------------------------------------ every run of insertions and removals

  datatype Op = InsertRoute(net: Net, peer: Id) | DropPeer(peer: Id)

  ghost function TableAfter(ops: seq<Op>): Table {
    if ops == [] then []
    else
      var before := TableAfter(ops[..|ops| - 1]);
      match ops[|ops| - 1]
      case InsertRoute(net, peer) => Retain(before, OfNet(net)) + [(net, peer)]
      case DropPeer(peer) => Retain(before, OfPeer(peer))
  }

  /** The reference: who holds a network, and which operation gave it to them. */
  datatype Holder = Holder(peer: Id, stamp: nat)

  ghost function RetainHolders(holders: map<Net, Holder>, u: Unwanted): map<Net, Holder> {
    map n | n in holders && Keeps(u, n, holders[n].peer) :: holders[n]
  }

  ghost function Holders(ops: seq<Op>): map<Net, Holder> {
    if ops == [] then map[]
    else
      var before := Holders(ops[..|ops| - 1]);
      match ops[|ops| - 1]
      case InsertRoute(net, peer) => before[net := Holder(peer, |ops|)]
      case DropPeer(peer) => RetainHolders(before, OfPeer(peer))
  }

  /** The table lists exactly the holders, oldest insertion first. */
  ghost predicate Lists(routes: Table, holders: map<Net, Holder>) {
    && (forall i | 0 <= i < |routes| :: routes[i].0 in holders && holders[routes[i].0].peer == routes[i].1)
    && (forall i, j | 0 <= i < j < |routes| :: holders[routes[i].0].stamp < holders[routes[j].0].stamp)
    && (forall n | n in holders :: Listed(routes, n))
  }

  ghost predicate Listed(routes: Table, net: Net) {
    exists i | 0 <= i < |routes| :: routes[i].0 == net
  }

  lemma ListsWithoutLast(routes: Table, holders: map<Net, Holder>)
    requires routes != [] && Lists(routes, holders)
    ensures var n := |routes| - 1;
            && Lists(routes[..n], holders - {routes[n].0})
            && forall m | m in holders - {routes[n].0} :: holders[m].stamp < holders[routes[n].0].stamp
  {
    var n := |routes| - 1;
    forall m | m in holders - {routes[n].0}
      ensures Listed(routes[..n], m) && holders[m].stamp < holders[routes[n].0].stamp
    {
      var i :| 0 <= i < |routes| && routes[i].0 == m;
      assert routes[..n][i].0 == m;
    }
  }

  lemma ListsWithOneMore(routes: Table, holders: map<Net, Holder>, net: Net, h: Holder)
    requires Lists(routes, holders) && net !in holders
    requires forall m | m in holders :: holders[m].stamp < h.stamp
    ensures Lists(routes + [(net, h.peer)], holders[net := h])
  {
    var routes', holders' := routes + [(net, h.peer)], holders[net := h];
    forall m | m in holders'
      ensures Listed(routes', m)
    {
      if m == net {
        assert routes'[|routes|].0 == net;
      } else {
        assert Listed(routes, m);
        var i :| 0 <= i < |routes| && routes[i].0 == m;
        assert routes'[i].0 == m;
      }
    }
  }

  lemma {:induction false} RetainLists(routes: Table, holders: map<Net, Holder>, u: Unwanted)
    requires Lists(routes, holders)
    ensures Lists(Retain(routes, u), RetainHolders(holders, u))
    decreases |routes|
  {
    if routes == [] {
      assert forall m | m in holders :: Listed(routes, m);
      assert RetainHolders(holders, u) == map[];
    } else {
      var n := |routes| - 1;
      ListsWithoutLast(routes, holders);
      RetainLists(routes[..n], holders - {routes[n].0}, u);
      RetainOneMore(Retain(routes[..n], u), holders, u, routes[n]);
    }
  }

  lemma RetainOneMore(kept: Table, holders: map<Net, Holder>, u: Unwanted, last: (Net, Id))
    requires last.0 in holders && holders[last.0].peer == last.1
    requires Lists(kept, RetainHolders(holders - {last.0}, u))
    requires forall m | m in holders - {last.0} :: holders[m].stamp < holders[last.0].stamp
    ensures Lists(kept + (if Keeps(u, last.0, last.1) then [last] else []), RetainHolders(holders, u))
  {
    var rest := RetainHolders(holders - {last.0}, u);
    if Keeps(u, last.0, last.1) {
      ListsWithOneMore(kept, rest, last.0, holders[last.0]);
      assert RetainHolders(holders, u) == rest[last.0 := holders[last.0]];
    } else {
      assert RetainHolders(holders, u) == rest;
      assert kept + [] == kept;
    }
  }

  /** After any run, the table lists each network once, with its latest inserter. */
  lemma {:induction false} TableListsHolders(ops: seq<Op>)
    ensures Lists(TableAfter(ops), Holders(ops))
    ensures forall n | n in Holders(ops) :: Holders(ops)[n].stamp <= |ops|
  {
    if ops != [] {
      var before, holders := TableAfter(ops[..|ops| - 1]), Holders(ops[..|ops| - 1]);
      TableListsHolders(ops[..|ops| - 1]);
      match ops[|ops| - 1]
      case DropPeer(peer) =>
        RetainLists(before, holders, OfPeer(peer));
      case InsertRoute(net, peer) =>
        var rest := RetainHolders(holders, OfNet(net));
        RetainLists(before, holders, OfNet(net));
        ListsWithOneMore(Retain(before, OfNet(net)), rest, net, Holder(peer, |ops|));
        assert rest[net := Holder(peer, |ops|)] == holders[net := Holder(peer, |ops|)];
    }
  }

  /** The longest authorised prefix wins; among equally long ones, the latest insertion. */
  ghost predicate LongestMatch(holders: map<Net, Holder>, ip: Ip, net: Net) {
    && net in holders && Contains(net, ip)
    && forall m | m in holders && Contains(m, ip) ::
         m.prefix < net.prefix || (m.prefix == net.prefix && holders[m].stamp <= holders[net].stamp)
  }

  /** Nothing exactly when no network contains the address, and otherwise the holder of
      the longest match. */
  ghost predicate FindsLongest(holders: map<Net, Holder>, ip: Ip, r: Option<Id>) {
    match r
    case None => forall m | m in holders :: !Contains(m, ip)
    case Some(id) => exists net :: LongestMatch(holders, ip, net) && holders[net].peer == id
  }

  /** After any run of insertions and removals, a lookup finds the holder of the longest
      match. */
  lemma LookupIsLongestPrefix(ops: seq<Op>, ip: Ip, r: Option<Id>)
    requires IsLookup(TableAfter(ops), ip, r)
    ensures FindsLongest(Holders(ops), ip, r)
  {
    var routes, holders := TableAfter(ops), Holders(ops);
    TableListsHolders(ops);
    if r.None? {
      forall m | m in holders
        ensures !Contains(m, ip)
      {
        assert Listed(routes, m);
      }
    } else {
      var i :| 0 <= i < |routes| && BestMatch(routes, ip, i) && routes[i].1 == r.value;
      BestIsLongest(routes, holders, ip, i);
    }
  }

  lemma BestIsLongest(routes: Table, holders: map<Net, Holder>, ip: Ip, i: nat)
    requires Lists(routes, holders) && i < |routes| && BestMatch(routes, ip, i)
    ensures LongestMatch(holders, ip, routes[i].0)
  {
    forall m | m in holders && Contains(m, ip)
      ensures m.prefix < routes[i].0.prefix
              || (m.prefix == routes[i].0.prefix && holders[m].stamp <= holders[routes[i].0].stamp)
    {
      assert Listed(routes, m);
      var j :| 0 <= j < |routes| && routes[j].0 == m;
    }
  }

  /** With canonical networks the longest match is unique: insertion order is moot. */
  lemma LongestMatchIsUnique(holders: map<Net, Holder>, ip: Ip, a: Net, b: Net)
    requires forall n | n in holders :: Canonical(n)
    requires LongestMatch(holders, ip, a) && b in holders && Contains(b, ip) && b.prefix >= a.prefix
    ensures a == b
  {
    CanonicalIsUnique(a, b, ip);
  }

  // ------------------------------------------------ what a certificate authorises

  datatype Grant = GrantAll | GrantNet(net: Net) | OtherGroup

  /** The addresses and groups of a certificate, as parsed (`None`: not a network). */
  datatype CertNets = CertNets(host: Option<Net>, subnets: seq<Option<Net>>, groups: seq<Grant>)

  predicate GrantCovers(g: Grant, route: Net) {
    match g
    case GrantAll => true
    case GrantNet(net) => Contains(net, route.ip) && net.prefix <= route.prefix
    case OtherGroup => false
  }

  ghost predicate Granted(groups: seq<Grant>, route: Net) {
    exists i | 0 <= i < |groups| :: GrantCovers(groups[i], route)
  }

  method RouteGrantedByCert(groups: seq<Grant>, route: Net) returns (granted: bool)
    ensures granted <==> Granted(groups, route)
  {
    for i := 0 to |groups|
      invariant forall j | 0 <= j < i :: !GrantCovers(groups[j], route)
    {
      if groups[i] == GrantAll {
        return true;
      }
      if groups[i].GrantNet? {
        var net := groups[i].net;
        if Contains(net, route.ip) && net.prefix <= route.prefix {
          return true;
        }
      }
    }
    return false;
  }

  /** A subnet accepted under a `route:<net>` grant lies wholly inside that grant. */
  lemma GrantContainsRoute(net: Net, route: Net, ip: Ip)
    requires route.prefix <= Width(route.ip)
    requires GrantCovers(GrantNet(net), route) && Contains(route, ip)
    ensures Contains(net, ip)
  {
    var extra := route.prefix - net.prefix;
    ShrTwice(Number(ip), HostBits(route), extra);
    ShrTwice(Number(route.ip), HostBits(route), extra);
  }

  /** The same family's address with digit k flipped. */
  ghost function Flipped(ip: Ip, k: nat): Ip
    requires Proper(ip) && k < Width(ip)
  {
    Pow2Increases(k, Width(ip));
    XorRange(Number(ip), Pow2(k), Width(ip));
    Pow2Of32();
    match ip case V4(n) => V4(Xor(n, Pow2(k))) case V6(n) => V6(Xor(n, Pow2(k)))
  }

  lemma FlippedDiffersAt(ip: Ip, k: nat, j: nat)
    requires Proper(ip) && k < Width(ip)
    ensures Proper(Flipped(ip, k)) && SameFamily(ip, Flipped(ip, k))
    ensures Bit(Number(Flipped(ip, k)), j) == Bit(Number(ip), j) <==> j != k
  {
    Pow2Increases(k, Width(ip));
    XorRange(Number(ip), Pow2(k), Width(ip));
    XorBit(Number(ip), Pow2(k), j);
    Pow2Bit(k, j);
  }

  ghost predicate Inside(route: Net, net: Net) {
    forall ip | Proper(ip) && Contains(route, ip) :: Contains(net, ip)
  }

  /** A `route:<net>` grant covers a route exactly when the route lies wholly inside it. */
  lemma GrantCoversExactly(net: Net, route: Net)
    requires Sound(net) && Sound(route)
    ensures GrantCovers(GrantNet(net), route) <==> Inside(route, net)
  {
    if GrantCovers(GrantNet(net), route) {
      forall ip | Proper(ip) && Contains(route, ip)
        ensures Contains(net, ip)
      {
        GrantContainsRoute(net, route, ip);
      }
    }
    if Inside(route, net) {
      assert Contains(net, route.ip);
      if net.prefix > route.prefix {
        LooserRouteSticksOut(net, route);
      }
    }
  }

  lemma LooserRouteSticksOut(net: Net, route: Net)
    requires Sound(net) && Sound(route) && Contains(net, route.ip) && net.prefix > route.prefix
    ensures !Inside(route, net)
  {
    var k := Width(net.ip) - net.prefix;
    var ip := Flipped(route.ip, k);
    FlippedDiffersAt(route.ip, k, k);
    forall j: nat | Width(route.ip) - route.prefix <= j < Width(route.ip)
      ensures Bit(Number(ip), j) == Bit(Number(route.ip), j)
    {
      FlippedDiffersAt(route.ip, k, j);
    }
    ContainsExactly(route, ip);
    ContainsExactly(net, ip);
    ContainsExactly(net, route.ip);
    assert Bit(Number(route.ip), k) == Bit(Number(net.ip), k);
  }

  function HostRoute(net: Net): Net {
    Net(net.ip, Width(net.ip))
  }

  predicate Before(a: Net, b: Net) {
    if a.ip.V4? != b.ip.V4? then a.ip.V4?
    else Number(a.ip) < Number(b.ip) || (Number(a.ip) == Number(b.ip) && a.prefix < b.prefix)
  }

  ghost predicate Sorted(routes: seq<Net>) {
    forall i, j | 0 <= i < j < |routes| :: Before(routes[i], routes[j])
  }

  /** One step of sort-then-dedup: `route` at its place, unless it is already there. */
  method Place(routes: seq<Net>, route: Net) returns (r: seq<Net>)
    requires Sorted(routes)
    ensures Sorted(r)
    ensures forall n :: n in r <==> n in routes || n == route
  {
    var i := 0;
    while i < |routes| && Before(routes[i], route)
      invariant 0 <= i <= |routes|
      invariant forall j | 0 <= j < i :: Before(routes[j], route)
    {
      i := i + 1;
    }
    if i < |routes| && routes[i] == route {
      return routes;
    }
    r := routes[..i] + [route] + routes[i..];
    assert forall n | n in routes :: n in routes[..i] || n in routes[i..];
    assert i < |routes| ==> Before(route, routes[i]);
  }

  /** The host address, and every advertised subnet that parses, is not a default
      route and is granted: each once, in order. */
  method AuthorizedPeerRoutes(cert: CertNets) returns (routes: seq<Net>)
    ensures Sorted(routes)
    ensures forall n :: n in routes <==>
              (cert.host.Some? && n == HostRoute(cert.host.value))
              || (Some(n) in cert.subnets && n.prefix != 0 && Granted(cert.groups, n))
  {
    routes := [];
    if cert.host.Some? {
      routes := [HostRoute(cert.host.value)];
    }
    for i := 0 to |cert.subnets|
      invariant Sorted(routes)
      invariant forall n :: n in routes <==>
                  (cert.host.Some? && n == HostRoute(cert.host.value))
                  || (Some(n) in cert.subnets[..i] && n.prefix != 0 && Granted(cert.groups, n))
    {
      if cert.subnets[i].Some? {
        var route := cert.subnets[i].value;
        if route.prefix != 0 {
          var granted := RouteGrantedByCert(cert.groups, route);
          if granted {
            routes := Place(routes, route);
          }
        }
      }
      assert cert.subnets[..i + 1] == cert.subnets[..i] + [cert.subnets[i]];
    }
    assert cert.subnets[..|cert.subnets|] == cert.subnets;
  }
}
