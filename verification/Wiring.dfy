/** What the network wires from a topology: host addresses, and the port maps of the switches. */
module Wiring {
  import opened Wrappers
  import opened KernelModel
  import opened NetworkResources
  import opened Impairments
  import opened TopologyModel
  import opened Ports
  import opened TopologyBuilder

  /** The interface of each port of a switch; the last endpoint of a port wins. */
  function PortMap(ends: seq<Endpoint>, name: string): map<nat, string> {
    if |ends| == 0 then map[]
    else
      var before, e := PortMap(ends[..|ends| - 1], name), ends[|ends| - 1];
      if e.node == name && e.port.Some? && e.iface.Some? then before[e.port.value := e.iface.value] else before
  }

  /** The far endpoint of each port of a switch; a link counts once. */
  function FarMap(links: seq<Link>, name: string): map<nat, Endpoint> {
    if |links| == 0 then map[]
    else
      var before, link := FarMap(links[..|links| - 1], name), links[|links| - 1];
      if link.a.node == name && link.a.port.Some? then before[link.a.port.value := link.b]
      else if link.b.node == name && link.b.port.Some? then before[link.b.port.value := link.a]
      else before
  }

  /** Every endpoint resolves to a node and has an interface name. */
  predicate Wireable(l: Layout, e: Endpoint) {
    Known(l, e) && e.iface.Some?
  }

  class LinkWiring {
    const topology: Topology
    const read: DurationReader
    const isRate: string -> bool
    /** The addresses configured so far, endpoint by endpoint. */
    var configured: seq<Assigned>

    constructor (topology: Topology, read: DurationReader, isRate: string -> bool)
      ensures this.topology == topology && this.read == read && this.isRate == isRate && configured == []
    {
      this.topology, this.read, this.isRate, configured := topology, read, isRate, [];
    }

    /** Both directions of the link get their impairments without an error. */
    predicate Shaped(link: Link) {
      Applies(read, isRate, link.shaping, AToB) && Applies(read, isRate, link.shaping, BToA)
    }

    predicate AllShaped(links: seq<Link>) {
      forall link <- links :: Shaped(link)
    }

    ghost predicate AllWireable(links: seq<Link>)
      reads topology
    {
      forall e <- Ends(links) :: Wireable(topology.View(), e)
    }

    lemma {:induction false} AllWireableNext(links: seq<Link>, i: nat)
      requires i < |links|
      ensures AllWireable(links[..i + 1]) <==>
        AllWireable(links[..i]) && Wireable(topology.View(), links[i].a) && Wireable(topology.View(), links[i].b)
      ensures AllWireable(links) ==>
        Wireable(topology.View(), links[i].a) && Wireable(topology.View(), links[i].b)
    {
      EndsNext(links, i);
      EndsGrow(links, i);
    }

    lemma {:induction false} AllShapedNext(links: seq<Link>, i: nat)
      requires i < |links|
      ensures AllShaped(links[..i + 1]) <==> AllShaped(links[..i]) && Shaped(links[i])
      ensures AllShaped(links) ==> Shaped(links[i])
    {
      assert links[..i + 1] == links[..i] + [links[i]];
    }

    /** The loop over the links in `_do_start`; it stops at a link that cannot be wired or shaped. */
    method WireLinks() returns (ok: bool)
      modifies this`configured
      ensures ok <==> AllWireable(topology.links) && AllShaped(topology.links)
      ensures ok ==> configured == old(configured) + Configured(topology.View(), Ends(topology.links))
    {
      var links := topology.links;
      var seen: set<string> := {};
      ghost var l, before := topology.View(), configured;
      for i := 0 to |links|
        invariant SeenHosts(l, Ends(links[..i]), seen)
        invariant configured == before + Configured(l, Ends(links[..i]))
        invariant AllWireable(links[..i]) && AllShaped(links[..i])
      {
        EndsNext(links, i);
        AllWireableNext(links, i);
        AllShapedNext(links, i);
        ok, seen := WireLink(links[i], seen, before, Ends(links[..i]));
        if !ok {
          return;
        }
      }
      assert links[..|links|] == links;
      ok := true;
    }

    /**
      `_wire_link`: both names must be there before anything is done; then side a, then side b, and last the
      impairments of either direction.
     */
    method WireLink(link: Link, seen: set<string>, ghost before: seq<Assigned>, ghost done: seq<Endpoint>)
      returns (ok: bool, seen': set<string>)
      requires SeenHosts(topology.View(), done, seen)
      requires configured == before + Configured(topology.View(), done)
      modifies this`configured
      ensures ok <==> Wireable(topology.View(), link.a) && Wireable(topology.View(), link.b) && Shaped(link)
      ensures ok ==> SeenHosts(topology.View(), done + [link.a] + [link.b], seen')
      ensures ok ==> configured == before + Configured(topology.View(), done + [link.a] + [link.b])
    {
      seen' := seen;
      ok := link.a.iface.Some? && link.b.iface.Some? && topology.HasNode(link.a.node) && topology.HasNode(link.b.node);
      if ok {
        seen' := WireEnd(link.a, seen', before, done);
        seen' := WireEnd(link.b, seen', before, done + [link.a]);
        ok := Applies(read, isRate, link.shaping, AToB) && Applies(read, isRate, link.shaping, BToA);
      }
    }

    method WireEnd(e: Endpoint, seen: set<string>, ghost before: seq<Assigned>, ghost done: seq<Endpoint>)
      returns (seen': set<string>)
      requires SeenHosts(topology.View(), done, seen)
      requires configured == before + Configured(topology.View(), done)
      modifies this`configured
      ensures SeenHosts(topology.View(), done + [e], seen')
      ensures configured == before + Configured(topology.View(), done + [e])
    {
      seen' := seen;
      if e.node in topology.hosts {
        var host := topology.hosts[e.node];
        var (ip, ip6) := EffectiveHostAddresses(host, e, host.name !in seen);
        NextCarried(topology.View(), done, e, seen);
        SeenNext(topology.View(), done, e, seen);
        seen' := seen + {host.name};
        configured := configured + [Assigned(host.name, e.iface, ip, ip6)];
      } else {
        NotOnHost(topology.View(), done, e);
      }
    }

    /**
      The start of `_do_start`.  Unless the network is `unsafe`, an inconsistent topology is refused before
      anything is configured, and in any other no two hosts get one address; only impairments that cannot be
      applied can still end the wiring.
     */
    method ValidateAndWire(unsafe: bool) returns (ok: bool)
      requires configured == []
      modifies this`configured
      ensures !unsafe ==>
        (ok <==> Consistent(topology.parsers, topology.View()) && AllShaped(topology.links))
      ensures unsafe ==> (ok <==> AllWireable(topology.links) && AllShaped(topology.links))
      ensures !unsafe && !Consistent(topology.parsers, topology.View()) ==> configured == []
      ensures ok ==> configured == Configured(topology.View(), Ends(topology.links))
      ensures ok && !unsafe ==> NoSharing(topology.parsers, configured)
    {
      ghost var parsers, l := topology.parsers, topology.View();
      if !unsafe {
        var errors := topology.Validate();
        if errors != {} {
          return false;
        }
        ValidatedIsSafe(parsers, l);
      }
      ok := WireLinks();
    }

    /** `_port_to_iface_for`. */
    method PortToIfaceFor(name: string) returns (ports: map<nat, string>)
      ensures ports == PortMap(Ends(topology.links), name)
    {
      var links := topology.links;
      ports := map[];
      for i := 0 to |links|
        invariant ports == PortMap(Ends(links[..i]), name)
      {
        EndsNext(links, i);
        var done := Ends(links[..i]);
        PortMapNext(done, links[i].a, name);
        PortMapNext(done + [links[i].a], links[i].b, name);
        if links[i].a.node == name && links[i].a.port.Some? && links[i].a.iface.Some? {
          ports := ports[links[i].a.port.value := links[i].a.iface.value];
        }
        if links[i].b.node == name && links[i].b.port.Some? && links[i].b.iface.Some? {
          ports := ports[links[i].b.port.value := links[i].b.iface.value];
        }
      }
      assert links[..|links|] == links;
    }

    /** `port_assignments`. */
    method PortAssignments(name: string) returns (r: Result<map<nat, Endpoint>, TopologyError>)
      ensures r == if name in topology.switches then Ok(FarMap(topology.links, name)) else Err(TopologyError)
    {
      if name !in topology.switches {
        return Err(TopologyError);
      }
      var links := topology.links;
      var far: map<nat, Endpoint> := map[];
      for i := 0 to |links|
        invariant far == FarMap(links[..i], name)
      {
        assert links[..i + 1][..i] == links[..i];
        if links[i].a.node == name && links[i].a.port.Some? {
          far := far[links[i].a.port.value := links[i].b];
        } else if links[i].b.node == name && links[i].b.port.Some? {
          far := far[links[i].b.port.value := links[i].a];
        }
      }
      assert links[..|links|] == links;
      r := Ok(far);
    }
  }

  lemma {:induction false} EndsGrow(links: seq<Link>, i: nat)
    requires i < |links|
    ensures links[i].a in Ends(links) && links[i].b in Ends(links)
    decreases |links|
  {
    if i < |links| - 1 {
      EndsGrow(links[..|links| - 1], i);
    }
  }

  lemma {:induction false} PortMapNext(ends: seq<Endpoint>, e: Endpoint, name: string)
    ensures PortMap(ends + [e], name) ==
      if e.node == name && e.port.Some? && e.iface.Some? then PortMap(ends, name)[e.port.value := e.iface.value]
      else PortMap(ends, name)
  {
    assert (ends + [e])[..|ends|] == ends;
  }

  /******* A validated topology *******/

  /** No two hosts are given the same address, and every configured text is an address. */
  lemma {:induction false} ValidatedHostsDoNotShare(parsers: Parsers, l: Layout, f: Family, c: Assigned, d: Assigned)
    requires Consistent(parsers, l)
    requires c in Configured(l, Ends(l.links)) && d in Configured(l, Ends(l.links))
    ensures Text(f, c).Some? ==> Address(parsers, f, c).Some?
    ensures Address(parsers, f, c).Some? && Address(parsers, f, c) == Address(parsers, f, d) ==> c.host == d.host
  {
    ConfiguredIsCarried(l, Ends(l.links), c);
    ConfiguredIsCarried(l, Ends(l.links), d);
    assert !Violates(parsers, l, BadAddress(f)) && !Violates(parsers, l, AddressCollision(f));
    assert !SomeUnreadable(parsers, l, f) && !SomeShared(parsers, l, f);
  }

  /** Equal addresses are on one host. */
  predicate NoSharing(parsers: Parsers, conf: seq<Assigned>) {
    forall f: Family, c <- conf, d <- conf ::
      Address(parsers, f, c).Some? && Address(parsers, f, c) == Address(parsers, f, d) ==> c.host == d.host
  }

  lemma {:induction false} ValidatedIsSafe(parsers: Parsers, l: Layout)
    requires Consistent(parsers, l)
    ensures forall e <- Ends(l.links) :: Wireable(l, e)
    ensures NoSharing(parsers, Configured(l, Ends(l.links)))
  {
    forall e <- Ends(l.links)
      ensures Wireable(l, e)
    {
      ValidatedIsWireable(parsers, l, e);
    }
    forall f: Family, c <- Configured(l, Ends(l.links)), d <- Configured(l, Ends(l.links))
      ensures Address(parsers, f, c).Some? && Address(parsers, f, c) == Address(parsers, f, d) ==> c.host == d.host
    {
      ValidatedHostsDoNotShare(parsers, l, f, c, d);
    }
  }

  /** A validated topology can be wired. */
  lemma {:induction false} ValidatedIsWireable(parsers: Parsers, l: Layout, e: Endpoint)
    requires Consistent(parsers, l) && e in Ends(l.links)
    ensures Wireable(l, e) && IfaceOk(e) && e.port.Some?
  {
    assert !Violates(parsers, l, UnknownNode) && !Violates(parsers, l, NoPort) && !Violates(parsers, l, NoIface);
    assert !Violates(parsers, l, BadIface) && !Violates(parsers, l, LoopbackIface);
    assert !EndViolates(l, e, UnknownNode) && !EndViolates(l, e, NoPort) && !EndViolates(l, e, NoIface);
    assert !EndViolates(l, e, BadIface) && !EndViolates(l, e, LoopbackIface);
  }

  lemma {:induction false} PortMapEntry(ends: seq<Endpoint>, name: string, port: nat)
    requires port in PortMap(ends, name)
    ensures exists k | 0 <= k < |ends| ::
      ends[k].node == name && ends[k].port == Some(port) && ends[k].iface == Some(PortMap(ends, name)[port])
  {
    var n := |ends| - 1;
    var e := ends[n];
    if !(e.node == name && e.port == Some(port) && e.iface.Some?) {
      PortMapEntry(ends[..n], name, port);
      var k :| 0 <= k < n && ends[..n][k].node == name && ends[..n][k].port == Some(port) &&
        ends[..n][k].iface == Some(PortMap(ends[..n], name)[port]);
      assert ends[k] == ends[..n][k];
    }
  }

  lemma {:induction false} PortMapHas(ends: seq<Endpoint>, name: string, k: nat)
    requires k < |ends| && ends[k].node == name && ends[k].port.Some? && ends[k].iface.Some?
    ensures ends[k].port.value in PortMap(ends, name)
  {
    if k < |ends| - 1 {
      PortMapHas(ends[..|ends| - 1], name, k);
    }
  }

  /** The ports of a switch have different interfaces. */
  lemma {:induction false} ValidatedPortsDiffer(parsers: Parsers, l: Layout, name: string, p: nat, q: nat)
    requires Consistent(parsers, l) && name in l.switches
    requires p in PortMap(Ends(l.links), name) && q in PortMap(Ends(l.links), name)
    ensures PortMap(Ends(l.links), name)[p] == PortMap(Ends(l.links), name)[q] ==> p == q
  {
    var ends := Ends(l.links);
    PortMapEntry(ends, name, p);
    PortMapEntry(ends, name, q);
    var j :| 0 <= j < |ends| && ends[j].node == name && ends[j].port == Some(p) &&
      ends[j].iface == Some(PortMap(ends, name)[p]);
    var k :| 0 <= k < |ends| && ends[k].node == name && ends[k].port == Some(q) &&
      ends[k].iface == Some(PortMap(ends, name)[q]);
    ValidatedIsWireable(parsers, l, ends[j]);
    ValidatedIsWireable(parsers, l, ends[k]);
    assert !Violates(parsers, l, IfaceCollision);
    assert SameIface(l, ends[j], ends[k]) == SameIface(l, ends[k], ends[j]);
    assert j < k ==> !SameIface(l, ends[j], ends[k]);
    assert k < j ==> !SameIface(l, ends[k], ends[j]);
  }

  /** Both maps of a switch have the same ports: those of its endpoints. */
  lemma {:induction false} SamePortsInBothMaps(parsers: Parsers, l: Layout, name: string, links: seq<Link>)
    requires Consistent(parsers, l) && forall link <- links :: link in l.links
    ensures FarMap(links, name).Keys == PortMap(Ends(links), name).Keys
    decreases |links|
  {
    if |links| > 0 {
      var n := |links| - 1;
      SamePortsInBothMaps(parsers, l, name, links[..n]);
      LinkIsPlain(parsers, l, links[n]);
      assert Ends(links) == Ends(links[..n]) + [links[n].a] + [links[n].b];
      PortMapNext(Ends(links[..n]), links[n].a, name);
      PortMapNext(Ends(links[..n]) + [links[n].a], links[n].b, name);
    }
  }

  lemma {:induction false} LinkIsPlain(parsers: Parsers, l: Layout, link: Link)
    requires Consistent(parsers, l) && link in l.links
    ensures link.a.node != link.b.node
    ensures link.a.port.Some? && link.b.port.Some? && link.a.iface.Some? && link.b.iface.Some?
  {
    var i :| 0 <= i < |l.links| && l.links[i] == link;
    EndsGrow(l.links, i);
    ValidatedIsWireable(parsers, l, link.a);
    ValidatedIsWireable(parsers, l, link.b);
    assert !Violates(parsers, l, SelfLoop);
  }

  /** The port map gives each endpoint of the switch its own interface. */
  lemma {:induction false} PortMapIs(parsers: Parsers, l: Layout, name: string, k: nat)
    requires Consistent(parsers, l) && k < |Ends(l.links)| && Ends(l.links)[k].node == name
    ensures var e := Ends(l.links)[k];
      e.port.Some? && e.iface.Some? && e.port.value in PortMap(Ends(l.links), name) &&
      PortMap(Ends(l.links), name)[e.port.value] == e.iface.value
  {
    var ends := Ends(l.links);
    ValidatedIsWireable(parsers, l, ends[k]);
    PortMapHas(ends, name, k);
    PortMapEntry(ends, name, ends[k].port.value);
    var j :| 0 <= j < |ends| && ends[j].node == name && ends[j].port == ends[k].port &&
      ends[j].iface == Some(PortMap(ends, name)[ends[k].port.value]);
    OneEndAPort(parsers, l, j, k);
  }

  lemma {:induction false} OneEndAPort(parsers: Parsers, l: Layout, j: nat, k: nat)
    requires Consistent(parsers, l) && j < |Ends(l.links)| && k < |Ends(l.links)|
    requires SamePort(Ends(l.links)[j], Ends(l.links)[k])
    ensures j == k
  {
    var ends := Ends(l.links);
    assert !Violates(parsers, l, PortCollision);
    assert forall p, q | 0 <= p < q < |ends| :: !SamePort(ends[p], ends[q]);
    assert SamePort(ends[k], ends[j]);
  }

  lemma {:induction false} EndsAt(links: seq<Link>, i: nat)
    requires i < |links|
    ensures |Ends(links)| == 2 * |links|
    ensures Ends(links)[2 * i] == links[i].a && Ends(links)[2 * i + 1] == links[i].b
    decreases |links|
  {
    var n := |links| - 1;
    if n > 0 {
      EndsAt(links[..n], if i < n then i else 0);
    }
  }

  /** The link has a side on the switch at this port, and this is its other side. */
  predicate Joins(link: Link, name: string, port: nat, far: Endpoint) {
    || (link.a.node == name && link.a.port == Some(port) && far == link.b)
    || (link.b.node == name && link.b.port == Some(port) && far == link.a)
  }

  lemma {:induction false} FarMapEntry(links: seq<Link>, name: string, port: nat)
    requires port in FarMap(links, name)
    ensures exists i | 0 <= i < |links| :: Joins(links[i], name, port, FarMap(links, name)[port])
  {
    var n := |links| - 1;
    if !Joins(links[n], name, port, FarMap(links, name)[port]) {
      FarMapEntry(links[..n], name, port);
      var i :| 0 <= i < n && Joins(links[..n][i], name, port, FarMap(links[..n], name)[port]);
      assert Joins(links[i], name, port, FarMap(links, name)[port]);
    }
  }

  /** In a consistent topology only one link joins the switch at a port. */
  lemma {:induction false} OneLinkAPort(parsers: Parsers, l: Layout, name: string, port: nat, i: nat, j: nat,
                                        c: Endpoint,
                                        d: Endpoint)
    requires Consistent(parsers, l) && i < |l.links| && j < |l.links|
    requires Joins(l.links[i], name, port, c) && Joins(l.links[j], name, port, d)
    ensures i == j && c == d
  {
    var ends := Ends(l.links);
    EndsAt(l.links, i);
    EndsAt(l.links, j);
    LinkIsPlain(parsers, l, l.links[i]);
    var p := if l.links[i].a.node == name && c == l.links[i].b then 2 * i else 2 * i + 1;
    var q := if l.links[j].a.node == name && d == l.links[j].b then 2 * j else 2 * j + 1;
    OneEndAPort(parsers, l, p, q);
  }

  /** In a consistent topology the map of a switch gives, for each of its links, the far side of that very link. */
  lemma {:induction false} FarMapIs(parsers: Parsers, l: Layout, name: string, i: nat, port: nat, far: Endpoint)
    requires Consistent(parsers, l) && i < |l.links| && Joins(l.links[i], name, port, far)
    ensures port in FarMap(l.links, name) && FarMap(l.links, name)[port] == far
  {
    SamePortsInBothMaps(parsers, l, name, l.links);
    EndsAt(l.links, i);
    var k := if l.links[i].a.node == name && far == l.links[i].b then 2 * i else 2 * i + 1;
    LinkIsPlain(parsers, l, l.links[i]);
    PortMapIs(parsers, l, name, k);
    FarMapEntry(l.links, name, port);
    var j :| 0 <= j < |l.links| && Joins(l.links[j], name, port, FarMap(l.links, name)[port]);
    OneLinkAPort(parsers, l, name, port, i, j, far, FarMap(l.links, name)[port]);
  }

  /******* From the topology to the resources *******/

  /** Where one end of a planned pair is to be, and its name there. */
  function Wanted(plan: Plan, e: Endpoint): (Place, Option<string>) {
    (Target(plan, e.node), e.iface)
  }

  /** With a namespace for each host, a validated topology never wants two interfaces of one name in one namespace. */
  lemma {:induction false} PlannedNamesDiffer(parsers: Parsers, l: Layout, plan: Plan, j: nat, k: nat)
    requires Consistent(parsers, l) && j < |Ends(l.links)| && k < |Ends(l.links)|
    requires forall node :: node in plan.hosts <==> node in l.hosts
    requires Wanted(plan, Ends(l.links)[j]) == Wanted(plan, Ends(l.links)[k])
    ensures j == k
  {
    var ends := Ends(l.links);
    ValidatedIsWireable(parsers, l, ends[j]);
    ValidatedIsWireable(parsers, l, ends[k]);
    assert SameIface(l, ends[j], ends[k]) && SameIface(l, ends[k], ends[j]);
    assert !Violates(parsers, l, IfaceCollision);
    assert forall p, q | 0 <= p < q < |ends| :: !SameIface(l, ends[p], ends[q]);
  }
}
