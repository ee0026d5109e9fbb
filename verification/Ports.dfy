/** Ports and interface names of endpoints: when they are free, distinct and as the builder makes them. */
module Ports {
  import opened Wrappers
  import opened Bytes
  import opened TopologyModel

  lemma {:induction false} EndsNext(links: seq<Link>, i: nat)
    requires i < |links|
    ensures Ends(links[..i + 1]) == Ends(links[..i]) + [links[i].a] + [links[i].b]
  {
    assert links[..i + 1][..i] == links[..i];
  }

  /** Some two endpoints of the list are related. */
  predicate Clash(ends: seq<Endpoint>, same: (Endpoint, Endpoint) -> bool) {
    exists i, j | 0 <= i < j < |ends| :: same(ends[i], ends[j])
  }

  lemma {:induction false} ClashNext(ends: seq<Endpoint>, e: Endpoint, same: (Endpoint, Endpoint) -> bool)
    ensures Clash(ends + [e], same) <==> Clash(ends, same) || exists d <- ends :: same(d, e)
  {
    var all := ends + [e];
    if Clash(all, same) {
      var i, j :| 0 <= i < j < |all| && same(all[i], all[j]);
      assert j < |ends| ==> same(ends[i], ends[j]);
      assert j == |ends| ==> ends[i] in ends && same(ends[i], e);
    }
    if Clash(ends, same) {
      var i, j :| 0 <= i < j < |ends| && same(ends[i], ends[j]);
      assert same(all[i], all[j]);
    }
    if d :| d in ends && same(d, e) {
      var i :| 0 <= i < |ends| && ends[i] == d;
      assert same(all[i], all[|ends|]);
    }
  }

  /******* Interface names *******/

  /** A name and a port are determined by the interface name made of them. */
  lemma {:induction false} IfaceNameInjective(node: string, port: nat, node': string, port': nat)
    requires IfaceName(node, port) == IfaceName(node', port')
    ensures node == node' && port == port'
  {
    var d, d' := Dec(port), Dec(port');
    assert IfaceName(node, port) == node + "-et" + "h" + d;
    assert IfaceName(node', port') == node' + "-et" + "h" + d';
    DigitsAfterLetter(node + "-et", 'h', d, node' + "-et", d');
    assert node == (node + "-et")[..|node|] && node' == (node' + "-et")[..|node'|];
    DecInjective(port, port');
  }

  lemma {:induction false} DigitsAfterLetter(a: string, c: char, d: string, a': string, d': string)
    requires !IsDigit(c) && AllDigits(d) && AllDigits(d')
    requires a + [c] + d == a' + [c] + d'
    ensures a == a' && d == d'
  {
    var s := a + [c] + d;
    assert s[|a|] == c && s[|a'|] == c;
    assert forall k | |a| < k < |s| :: s[k] == d[k - |a| - 1] && IsDigit(s[k]);
    assert forall k | |a'| < k < |s| :: s[k] == d'[k - |a'| - 1] && IsDigit(s[k]);
    assert a == s[..|a|] && a' == s[..|a'|];
    assert d == s[|a| + 1..] && d' == s[|a'| + 1..];
  }

  lemma {:induction false} IfaceNameIsNotLo(node: string, port: nat)
    ensures IfaceName(node, port) != "lo"
  {
    assert |IfaceName(node, port)| > 4;
  }

  /******* Free ports *******/

  /** No endpoint of the node has this port, and it is not the CPU port. */
  predicate Free(ends: seq<Endpoint>, node: string, cpu: Option<nat>, port: nat) {
    Some(port) != cpu && forall e <- ends :: !(e.node == node && e.port == Some(port))
  }

  /** The least port from `base` on that is free. */
  predicate LeastFree(ends: seq<Endpoint>, node: string, cpu: Option<nat>, base: nat, port: nat) {
    base <= port && Free(ends, node, cpu, port) && forall p | base <= p < port :: !Free(ends, node, cpu, p)
  }

  lemma {:induction false} LeastFreeIsUnique(ends: seq<Endpoint>, node: string, cpu: Option<nat>, base: nat, p: nat,
                                             q: nat)
    requires LeastFree(ends, node, cpu, base, p) && LeastFree(ends, node, cpu, base, q)
    ensures p == q
  {
  }

  /** Both ends at automatic ports: a new collision arises exactly in a self-loop, where both ends get the same port. */
  lemma {:induction false} AutomaticPortsCollide(ends: seq<Endpoint>, a: Endpoint, b: Endpoint, cpuA: Option<nat>,
                                                 cpuB: Option<nat>, baseA: nat, baseB: nat)
    requires a.port.Some? && LeastFree(ends, a.node, cpuA, baseA, a.port.value)
    requires b.port.Some? && LeastFree(ends, b.node, cpuB, baseB, b.port.value)
    requires a.node == b.node ==> cpuA == cpuB && baseA == baseB
    ensures Clash(ends + [a] + [b], SamePort) <==> Clash(ends, SamePort) || a.node == b.node
  {
    ClashNext(ends, a, SamePort);
    ClashNext(ends + [a], b, SamePort);
    assert forall d :: d in ends + [a] <==> d in ends || d == a;
    if a.node == b.node {
      LeastFreeIsUnique(ends, a.node, cpuA, baseA, a.port.value, b.port.value);
    }
  }

  /******* What the builder guarantees *******/

  predicate TidyEnd(l: Layout, e: Endpoint) {
    && Known(l, e) && e.port.Some?
    && e.iface == Some(IfaceName(e.node, e.port.value)) && ValidIfname(e.iface.value)
    && (e.node in l.switches ==>
          e.ip.None? && e.ip6.None? && e.port.value <= SWITCH_PORT_MAX && e.port != l.switches[e.node].cpuPort)
  }

  /** Endpoints as `add_link` makes them, no self-loop and no port taken twice. */
  predicate Tidy(l: Layout) {
    && (forall e <- Ends(l.links) :: TidyEnd(l, e))
    && (forall link <- l.links :: link.a.node != link.b.node)
    && !Clash(Ends(l.links), SamePort)
  }

  const BASE_GRPC_PORT := 50051
  const BASE_THRIFT_PORT := 9090

  /** The id and the ports that `add_switch` assigns by itself, for one of the first n switches. */
  predicate AutoNumbered(sw: Switch, n: nat) {
    && sw.deviceId.Some? && sw.deviceId.value < n
    && sw.grpcPort == Some(BASE_GRPC_PORT + sw.deviceId.value) && sw.grpcPort.value <= SERVICE_PORT_MAX
    && sw.thriftPort == Some(BASE_THRIFT_PORT + sw.deviceId.value)
  }

  /** Nodes under their own names, and switches numbered automatically. */
  predicate Numbered(l: Layout) {
    && (forall k <- l.hosts :: l.hosts[k].name == k)
    && (forall k <- l.switches :: l.switches[k].name == k && k !in l.hosts)
    && (forall k <- l.switches :: AutoNumbered(l.switches[k], |l.switches|))
    && (forall k <- l.switches, m <- l.switches :: l.switches[k].deviceId == l.switches[m].deviceId ==> k == m)
  }

  /** Interfaces named after distinct (node, port) pairs do not collide. */
  lemma {:induction false} TidyIfacesDiffer(l: Layout)
    requires Tidy(l)
    ensures !Clash(Ends(l.links), (d: Endpoint, e: Endpoint) => SameIface(l, d, e))
  {
    var ends := Ends(l.links);
    forall i, j | 0 <= i < j < |ends|
      ensures !SameIface(l, ends[i], ends[j])
    {
      var d, e := ends[i], ends[j];
      assert TidyEnd(l, d) && TidyEnd(l, e) && !SamePort(d, e);
      if d.iface == e.iface {
        IfaceNameInjective(d.node, d.port.value, e.node, e.port.value);
      }
    }
  }

  /** Whatever is built with automatic ports and ids and without self-loops can only fail validation over addresses. */
  lemma {:induction false} BuiltFailsOnlyOverAddresses(parsers: Parsers, l: Layout, p: Problem)
    requires Tidy(l) && Numbered(l)
    ensures Violates(parsers, l, p) ==> p.BadAddress? || p.AddressCollision?
  {
    match p
    case IfaceCollision => TidyIfacesDiffer(l);
    case LoopbackIface =>
      forall e <- Ends(l.links)
        ensures e.iface != Some("lo")
      {
        assert TidyEnd(l, e);
        IfaceNameIsNotLo(e.node, e.port.value);
      }
    case ServicePortCollision => ServicesDiffer(parsers, l);
    case _ =>
  }

  lemma {:induction false} ServicesDiffer(parsers: Parsers, l: Layout)
    requires Numbered(l)
    ensures !Violates(parsers, l, ServicePortCollision)
  {
    forall k <- l.switches, m <- l.switches, f: bool, g: bool | k != m || f != g
      ensures ServicePort(l.switches[k], f) != ServicePort(l.switches[m], g)
    {
      assert AutoNumbered(l.switches[k], |l.switches|) && AutoNumbered(l.switches[m], |l.switches|);
      assert k != m ==> l.switches[k].deviceId != l.switches[m].deviceId;
    }
  }

  predicate Unused(ends: seq<Endpoint>, e: Endpoint) {
    forall d <- ends :: !SamePort(d, e)
  }

  lemma {:induction false} ClashWithPair(ends: seq<Endpoint>, a: Endpoint, b: Endpoint)
    requires a.node != b.node
    ensures Clash(ends + [a] + [b], SamePort) <==> Clash(ends, SamePort) || !Unused(ends, a) || !Unused(ends, b)
  {
    ClashNext(ends, a, SamePort);
    ClashNext(ends + [a], b, SamePort);
    assert forall d :: d in ends + [a] <==> d in ends || d == a;
  }

  /** Adding a link keeps a topology tidy exactly if its ends are on different nodes, at ports not taken. */
  lemma {:induction false} TidyWithLink(l: Layout, link: Link)
    requires Tidy(l) && Numbered(l) && TidyEnd(l, link.a) && TidyEnd(l, link.b)
    ensures Numbered(l.(links := l.links + [link]))
    ensures Tidy(l.(links := l.links + [link])) <==>
      link.a.node != link.b.node && Unused(Ends(l.links), link.a) && Unused(Ends(l.links), link.b)
  {
    var l', ends := l.(links := l.links + [link]), Ends(l.links);
    assert l'.links[..|l.links|] == l.links;
    assert Ends(l'.links) == ends + [link.a, link.b] == ends + [link.a] + [link.b];
    if link.a.node != link.b.node {
      ClashWithPair(ends, link.a, link.b);
    }
    assert forall e :: TidyEnd(l', e) <==> TidyEnd(l, e);
    assert forall e :: e in Ends(l'.links) <==> e in ends || e == link.a || e == link.b;
    assert forall k :: k in l'.links <==> k in l.links || k == link;
  }

  lemma {:induction false} TidyWithHost(l: Layout, host: Host)
    requires Tidy(l) && Numbered(l) && host.name !in l.hosts && host.name !in l.switches
    ensures var l' := l.(hosts := l.hosts[host.name := host]); Tidy(l') && Numbered(l')
  {
    var l' := l.(hosts := l.hosts[host.name := host]);
    forall e <- Ends(l.links)
      ensures TidyEnd(l', e)
    {
      assert TidyEnd(l, e);
    }
  }

  /** A switch with the next id and ports keeps the numbering. */
  lemma {:induction false} TidyWithSwitch(l: Layout, sw: Switch)
    requires Tidy(l) && Numbered(l) && sw.name !in l.hosts && sw.name !in l.switches && SwitchOk(sw)
    requires sw.deviceId == Some(|l.switches|)
    requires sw.grpcPort == Some(BASE_GRPC_PORT + |l.switches|)
    requires sw.thriftPort == Some(BASE_THRIFT_PORT + |l.switches|)
    ensures var l' := l.(switches := l.switches[sw.name := sw]); Tidy(l') && Numbered(l')
  {
    NumberedWithSwitch(l, sw);
    var l' := l.(switches := l.switches[sw.name := sw]);
    forall e <- Ends(l.links)
      ensures TidyEnd(l', e)
    {
      assert TidyEnd(l, e);
    }
  }

  lemma {:induction false} NumberedWithSwitch(l: Layout, sw: Switch)
    requires Numbered(l) && sw.name !in l.hosts && sw.name !in l.switches && SwitchOk(sw)
    requires sw.deviceId == Some(|l.switches|)
    requires sw.grpcPort == Some(BASE_GRPC_PORT + |l.switches|)
    requires sw.thriftPort == Some(BASE_THRIFT_PORT + |l.switches|)
    ensures Numbered(l.(switches := l.switches[sw.name := sw]))
  {
    var all := l.switches[sw.name := sw];
    OneMore(l.switches, sw.name, sw);
    forall k <- all
      ensures all[k].name == k && k !in l.hosts && AutoNumbered(all[k], |all|)
      ensures k != sw.name ==> all[k] == l.switches[k] && all[k].deviceId != sw.deviceId
    {
      assert k != sw.name ==> k in l.switches && AutoNumbered(l.switches[k], |l.switches|);
    }
  }

  lemma {:induction false} OneMore(m: map<string, Switch>, k: string, v: Switch)
    requires k !in m
    ensures |m[k := v]| == |m| + 1
  {
    assert m[k := v].Keys == m.Keys + {k};
    assert |m[k := v]| == |m[k := v].Keys| && |m| == |m.Keys|;
  }
}
