/** The Topology builder: adding links, and the single-pass checks of `validate`. */
module TopologyBuilder {
  import opened Wrappers
  import opened Bytes
  import opened Impairments
  import opened TopologyModel
  import opened Ports

  /** `seen` has the (node, port) pairs of these endpoints. */
  ghost predicate SeenPorts(seen: map<(string, nat), nat>, ends: seq<Endpoint>) {
    forall node: string, port: nat ::
      (node, port) in seen <==> exists e <- ends :: e.node == node && e.port == Some(port)
  }

  /** `owners` has the scoped interface names of these endpoints. */
  ghost predicate SeenIfaces(l: Layout, owners: map<(Option<string>, string), nat>, ends: seq<Endpoint>) {
    forall scope: Option<string>, name: string :: (scope, name) in owners <==>
      exists e <- ends :: Known(l, e) && IfaceOk(e) && Scope(l, e) == scope && e.iface == Some(name)
  }

  class Topology {
    const parsers: Parsers
    var hosts: map<string, Host>
    var switches: map<string, Switch>
    var links: seq<Link>

    function View(): Layout
      reads this
    {
      Layout(hosts, switches, links)
    }

    constructor (parsers: Parsers)
      ensures this.parsers == parsers && hosts == map[] && switches == map[] && links == []
      ensures Tidy(View()) && Numbered(View())
    {
      this.parsers, hosts, switches, links := parsers, map[], map[], [];
    }

    /******* Building *******/

    predicate HasNode(name: string)
      reads this
    {
      name in hosts || name in switches
    }

    /** The name in the description that a reference resolves to; hosts are looked up first. */
    function NodeName(ref: string): string
      requires HasNode(ref)
      reads this
    {
      if ref in hosts then hosts[ref].name else switches[ref].name
    }

    function CpuPort(ref: string): Option<nat>
      requires HasNode(ref)
      reads this
    {
      if ref in hosts then None else switches[ref].cpuPort
    }

    /** The port that an end asks for and may have, or the least free one if it asks for none. */
    predicate PortFor(args: EndArgs, port: nat)
      requires HasNode(args.node)
      reads this
    {
      && (args.node in hosts || (port <= SWITCH_PORT_MAX && CpuPort(args.node) != Some(port)))
      && if args.port.Some? then args.port.value == port
         else LeastFree(Ends(links), NodeName(args.node), CpuPort(args.node), if args.node in hosts then 0 else 1, port)
    }

    /** What one end of a new link has to be; no endpoint at all if its description is refused. */
    predicate Resolves(args: EndArgs, e: Endpoint)
      reads this
    {
      && HasNode(args.node) && e.port.Some? && PortFor(args, e.port.value)
      && e == Endpoint(NodeName(args.node), e.port, Some(IfaceName(NodeName(args.node), e.port.value)),
                       args.ip, args.mac, args.ip6)
      && ValidIfname(e.iface.value) && EndpointOk(parsers, e)
      && (args.node !in hosts ==> args.ip.None? && args.ip6.None?)
    }

    ghost predicate Refused(args: EndArgs)
      reads this
    {
      forall e: Endpoint :: !Resolves(args, e)
    }

    method AddHost(host: Host) returns (r: Result<Host, TopologyError>)
      modifies this`hosts
      ensures r.Ok? <==> !old(HasNode(host.name)) && HostOk(parsers, host)
      ensures hosts == if r.Ok? then old(hosts)[host.name := host] else old(hosts)
      ensures old(Tidy(View()) && Numbered(View())) ==> Tidy(View()) && Numbered(View())
    {
      if HasNode(host.name) || !HostOk(parsers, host) {
        return Err(TopologyError);
      }
      if Tidy(View()) && Numbered(View()) {
        TidyWithHost(View(), host);
      }
      hosts := hosts[host.name := host];
      r := Ok(host);
    }

    method AddSwitch(name: string, suffix: string, arch: string, logLevel: string, deviceId: Option<nat>,
                     grpcPort: Option<nat>, thriftPort: Option<nat>, cpuPort: Option<nat>)
      returns (r: Result<Switch, TopologyError>)
      modifies this`switches
      ensures var idx := |old(switches)|;
        var sw := Switch(
          name, suffix, arch, logLevel,
          if deviceId.Some? then deviceId else Some(idx),
          if grpcPort.Some? then grpcPort else Some(BASE_GRPC_PORT + idx),
          if thriftPort.Some? then thriftPort else Some(BASE_THRIFT_PORT + idx),
          cpuPort);
        if old(HasNode(name)) || !SwitchOk(sw) then r == Err(TopologyError) else r == Ok(sw)
      ensures switches == if r.Ok? then old(switches)[name := r.value] else old(switches)
      ensures old(Tidy(View()) && Numbered(View())) && deviceId.None? && grpcPort.None? && thriftPort.None? ==>
        Tidy(View()) && Numbered(View())
    {
      if HasNode(name) {
        return Err(TopologyError);
      }
      var idx := |switches|;
      var sw := Switch(
        name, suffix, arch, logLevel,
        if deviceId.Some? then deviceId else Some(idx),
        if grpcPort.Some? then grpcPort else Some(BASE_GRPC_PORT + idx),
        if thriftPort.Some? then thriftPort else Some(BASE_THRIFT_PORT + idx),
        cpuPort);
      if !SwitchOk(sw) {
        return Err(TopologyError);
      }
      PutSwitch(sw);
      r := Ok(sw);
    }

    method PutSwitch(sw: Switch)
      requires !HasNode(sw.name) && SwitchOk(sw)
      modifies this`switches
      ensures switches == old(switches)[sw.name := sw]
      ensures old(Tidy(View()) && Numbered(View())) && sw.deviceId == Some(|old(switches)|) &&
              sw.grpcPort == Some(BASE_GRPC_PORT + |old(switches)|) &&
              sw.thriftPort == Some(BASE_THRIFT_PORT + |old(switches)|) ==>
        Tidy(View()) && Numbered(View())
    {
      ghost var l := View();
      if Tidy(l) && Numbered(l) && sw.deviceId == Some(|switches|) &&
         sw.grpcPort == Some(BASE_GRPC_PORT + |switches|) && sw.thriftPort == Some(BASE_THRIFT_PORT + |switches|) {
        TidyWithSwitch(l, sw);
      }
      switches := switches[sw.name := sw];
    }

    /**
      `_auto_port`: a requested port is taken if allowed; otherwise the least free one, from 1 on a switch
      and from 0 on a host, and on a switch it fails only if all of 1 to 510 are taken.
     */
    method AutoPort(ref: string, requested: Option<int>) returns (r: Result<nat, TopologyError>)
      requires HasNode(ref)
      ensures requested.Some? ==>
        var p := requested.value;
        if p < 0 || (ref !in hosts && (p > SWITCH_PORT_MAX || CpuPort(ref) == Some(p))) then r.Err?
        else r == Ok(p)
      ensures r.Ok? ==> PortFor(EndArgs(ref, requested, None, None, None), r.value)
      ensures requested.None? && r.Err? ==>
        ref !in hosts &&
        forall p | 1 <= p <= SWITCH_PORT_MAX :: !Free(Ends(links), NodeName(ref), CpuPort(ref), p)
    {
      var onSwitch := ref !in hosts;
      var cpu := CpuPort(ref);
      if requested.Some? {
        var p := requested.value;
        if p < 0 || (onSwitch && (p > SWITCH_PORT_MAX || (cpu.Some? && p == cpu.value))) {
          return Err(TopologyError);
        }
        return Ok(p);
      }
      var used := set e <- Ends(links) | e.node == NodeName(ref) && e.port.Some? :: e.port.value;
      if cpu.Some? {
        used := used + {cpu.value};
      }
      ghost var ends, name := Ends(links), NodeName(ref);
      assert forall p: nat :: p in used <==> !Free(ends, name, cpu, p);
      var base := if onSwitch then 1 else 0;
      var candidate := base;
      while candidate in used
        invariant base <= candidate && forall p | base <= p < candidate :: p in used
        decreases From(used, candidate)
      {
        assert From(used, candidate + 1) == From(used, candidate) - {candidate};
        candidate := candidate + 1;
      }
      if onSwitch && candidate > SWITCH_PORT_MAX {
        return Err(TopologyError);
      }
      r := Ok(candidate);
    }

    /** One end of a new link: its port, its name, and the checks of its description. */
    method ResolveEnd(args: EndArgs) returns (r: Result<Endpoint, TopologyError>)
      requires HasNode(args.node)
      ensures r.Ok? ==> Resolves(args, r.value)
      ensures r.Err? ==> Refused(args)
    {
      var port := AutoPort(args.node, args.port);
      if port.Err? {
        return Err(TopologyError);
      }
      var name := NodeName(args.node);
      var e := Endpoint(name, Some(port.value), Some(IfaceName(name, port.value)), args.ip, args.mac, args.ip6);
      forall e': Endpoint | Resolves(args, e')
        ensures e' == e
      {
        OnlyPort(args, e'.port.value, port.value);
      }
      if !ValidIfname(e.iface.value) {
        return Err(TopologyError);
      }
      if args.node !in hosts && (args.ip.Some? || args.ip6.Some?) {
        return Err(TopologyError);
      }
      r := if EndpointOk(parsers, e) then Ok(e) else Err(TopologyError);
    }

    lemma {:induction false} OnlyPort(args: EndArgs, p: nat, q: nat)
      requires HasNode(args.node) && PortFor(args, p) && PortFor(args, q)
      ensures p == q
    {
      if args.port.None? {
        LeastFreeIsUnique(Ends(links), NodeName(args.node), CpuPort(args.node),
                          if args.node in hosts then 0 else 1, p, q);
      }
    }

    lemma {:induction false} ResolvedIsTidy(args: EndArgs, e: Endpoint)
      requires Resolves(args, e)
      ensures Numbered(View()) ==> TidyEnd(View(), e) && e.node == args.node
      ensures args.port.None? ==> Unused(Ends(links), e)
    {
    }

    /**
      `add_link`: both descriptions must resolve, and the impairments must go together.  A tidy topology stays
      tidy exactly if the ends are on different nodes and at untaken ports; ports chosen automatically are
      untaken.
     */
    method AddLink(a: EndArgs, b: EndArgs, shaping: Shaping) returns (r: Result<Link, TopologyError>)
      modifies this`links
      ensures r.Ok? ==> old(Resolves(a, r.value.a)) && old(Resolves(b, r.value.b))
      ensures r.Ok? ==> r.value.shaping == shaping && ShapingOk(shaping)
      ensures r.Err? ==> old(Refused(a)) || old(Refused(b)) || !ShapingOk(shaping)
      ensures links == if r.Ok? then old(links) + [r.value] else old(links)
      ensures r.Ok? && old(Tidy(View()) && Numbered(View())) ==>
        (Tidy(View()) && Numbered(View()) <==>
         a.node != b.node &&
         Unused(old(Ends(links)), r.value.a) && Unused(old(Ends(links)), r.value.b))
      ensures r.Ok? && a.port.None? ==> Unused(old(Ends(links)), r.value.a)
      ensures r.Ok? && b.port.None? ==> Unused(old(Ends(links)), r.value.b)
    {
      if !HasNode(a.node) || !HasNode(b.node) {
        return Err(TopologyError);
      }
      var endA := ResolveEnd(a);
      var endB := ResolveEnd(b);
      if endA.Err? || endB.Err? {
        return Err(TopologyError);
      }
      if !ShapingOk(shaping) {
        return Err(TopologyError);
      }
      var link := Link(endA.value, endB.value, shaping);
      ResolvedIsTidy(a, link.a);
      ResolvedIsTidy(b, link.b);
      ghost var l := View();
      if Tidy(l) && Numbered(l) {
        TidyWithLink(l, link);
      }
      links := links + [link];
      assert View() == l.(links := l.links + [link]);
      r := Ok(link);
    }

    /******* validate *******/

    /** `validate` raises exactly if a problem is found, and finds exactly the problems there are. */
    method Validate() returns (errors: set<Problem>)
      ensures forall p :: p in errors <==> Violates(parsers, View(), p)
      ensures errors == {} <==> Consistent(parsers, View())
    {
      var nodes := CheckNodes();
      var ends := CheckEndpoints();
      var ports := CheckPorts();
      var devices := CheckDevices();
      var services := CheckServices();
      var ifaces := CheckInterfaces();
      var addresses := CheckAddresses();
      errors := nodes + ends + ports + devices + services + ifaces + addresses;
      ghost var l := View();
      PartsAreAll((p: Problem) => Violates(parsers, l, p), nodes, ends, ports, devices, services, ifaces, addresses);
    }

    method CheckNodes() returns (errors: set<Problem>)
      ensures forall p :: p in errors <==> (p.KeyMismatch? || p.SharedName?) && Violates(parsers, View(), p)
    {
      errors := {};
      var keys := hosts.Keys;
      while keys != {}
        invariant keys <= hosts.Keys && errors <= {KeyMismatch}
        invariant KeyMismatch in errors <==> exists k <- hosts :: k !in keys && hosts[k].name != k
      {
        var k :| k in keys;
        keys := keys - {k};
        if hosts[k].name != k {
          errors := errors + {KeyMismatch};
        }
      }
      keys := switches.Keys;
      while keys != {}
        invariant keys <= switches.Keys && errors <= {KeyMismatch}
        invariant KeyMismatch in errors <==>
          (exists k <- hosts :: hosts[k].name != k) || (exists k <- switches :: k !in keys && switches[k].name != k)
      {
        var k :| k in keys;
        keys := keys - {k};
        if switches[k].name != k {
          errors := errors + {KeyMismatch};
        }
      }
      keys := hosts.Keys;
      while keys != {}
        invariant keys <= hosts.Keys && errors <= {KeyMismatch, SharedName}
        invariant KeyMismatch in errors <==> Violates(parsers, View(), KeyMismatch)
        invariant SharedName in errors <==> exists k <- hosts :: k !in keys && k in switches
      {
        var k :| k in keys;
        keys := keys - {k};
        if k in switches {
          errors := errors + {SharedName};
        }
      }
    }

    /** The checks of one endpoint in the first pass over the links. */
    method CheckEnd(e: Endpoint, errors: set<Problem>, ghost done: seq<Endpoint>) returns (errors': set<Problem>)
      requires forall p | FirstPass(p) :: p in errors <==> EndsViolate(View(), done, p)
      ensures forall p | FirstPass(p) :: p in errors' <==> EndsViolate(View(), done + [e], p)
      ensures forall p | !FirstPass(p) :: p in errors' <==> p in errors
    {
      errors' := errors;
      if e.node !in hosts && e.node !in switches {
        errors' := errors' + {UnknownNode};
      }
      if e.port.None? {
        errors' := errors' + {NoPort};
      }
      if e.node in switches {
        if e.ip.Some? || e.ip6.Some? {
          errors' := errors' + {SwitchAddress};
        }
        if e.port.Some? && e.port.value > SWITCH_PORT_MAX {
          errors' := errors' + {PortRange};
        }
        if switches[e.node].cpuPort.Some? && e.port == switches[e.node].cpuPort {
          errors' := errors' + {CpuPortUsed};
        }
      }
      EndsViolateNext(View(), done, e);
    }

    method CheckEndpoints() returns (errors: set<Problem>)
      ensures forall p :: p in errors <==> (FirstPass(p) || p.SelfLoop?) && Violates(parsers, View(), p)
    {
      errors := {};
      for i := 0 to |links|
        invariant forall p | FirstPass(p) :: p in errors <==> EndsViolate(View(), Ends(links[..i]), p)
        invariant SelfLoop in errors <==> exists k | 0 <= k < i :: links[k].a.node == links[k].b.node
        invariant forall p <- errors :: FirstPass(p) || p.SelfLoop?
      {
        errors := CheckEnd(links[i].a, errors, Ends(links[..i]));
        errors := CheckEnd(links[i].b, errors, Ends(links[..i]) + [links[i].a]);
        EndsNext(links, i);
        if links[i].a.node == links[i].b.node {
          errors := errors + {SelfLoop};
        }
      }
      assert links[..|links|] == links;
    }

    method NotePort(seen: map<(string, nat), nat>, e: Endpoint, index: nat, ghost done: seq<Endpoint>)
      returns (hit: bool, seen': map<(string, nat), nat>)
      requires SeenPorts(seen, done)
      ensures SeenPorts(seen', done + [e])
      ensures hit <==> exists d <- done :: SamePort(d, e)
    {
      hit, seen' := false, seen;
      if e.port.Some? {
        var key := (e.node, e.port.value);
        if key in seen {
          hit := true;
        } else {
          seen' := seen[key := index];
        }
      }
    }

    method CheckPorts() returns (errors: set<Problem>)
      ensures forall p :: p in errors <==> p.PortCollision? && Violates(parsers, View(), p)
    {
      errors := {};
      var seen: map<(string, nat), nat> := map[];
      for i := 0 to |links|
        invariant SeenPorts(seen, Ends(links[..i]))
        invariant errors <= {PortCollision}
        invariant PortCollision in errors <==> Clash(Ends(links[..i]), SamePort)
      {
        ghost var done := Ends(links[..i]);
        var hitA, hitB;
        hitA, seen := NotePort(seen, links[i].a, i, done);
        hitB, seen := NotePort(seen, links[i].b, i, done + [links[i].a]);
        ClashNext(done, links[i].a, SamePort);
        ClashNext(done + [links[i].a], links[i].b, SamePort);
        EndsNext(links, i);
        if hitA || hitB {
          errors := errors + {PortCollision};
        }
      }
      assert links[..|links|] == links;
    }

    method NoteService(owners: map<nat, string>, port: Option<nat>, k: string, grpc: bool, ghost done: set<(string,
                       bool)>)
      returns (hit: bool, owners': map<nat, string>)
      requires k in switches && port == ServicePort(switches[k], grpc) && (k, grpc) !in done
      requires ServiceOwners(switches, owners, done)
      ensures ServiceOwners(switches, owners', done + {(k, grpc)})
      ensures ServicesClash(switches, done + {(k, grpc)}) <==> hit || ServicesClash(switches, done)
    {
      hit, owners' := false, owners;
      if port.Some? {
        if port.value in owners {
          hit := true;
        } else {
          owners' := owners[port.value := k];
        }
      }
      ServicesClashNext(switches, done, (k, grpc));
    }

    method CheckServices() returns (errors: set<Problem>)
      ensures forall p :: p in errors <==> p.ServicePortCollision? && Violates(parsers, View(), p)
    {
      errors := {};
      var owners: map<nat, string> := map[];
      ghost var done: set<(string, bool)> := {};
      var keys := switches.Keys;
      while keys != {}
        invariant keys <= switches.Keys && errors <= {ServicePortCollision}
        invariant forall k: string, f: bool :: (k, f) in done <==> k in switches && k !in keys
        invariant ServiceOwners(switches, owners, done)
        invariant ServicePortCollision in errors <==> ServicesClash(switches, done)
      {
        var k :| k in keys;
        keys := keys - {k};
        var hitGrpc, hitThrift;
        hitGrpc, owners := NoteService(owners, switches[k].grpcPort, k, true, done);
        hitThrift, owners := NoteService(owners, switches[k].thriftPort, k, false, done + {(k, true)});
        if hitGrpc || hitThrift {
          errors := errors + {ServicePortCollision};
        }
        done := done + {(k, true)} + {(k, false)};
      }
      AllServices(parsers, View(), done);
    }

    method CheckDevices() returns (errors: set<Problem>)
      ensures forall p :: p in errors <==> p.DeviceIdCollision? && Violates(parsers, View(), p)
    {
      errors := {};
      var owners: map<nat, string> := map[];
      var keys := switches.Keys;
      ghost var done: set<string> := {};
      while keys != {}
        invariant done == switches.Keys - keys && errors <= {DeviceIdCollision}
        invariant keys <= switches.Keys
        invariant DeviceOwners(switches, owners, done)
        invariant DeviceIdCollision in errors <==> DevicesClash(switches, done)
      {
        var k :| k in keys;
        keys := keys - {k};
        var id := switches[k].deviceId;
        DevicesClashNext(switches, done, k);
        if id.Some? {
          if id.value in owners {
            errors := errors + {DeviceIdCollision};
          } else {
            owners := owners[id.value := k];
          }
        }
        done := done + {k};
      }
    }

    /** The interface checks of one endpoint. */
    method NoteIface(owners: map<(Option<string>, string), nat>, e: Endpoint, index: nat, errors: set<Problem>,
                     ghost done: seq<Endpoint>)
      returns (errors': set<Problem>, owners': map<(Option<string>, string), nat>)
      requires SeenIfaces(View(), owners, done)
      requires forall p | LaterPass(p) :: p in errors <==> EndsViolate(View(), done, p)
      ensures SeenIfaces(View(), owners', done + [e])
      ensures forall p | LaterPass(p) :: p in errors' <==> EndsViolate(View(), done + [e], p)
      ensures IfaceCollision in errors' <==> IfaceCollision in errors || exists d <- done :: SameIface(View(), d, e)
      ensures forall p | !LaterPass(p) && !p.IfaceCollision? :: p in errors' <==> p in errors
    {
      errors', owners' := errors, owners;
      if e.iface.None? || e.iface.value == "" {
        errors' := errors + {NoIface};
      } else if !ValidIfname(e.iface.value) {
        errors' := errors + {BadIface};
      } else if e.iface.value == "lo" {
        errors' := errors + {LoopbackIface};
      } else if e.node in hosts || e.node in switches {
        var scope := if e.node in hosts then Some(e.node) else None;
        var key := (scope, e.iface.value);
        if key in owners {
          errors' := errors + {IfaceCollision};
        } else {
          owners' := owners[key := index];
        }
      }
      LoIsValid();
      EndsViolateNext(View(), done, e);
    }

    method CheckInterfaces() returns (errors: set<Problem>)
      ensures forall p :: p in errors <==> (LaterPass(p) || p.IfaceCollision?) && Violates(parsers, View(), p)
    {
      errors := {};
      var owners: map<(Option<string>, string), nat> := map[];
      ghost var l := View();
      ghost var same := (d: Endpoint, e: Endpoint) => SameIface(l, d, e);
      for i := 0 to |links|
        invariant SeenIfaces(l, owners, Ends(links[..i]))
        invariant forall p | LaterPass(p) :: p in errors <==> EndsViolate(l, Ends(links[..i]), p)
        invariant IfaceCollision in errors <==> Clash(Ends(links[..i]), same)
        invariant forall p <- errors :: LaterPass(p) || p.IfaceCollision?
      {
        ghost var done := Ends(links[..i]);
        errors, owners := NoteIface(owners, links[i].a, i, errors, done);
        errors, owners := NoteIface(owners, links[i].b, i, errors, done + [links[i].a]);
        ClashNext(done, links[i].a, same);
        ClashNext(done + [links[i].a], links[i].b, same);
        EndsNext(links, i);
      }
      assert links[..|links|] == links;
    }

    /** One address of a host endpoint, noted for its host. */
    method NoteAddress(f: Family, c: Assigned, owners: map<nat, set<string>>, errors: set<Problem>,
                       ghost conf: seq<Assigned>)
      returns (owners': map<nat, set<string>>, errors': set<Problem>)
      requires Noted(parsers, f, conf, owners, errors)
      ensures Noted(parsers, f, conf + [c], owners', errors')
      ensures errors' == errors || errors' == errors + {BadAddress(f)}
    {
      owners', errors' := owners, errors;
      if Text(f, c).Some? {
        var address := Read(parsers, f, Text(f, c).value);
        if address.None? {
          errors' := errors + {BadAddress(f)};
        } else {
          owners' := AddOwner(owners, address.value, c.host);
        }
      }
      NotedNext(parsers, f, conf, c, owners, errors);
    }

    method NoteAddresses(e: Endpoint, seen: set<string>, owners4: map<nat, set<string>>, owners6: map<nat, set<string>>,
                         errors: set<Problem>, ghost done: seq<Endpoint>)
      returns (seen': set<string>, owners4': map<nat, set<string>>, owners6': map<nat, set<string>>,
               errors': set<Problem>)
      requires SeenHosts(View(), done, seen) && errors <= {BadAddress(V4), BadAddress(V6)}
      requires Noted(parsers, V4, Configured(View(), done), owners4, errors)
      requires Noted(parsers, V6, Configured(View(), done), owners6, errors)
      ensures SeenHosts(View(), done + [e], seen') && errors' <= {BadAddress(V4), BadAddress(V6)}
      ensures Noted(parsers, V4, Configured(View(), done + [e]), owners4', errors')
      ensures Noted(parsers, V6, Configured(View(), done + [e]), owners6', errors')
    {
      seen', owners4', owners6', errors' := seen, owners4, owners6, errors;
      if e.node !in hosts {
        NotOnHost(View(), done, e);
        return;
      }
      var host := hosts[e.node];
      var c := AssignedAt(host, e, host.name !in seen);
      NextCarried(View(), done, e, seen);
      SeenNext(View(), done, e, seen);
      seen' := seen + {host.name};
      owners4', errors' := NoteAddress(V4, c, owners4, errors, Configured(View(), done));
      owners6', errors' := NoteAddress(V6, c, owners6, errors', Configured(View(), done));
    }

    /** The pass that notes which hosts carry which addresses. */
    method CollectAddresses()
      returns (owners4: map<nat, set<string>>, owners6: map<nat, set<string>>, errors: set<Problem>)
      ensures errors <= {BadAddress(V4), BadAddress(V6)}
      ensures Noted(parsers, V4, Configured(View(), Ends(links)), owners4, errors)
      ensures Noted(parsers, V6, Configured(View(), Ends(links)), owners6, errors)
    {
      errors, owners4, owners6 := {}, map[], map[];
      var seen: set<string> := {};
      for i := 0 to |links|
        invariant SeenHosts(View(), Ends(links[..i]), seen) && errors <= {BadAddress(V4), BadAddress(V6)}
        invariant Noted(parsers, V4, Configured(View(), Ends(links[..i])), owners4, errors)
        invariant Noted(parsers, V6, Configured(View(), Ends(links[..i])), owners6, errors)
      {
        seen, owners4, owners6, errors :=
          NoteAddresses(links[i].a, seen, owners4, owners6, errors, Ends(links[..i]));
        seen, owners4, owners6, errors :=
          NoteAddresses(links[i].b, seen, owners4, owners6, errors, Ends(links[..i]) + [links[i].a]);
        EndsNext(links, i);
      }
      assert links[..|links|] == links;
    }

    method CheckAddresses() returns (errors: set<Problem>)
      ensures forall p :: p in errors <==> AddressViolates(parsers, View(), p)
    {
      var owners4, owners6;
      owners4, owners6, errors := CollectAddresses();
      NotedMeans(parsers, View(), V4, owners4, errors);
      NotedMeans(parsers, View(), V6, owners6, errors);
      var shared4 := exists a <- owners4 :: |owners4[a]| > 1;
      var shared6 := exists a <- owners6 :: |owners6[a]| > 1;
      FourProblems(parsers, View(), errors, shared4, shared6);
      errors :=
        errors + (if shared4 then {AddressCollision(V4)} else {}) + (if shared6 then {AddressCollision(V6)} else {});
    }
  }

  /** The problems of the two families, one by one. */
  lemma {:induction false} FourProblems(parsers: Parsers, l: Layout, errors: set<Problem>, shared4: bool, shared6: bool)
    requires errors <= {BadAddress(V4), BadAddress(V6)}
    requires BadAddress(V4) in errors <==> SomeUnreadable(parsers, l, V4)
    requires BadAddress(V6) in errors <==> SomeUnreadable(parsers, l, V6)
    requires shared4 == SomeShared(parsers, l, V4) && shared6 == SomeShared(parsers, l, V6)
    ensures var all := errors + (if shared4 then {AddressCollision(V4)} else {}) +
                                (if shared6 then {AddressCollision(V6)} else {});
      forall p :: p in all <==> AddressViolates(parsers, l, p)
  {
    forall p: Problem | p.BadAddress? || p.AddressCollision?
      ensures p in {BadAddress(V4), BadAddress(V6), AddressCollision(V4), AddressCollision(V6)}
    {
      assert p.family.V4? || p.family.V6?;
    }
  }

  /** The members from c on. */
  function From(used: set<nat>, c: nat): set<nat> {
    set p <- used | p >= c
  }

  predicate FirstPass(p: Problem) {
    p in {UnknownNode, NoPort, SwitchAddress, PortRange, CpuPortUsed}
  }

  predicate LaterPass(p: Problem) {
    p in {NoIface, BadIface, LoopbackIface}
  }

  /******* Ids and ports of switches *******/

  ghost predicate DeviceOwners(switches: map<string, Switch>, owners: map<nat, string>, done: set<string>)
    requires done <= switches.Keys
  {
    forall id: nat :: id in owners <==> exists k <- done :: switches[k].deviceId == Some(id)
  }

  ghost predicate DevicesClash(switches: map<string, Switch>, done: set<string>)
    requires done <= switches.Keys
  {
    exists k <- done, m <- done :: k != m && switches[k].deviceId.Some? && switches[k].deviceId == switches[m].deviceId
  }

  lemma {:induction false} DevicesClashNext(switches: map<string, Switch>, done: set<string>, k: string)
    requires done <= switches.Keys && k in switches && k !in done
    ensures DevicesClash(switches, done + {k}) <==>
      DevicesClash(switches, done) ||
      (switches[k].deviceId.Some? && exists m <- done :: switches[m].deviceId == switches[k].deviceId)
  {
    if switches[k].deviceId.Some? {
      if m :| m in done && switches[m].deviceId == switches[k].deviceId {
        assert k in done + {k} && m in done + {k} && k != m;
      }
    }
  }

  predicate SameService(switches: map<string, Switch>, s: (string, bool), t: (string, bool)) {
    && s != t && s.0 in switches && t.0 in switches
    && ServicePort(switches[s.0], s.1).Some? && ServicePort(switches[s.0], s.1) == ServicePort(switches[t.0], t.1)
  }

  ghost predicate ServiceOwners(switches: map<string, Switch>, owners: map<nat, string>, done: set<(string, bool)>) {
    forall port: nat :: port in owners <==>
      exists s <- done :: s.0 in switches && ServicePort(switches[s.0], s.1) == Some(port)
  }

  ghost predicate ServicesClash(switches: map<string, Switch>, done: set<(string, bool)>) {
    exists s <- done, t <- done :: SameService(switches, s, t)
  }

  lemma {:induction false} ServicesClashNext(switches: map<string, Switch>, done: set<(string, bool)>, t: (string,
                                             bool))
    requires t !in done
    ensures ServicesClash(switches, done + {t}) <==>
      ServicesClash(switches, done) || exists s <- done :: SameService(switches, s, t)
  {
    if s :| s in done && SameService(switches, s, t) {
      assert s in done + {t} && t in done + {t};
    }
    if ServicesClash(switches, done + {t}) {
      var s, u :| s in done + {t} && u in done + {t} && SameService(switches, s, u);
      assert SameService(switches, u, s);
    }
  }

  lemma {:induction false} AllServices(parsers: Parsers, l: Layout, done: set<(string, bool)>)
    requires forall k: string, f: bool :: (k, f) in done <==> k in l.switches
    ensures ServicesClash(l.switches, done) <==> Violates(parsers, l, ServicePortCollision)
  {
    if ServicesClash(l.switches, done) {
      var s, t :| s in done && t in done && SameService(l.switches, s, t);
      assert s == (s.0, s.1) && t == (t.0, t.1);
      assert (s.0 != t.0 || s.1 != t.1) && ServicePort(l.switches[s.0], s.1) == ServicePort(l.switches[t.0], t.1);
    }
    if Violates(parsers, l, ServicePortCollision) {
      var k, m, f: bool, g: bool :| k in l.switches && m in l.switches && (k != m || f != g) &&
        ServicePort(l.switches[k], f).Some? && ServicePort(l.switches[k], f) == ServicePort(l.switches[m], g);
      assert SameService(l.switches, (k, f), (m, g));
    }
  }

  /******* Addresses *******/

  function AddOwner(owners: map<nat, set<string>>, address: nat, host: string): map<nat, set<string>> {
    owners[address := (if address in owners then owners[address] else {}) + {host}]
  }

  /** The names of the hosts that some endpoint of the list is on. */
  ghost predicate SeenHosts(l: Layout, ends: seq<Endpoint>, seen: set<string>) {
    forall name :: name in seen <==> exists k | 0 <= k < |ends| :: OnHost(l, ends, k, name)
  }

  /** What the host endpoints of the list carry, in order. */
  function Configured(l: Layout, ends: seq<Endpoint>): seq<Assigned> {
    if |ends| == 0 then []
    else
      var n := |ends| - 1;
      Configured(l, ends[..n]) + if ends[n].node in l.hosts then [Carried(l, ends, n)] else []
  }

  predicate Owns(parsers: Parsers, f: Family, conf: seq<Assigned>, address: nat, host: string) {
    exists c <- conf :: Address(parsers, f, c) == Some(address) && c.host == host
  }

  /** For every address the hosts that carry it, and whether some text is not an address. */
  ghost predicate Noted(parsers: Parsers, f: Family, conf: seq<Assigned>, owners: map<nat, set<string>>,
                        errors: set<Problem>)
  {
    && (forall a: nat, host: string :: (a in owners && host in owners[a]) <==> Owns(parsers, f, conf, a, host))
    && (BadAddress(f) in errors <==> exists c <- conf :: Unreadable(parsers, f, c))
  }

  lemma {:induction false} NotedNext(parsers: Parsers, f: Family, conf: seq<Assigned>, c: Assigned,
                                     owners: map<nat, set<string>>, errors: set<Problem>)
    requires Noted(parsers, f, conf, owners, errors)
    ensures
      if Text(f, c).None? then Noted(parsers, f, conf + [c], owners, errors)
      else if Unreadable(parsers, f, c) then Noted(parsers, f, conf + [c], owners, errors + {BadAddress(f)})
      else Noted(parsers, f, conf + [c], AddOwner(owners, Address(parsers, f, c).value, c.host), errors)
  {
    assert forall d :: d in conf + [c] <==> d in conf || d == c;
    assert forall a: nat, host: string :: Owns(parsers, f, conf + [c], a, host) <==>
        Owns(parsers, f, conf, a, host) || (Address(parsers, f, c) == Some(a) && c.host == host);
  }

  /** Which endpoint comes later does not matter to what an earlier one carries. */
  lemma {:induction false} CarriesPrefix(l: Layout, ends: seq<Endpoint>, n: nat, k: nat, c: Assigned)
    requires n <= |ends|
    ensures Carries(l, ends[..n], k, c) <==> k < n && Carries(l, ends, k, c)
  {
    assert forall j, name | 0 <= j < k < n :: OnHost(l, ends[..n], j, name) <==> OnHost(l, ends, j, name);
  }

  /** The configured list holds exactly what the host endpoints carry. */
  lemma {:induction false} ConfiguredIsCarried(l: Layout, ends: seq<Endpoint>, c: Assigned)
    ensures c in Configured(l, ends) <==> exists k: nat :: Carries(l, ends, k, c)
  {
    if |ends| > 0 {
      var n := |ends| - 1;
      ConfiguredIsCarried(l, ends[..n], c);
      forall k: nat
        ensures Carries(l, ends[..n], k, c) <==> k < n && Carries(l, ends, k, c)
      {
        CarriesPrefix(l, ends, n, k, c);
      }
      if c in Configured(l, ends[..n]) {
        var k: nat :| Carries(l, ends[..n], k, c);
        assert Carries(l, ends, k, c);
      }
      assert ends[n].node in l.hosts ==> Carries(l, ends, n, Carried(l, ends, n));
    }
  }

  /** An address of two hosts, as the owners see it and as the endpoints do. */
  lemma {:induction false} NotedMeans(parsers: Parsers, l: Layout, f: Family, owners: map<nat, set<string>>,
                                      errors: set<Problem>)
    requires Noted(parsers, f, Configured(l, Ends(l.links)), owners, errors)
    ensures BadAddress(f) in errors <==> SomeUnreadable(parsers, l, f)
    ensures (exists a <- owners :: |owners[a]| > 1) <==> SomeShared(parsers, l, f)
  {
    var ends := Ends(l.links);
    var conf := Configured(l, ends);
    forall c: Assigned
      ensures c in conf <==> exists k: nat :: Carries(l, ends, k, c)
    {
      ConfiguredIsCarried(l, ends, c);
    }
    SharedMeans(parsers, f, conf, owners, errors);
  }

  lemma {:induction false} SharedMeans(parsers: Parsers, f: Family, conf: seq<Assigned>, owners: map<nat, set<string>>,
                                       errors: set<Problem>)
    requires Noted(parsers, f, conf, owners, errors)
    ensures (exists a <- owners :: |owners[a]| > 1) <==> exists c <- conf, d <- conf :: SameAddress(parsers, f, c, d)
  {
    if a :| a in owners && |owners[a]| > 1 {
      var g, h := TwoOf(owners[a]);
      assert Owns(parsers, f, conf, a, g) && Owns(parsers, f, conf, a, h);
      var c :| c in conf && Address(parsers, f, c) == Some(a) && c.host == g;
      var d :| d in conf && Address(parsers, f, d) == Some(a) && d.host == h;
      assert SameAddress(parsers, f, c, d);
    }
    if c, d :| c in conf && d in conf && SameAddress(parsers, f, c, d) {
      var a := Address(parsers, f, c).value;
      assert Owns(parsers, f, conf, a, c.host) && Owns(parsers, f, conf, a, d.host);
      assert c.host in owners[a] && d.host in owners[a];
      MoreThanOne(owners[a], c.host, d.host);
    }
  }

  lemma {:induction false} TwoOf(s: set<string>) returns (g: string, h: string)
    requires |s| > 1
    ensures g in s && h in s && g != h
  {
    g :| g in s;
    assert |s - {g}| == |s| - 1;
    h :| h in s - {g};
  }

  lemma {:induction false} MoreThanOne(s: set<string>, g: string, h: string)
    requires g in s && h in s && g != h
    ensures |s| > 1
  {
    assert {g, h} <= s;
    var rest := s - {g};
    assert h in rest && |rest| == |s| - 1;
  }

  /******* Endpoints *******/

  ghost predicate EndsViolate(l: Layout, ends: seq<Endpoint>, p: Problem) {
    exists e <- ends :: EndViolates(l, e, p)
  }

  lemma {:induction false} EndsViolateNext(l: Layout, ends: seq<Endpoint>, e: Endpoint)
    ensures forall p :: EndsViolate(l, ends + [e], p) <==> EndsViolate(l, ends, p) || EndViolates(l, e, p)
  {
    assert forall d :: d in ends + [e] <==> d in ends || d == e;
  }

  lemma {:induction false} LoIsValid()
    ensures ValidIfname("lo")
  {
    assert "lo"[..1] == "l" && "l"[..0] == "";
    assert Utf8Length("l") == 1;
  }

  /** The passes together look for every problem. */
  lemma {:induction false} PartsAreAll(bad: Problem -> bool, nodes: set<Problem>, ends: set<Problem>,
                                       ports: set<Problem>,
                                       devices: set<Problem>, services: set<Problem>, ifaces: set<Problem>,
                                       addresses: set<Problem>)
    requires forall p :: p in nodes <==> (p.KeyMismatch? || p.SharedName?) && bad(p)
    requires forall p :: p in ends <==> (FirstPass(p) || p.SelfLoop?) && bad(p)
    requires forall p :: p in ports <==> p.PortCollision? && bad(p)
    requires forall p :: p in devices <==> p.DeviceIdCollision? && bad(p)
    requires forall p :: p in services <==> p.ServicePortCollision? && bad(p)
    requires forall p :: p in ifaces <==> (LaterPass(p) || p.IfaceCollision?) && bad(p)
    requires forall p :: p in addresses <==> (p.BadAddress? || p.AddressCollision?) && bad(p)
    ensures forall p :: p in nodes + ends + ports + devices + services + ifaces + addresses <==> bad(p)
  {
  }

  lemma {:induction false} SeenNext(l: Layout, ends: seq<Endpoint>, e: Endpoint, seen: set<string>)
    requires SeenHosts(l, ends, seen) && e.node in l.hosts
    ensures SeenHosts(l, ends + [e], seen + {l.hosts[e.node].name})
  {
    var all := ends + [e];
    assert forall k, name | 0 <= k < |ends| :: OnHost(l, all, k, name) <==> OnHost(l, ends, k, name);
    assert OnHost(l, all, |ends|, l.hosts[e.node].name);
  }

  /** The next host endpoint carries its host's defaults exactly if the host has not been seen. */
  lemma {:induction false} NextCarried(l: Layout, ends: seq<Endpoint>, e: Endpoint, seen: set<string>)
    requires SeenHosts(l, ends, seen) && e.node in l.hosts
    ensures Configured(l, ends + [e]) ==
      Configured(l, ends) + [AssignedAt(l.hosts[e.node], e, l.hosts[e.node].name !in seen)]
  {
    var all := ends + [e];
    assert all[..|ends|] == ends;
    assert forall k, name | 0 <= k < |ends| :: OnHost(l, all, k, name) <==> OnHost(l, ends, k, name);
  }

  lemma {:induction false} NotOnHost(l: Layout, ends: seq<Endpoint>, e: Endpoint)
    requires e.node !in l.hosts
    ensures Configured(l, ends + [e]) == Configured(l, ends)
    ensures forall seen :: SeenHosts(l, ends, seen) ==> SeenHosts(l, ends + [e], seen)
  {
    var all := ends + [e];
    assert all[..|ends|] == ends && Configured(l, ends) + [] == Configured(l, ends);
    assert forall k, name | 0 <= k < |ends| :: OnHost(l, all, k, name) <==> OnHost(l, ends, k, name);
  }
}
