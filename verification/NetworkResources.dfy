/**
  Network's `_do_start` and `_do_stop` on the resource registries.

  Any external call may fail, so `DoStart` may stop at any step of any topology, and the starting thread may
  call `stop` itself between any two steps.  Whatever has been made is in a registry, and `DoStop` releases it.
 */
module NetworkResources {
  import opened Wrappers
  import opened KernelModel
  import opened VethModel

  datatype LinkSpec = LinkSpec(nodeA: string, ifaceA: string, nodeB: string, ifaceB: string)

  datatype Plan = Plan(hosts: seq<string>, switches: seq<string>, links: seq<LinkSpec>)

  /** What the kernel holds. */
  datatype Holdings = Holdings(namespaces: set<string>, ends: map<nat, End>, processes: set<nat>, connections: set<nat>)

  /** The namespace of a node's interfaces. */
  function Target(t: Plan, node: string): Place {
    if node in t.hosts then In(node) else Root
  }

  /** The interfaces of no pair in `pairs`. */
  function WithoutAll(ends: map<nat, End>, pairs: set<nat>): map<nat, End> {
    map i | i in ends && ends[i].pair !in pairs :: ends[i]
  }

  class Network {
    const k: Kernel
    var namespaces: set<string>
    var vethPairs: seq<VethPair>
    var bmv2Switches: map<string, nat>
    var clients: map<string, nat>
    var running: bool

    /** What the kernel held before this network made anything. */
    ghost const before: Holdings

    constructor (k: Kernel)
      requires k.Valid()
      ensures this.k == k && Held() && Accounted() && Empty() && !running
      ensures before == Holdings(k.namespaces, k.ends, k.processes, k.connections)
    {
      this.k := k;
      namespaces, vethPairs, bmv2Switches, clients, running := {}, [], map[], map[], false;
      before := Holdings(k.namespaces, k.ends, k.processes, k.connections);
    }

    /** The pair numbers of the registered veth pairs. */
    ghost function Numbers(): seq<nat>
      reads this`vethPairs, vethPairs
    {
      var veths := vethPairs;
      seq(|veths|, j requires 0 <= j < |veths| reads veths => veths[j].index.a)
    }

    ghost function Pairs(): set<nat>
      reads this`vethPairs, vethPairs
    {
      AsSet(Numbers())
    }

    /** Every veth pair in the registry is where it is recorded to be, and they are different pairs. */
    ghost predicate Held()
      reads this`vethPairs, k`ends, vethPairs
    {
      && (forall v <- vethPairs :: v.Owned(k))
      && Distinct(Numbers())
    }

    /** The namespaces are those from before and those in the registry; nothing from before is in the latter. */
    ghost predicate NamespacesAccounted()
      reads this`namespaces, k`namespaces
    {
      && namespaces !! before.namespaces && k.namespaces == before.namespaces + namespaces
      && (forall i <- before.ends :: before.ends[i].place.In? ==> before.ends[i].place.name in before.namespaces)
    }

    /** Take the registered veth pairs out, and the interfaces are those from before. */
    ghost predicate EndsAccounted()
      reads this`vethPairs, k`ends, vethPairs
    {
      WithoutAll(k.ends, Pairs()) == before.ends
    }

    ghost predicate ProcessesAccounted()
      reads this`bmv2Switches, k`processes
    {
      bmv2Switches.Values !! before.processes && k.processes == before.processes + bmv2Switches.Values
    }

    ghost predicate ConnectionsAccounted()
      reads this`clients, k`connections
    {
      clients.Values !! before.connections && k.connections == before.connections + clients.Values
    }

    /** What is alive is exactly what was there before and what the registries hold. */
    ghost predicate Accounted()
      reads this, k, vethPairs
    {
      k.Valid() && NamespacesAccounted() && EndsAccounted() && ProcessesAccounted() && ConnectionsAccounted()
    }

    predicate Empty()
      reads this
    {
      namespaces == {} && vethPairs == [] && bmv2Switches == map[] && clients == map[]
    }

    /** How many resources the registries hold: what `held` counts in the start/stop protocol. */
    ghost function Registered(): (n: nat)
      reads this
      ensures n == 0 <==> Empty()
    {
      |namespaces| + |vethPairs| + |bmv2Switches| + |clients|
    }

    /** The registries hold the whole topology. */
    ghost predicate Complete(t: Plan)
      reads this, vethPairs
    {
      && namespaces == (set h | h in t.hosts)
      && |vethPairs| == |t.links|
      && (forall i | 0 <= i < |t.links| :: Wired(vethPairs[i], t, t.links[i]))
      && bmv2Switches.Keys == (set s | s in t.switches) == clients.Keys
    }

    ghost predicate Wired(v: VethPair, t: Plan, link: LinkSpec) {
      v.names == Both(link.ifaceA, link.ifaceB) && v.targets == Both(Target(t, link.nodeA), Target(t, link.nodeB))
    }

    /**
      Since the counts were `refused` and `late`, the pairs have stayed where they are recorded; and unless
      a release was refused or an addition raised after taking effect, everything is accounted for.
     */
    ghost predicate Sound(refused: nat, late: nat)
      reads this, k, vethPairs
    {
      && k.Valid() && Held() && refused <= k.refused && late <= k.late
      && (k.refused == refused && k.late == late ==> Accounted())
    }

    /** The registered pairs are old ones or new. */
    twostate predicate OldOrFresh()
      reads this
    {
      forall v <- vethPairs :: v in old(vethPairs) || fresh(v)
    }

    /******* Start *******/

    /**
      `_do_start`.  Wherever it stops, and wherever the starting thread calls `stop` on the way, the kernel
      holds what it held before and what the registries name, unless a release was refused or an addition
      raised after taking effect.  If it neither stops nor is stopped, everything is there.
     */
    method DoStart(t: Plan) returns (ok: bool, stopped: bool)
      requires Distinct(t.hosts) && Distinct(t.switches)
      requires Held() && Accounted() && Empty()
      modifies this, k
      ensures Sound(old(k.refused), old(k.late)) && fresh(set v | v in vethPairs)
      ensures ok && !stopped ==> Complete(t)
    {
      ghost var refused, late := k.refused, k.late;
      stopped := false;
      ok := *; // validation, directories, compilation, cleanup hooks
      if ok {
        ok, stopped := CreateNamespaces(t.hosts, refused, late);
      }
      if ok {
        ok, stopped := WireLinks(t, stopped, refused, late);
      }
      if ok {
        ok := *; // default routes
      }
      if ok {
        ok, stopped := BringUpSwitches(t.switches, stopped, refused, late);
      }
    }

    /** A point where the starting thread may call `stop`: the whole teardown then runs on this very thread. */
    method MayStop(before: bool, ghost refused: nat, ghost late: nat) returns (stopped: bool)
      requires Sound(refused, late)
      modifies this, k, vethPairs
      ensures Sound(refused, late)
      ensures before ==> stopped
      ensures stopped && !before ==> Registered() == 0
      ensures !stopped ==> vethPairs == old(vethPairs) && namespaces == old(namespaces)
      ensures !stopped ==> bmv2Switches == old(bmv2Switches) && clients == old(clients)
      ensures vethPairs == old(vethPairs) || vethPairs == []
      ensures namespaces <= old(namespaces)
      ensures bmv2Switches.Keys <= old(bmv2Switches).Keys && clients.Keys <= old(clients).Keys
    {
      var calls: bool := *;
      stopped := before;
      if calls {
        DoStop();
        stopped := true;
      }
    }

    method CreateNamespaces(hosts: seq<string>, ghost refused: nat, ghost late: nat) returns (ok: bool, stopped: bool)
      requires Sound(refused, late) && Empty()
      modifies this, k
      ensures Sound(refused, late) && vethPairs == [] && bmv2Switches == clients == map[]
      ensures ok && !stopped ==> namespaces == (set h | h in hosts)
    {
      stopped := MayStop(false, refused, late);
      for i := 0 to |hosts|
        invariant Sound(refused, late) && vethPairs == [] && bmv2Switches == clients == map[]
        invariant !stopped ==> namespaces == (set h | h in hosts[..i])
      {
        assert hosts[..i + 1] == hosts[..i] + [hosts[i]];
        ok, stopped := BringUpHost(hosts[i], stopped, refused, late);
        if !ok {
          return;
        }
      }
      assert hosts[..|hosts|] == hosts;
      ok := true;
    }

    method BringUpHost(host: string, before: bool, ghost refused: nat, ghost late: nat)
      returns (ok: bool, stopped: bool)
      requires Sound(refused, late) && vethPairs == [] && bmv2Switches == clients == map[]
      modifies this, k
      ensures Sound(refused, late) && vethPairs == [] && bmv2Switches == clients == map[]
      ensures ok && !stopped ==> !before && namespaces == old(namespaces) + {host}
    {
      ok := CreateNamespace(host, refused, late);
      stopped := before;
      if ok {
        stopped := MayStop(before, refused, late);
        ok := *; // the loopback interface
      }
    }

    /** Creates one namespace and registers it. */
    method CreateNamespace(host: string, ghost refused: nat, ghost late: nat) returns (ok: bool)
      requires Sound(refused, late)
      modifies this`namespaces, k`namespaces, k`late
      ensures Sound(refused, late)
      ensures namespaces == if ok then old(namespaces) + {host} else old(namespaces)
    {
      ok := k.AddNamespace(host);
      if ok {
        namespaces := namespaces + {host};
      }
    }

    method WireLinks(t: Plan, before: bool, ghost refused: nat, ghost late: nat) returns (ok: bool, stopped: bool)
      requires Sound(refused, late) && vethPairs == [] && bmv2Switches == clients == map[]
      modifies this, k
      ensures Sound(refused, late) && fresh(set v | v in vethPairs) && bmv2Switches == clients == map[]
      ensures ok && !stopped ==> !before && namespaces == old(namespaces) && AllWired(t, t.links)
    {
      stopped := before;
      for i := 0 to |t.links|
        invariant Sound(refused, late) && fresh(set v | v in vethPairs) && bmv2Switches == clients == map[]
        invariant !stopped ==> !before && namespaces == old(namespaces) && AllWired(t, t.links[..i])
      {
        assert t.links[..i + 1] == t.links[..i] + [t.links[i]];
        ok, stopped := WireNext(t, t.links[..i], t.links[i], stopped, refused, late);
        if !ok {
          return;
        }
      }
      assert t.links[..|t.links|] == t.links;
      ok := true;
    }

    method WireNext(t: Plan, ghost done: seq<LinkSpec>, link: LinkSpec, before: bool, ghost refused: nat,
                    ghost late: nat)
      returns (ok: bool, stopped: bool)
      requires Sound(refused, late) && bmv2Switches == clients == map[] && (!before ==> AllWired(t, done))
      modifies this, k, vethPairs
      ensures Sound(refused, late) && bmv2Switches == clients == map[] && OldOrFresh()
      ensures ok && !stopped ==> !before && namespaces == old(namespaces) && AllWired(t, done + [link])
    {
      ok := WireSoundly(t, link, refused, late);
      stopped := before;
      if ok {
        stopped := MayStop(before, refused, late);
      }
    }

    method WireSoundly(t: Plan, link: LinkSpec, ghost refused: nat, ghost late: nat) returns (ok: bool)
      requires Sound(refused, late)
      modifies this`vethPairs, k`ends, k`nextId, k`refused, k`kept, k`late
      ensures Sound(refused, late)
      ensures ok ==>
        |vethPairs| == |old(vethPairs)| + 1 && vethPairs[..|old(vethPairs)|] == old(vethPairs) &&
        fresh(vethPairs[|old(vethPairs)|]) && Wired(vethPairs[|old(vethPairs)|], t, link)
      ensures OldOrFresh()
    {
      ghost var made;
      ok, made := WireLink(t, link);
    }

    /** There is a registered pair for each of the links, in their order. */
    ghost predicate AllWired(t: Plan, links: seq<LinkSpec>)
      reads this
    {
      |vethPairs| == |links| && forall i | 0 <= i < |links| :: Wired(vethPairs[i], t, links[i])
    }

    /**
      `_wire_link`: one veth pair, registered as soon as it exists, then its addresses and impairments.
      The interfaces are not accounted for afterwards exactly if a pair that was made was not registered,
      an addition raised after taking effect, or a rollback was refused its deletion.
     */
    method WireLink(t: Plan, link: LinkSpec) returns (ok: bool, ghost made: bool)
      requires k.Valid() && Held()
      modifies this`vethPairs, k`ends, k`nextId, k`refused, k`kept, k`late
      ensures k.Valid() && Held() && k.OnlyEnds()
      ensures old(EndsAccounted()) ==>
        (EndsAccounted() <==> (made ==> vethPairs != old(vethPairs)) && k.late == old(k.late) && k.kept == old(k.kept))
      ensures made && vethPairs == old(vethPairs) ==> k.refused == old(k.refused) + 1
      ensures vethPairs == old(vethPairs) ||
        (|vethPairs| == |old(vethPairs)| + 1 && vethPairs[..|old(vethPairs)|] == old(vethPairs) &&
         fresh(vethPairs[|old(vethPairs)|]) && Wired(vethPairs[|old(vethPairs)|], t, link))
      ensures ok ==> vethPairs != old(vethPairs)
    {
      made := false;
      var nodesKnown: bool := *;
      if !nodesKnown {
        return false, false;
      }
      var veth := new VethPair(Both(link.ifaceA, link.ifaceB), Both(Target(t, link.nodeA), Target(t, link.nodeB)));
      var closes: bool := *;
      ok, made := CreateApart(veth, closes);
      if ok {
        Register(veth);
        ok := *; // addresses, MAC, MTU, state and impairments
      }
    }

    /** Creates a pair that is not yet registered, leaving the registered ones as they are. */
    method CreateApart(veth: VethPair, closes: bool) returns (ok: bool, ghost made: bool)
      requires k.Valid() && Held() && veth !in vethPairs && !veth.created && veth.ns == UNPLACED
      modifies veth, k`ends, k`nextId, k`refused, k`kept, k`late
      ensures k.Valid() && Held() && k.OnlyEnds()
      ensures ok == veth.created && (ok <==> made && closes)
      ensures made ==> k.refused == old(k.refused) + if closes then 0 else 1
      ensures made ==> veth.Made(k, old(k.ends)) && AloneIn(k.ends, veth.index) && veth.index.a !in Pairs()
      ensures made ==> WithoutAll(k.ends, Pairs() + {veth.index.a}) == WithoutAll(old(k.ends), Pairs())
      ensures made ==> k.late == old(k.late) && k.kept == old(k.kept)
      ensures WithoutAll(k.ends, Pairs()) == WithoutAll(old(k.ends), Pairs()) <==>
        !made && k.late == old(k.late) && k.kept == old(k.kept)
    {
      var prefix: string, addition: Addition, settles: bool := *, *, *;
      ghost var ends := k.ends;
      ok, made := veth.Create(k, prefix, addition, settles, closes);
      StaysHeld(veth);
      if k.ends != ends {
        NewPairApart(ends, k.ends, veth.index, Pairs());
        NewPairShows(ends, k.ends, veth.index, Pairs());
      }
    }

    /** A new pair beside the registered ones leaves them where they are. */
    twostate lemma StaysHeld(veth: VethPair)
      requires old(k.Valid()) && old(Held()) && vethPairs == old(vethPairs) && veth !in vethPairs
      requires forall v <- vethPairs :: unchanged(v)
      requires k.ends == old(k.ends) || (veth.Exists(k, old(k.ends)) && old(k.nextId) <= veth.index.a)
      ensures Held() && Pairs() == old(Pairs())
      ensures k.ends != old(k.ends) ==> veth.index.a !in Pairs()
    {
      forall j | 0 <= j < |vethPairs|
        ensures Numbers()[j] == old(Numbers())[j]
      {
        assert vethPairs[j] in vethPairs && unchanged(vethPairs[j]);
      }
      assert Numbers() == old(Numbers());
      if k.ends != old(k.ends) {
        forall v <- vethPairs
          ensures v.Owned(k) && v.index.a != veth.index.a
        {
          assert old(v.Owned(k)) && v.index.a < old(k.nextId);
          StaysBesideNewPair(old(k.ends), k.ends, veth.index, v.index, v.names, v.targets);
        }
      }
    }

    /** Switch processes, their clients, and the wait for the IPv6 addresses. */
    method BringUpSwitches(switches: seq<string>, before: bool, ghost refused: nat, ghost late: nat)
      returns (ok: bool, stopped: bool)
      requires Distinct(switches) && Sound(refused, late) && bmv2Switches == clients == map[]
      modifies this, k, vethPairs
      ensures Sound(refused, late) && (vethPairs == old(vethPairs) || vethPairs == [])
      ensures !stopped ==> !before && namespaces == old(namespaces) && vethPairs == old(vethPairs)
      ensures ok && !stopped ==> bmv2Switches.Keys == (set s | s in switches) == clients.Keys
    {
      ok, stopped := StartSwitches(switches, before, refused, late);
      if ok {
        ok, stopped := ConnectClients(switches, stopped, refused, late);
      }
      if ok {
        ok := *;
      }
    }

    method StartSwitches(switches: seq<string>, before: bool, ghost refused: nat, ghost late: nat)
      returns (ok: bool, stopped: bool)
      requires Distinct(switches) && Sound(refused, late) && bmv2Switches == clients == map[]
      modifies this, k, vethPairs
      ensures Sound(refused, late) && clients == map[] && (vethPairs == old(vethPairs) || vethPairs == [])
      ensures !stopped ==> !before && namespaces == old(namespaces) && vethPairs == old(vethPairs)
      ensures ok && !stopped ==> bmv2Switches.Keys == (set s | s in switches)
    {
      stopped := before;
      for i := 0 to |switches|
        invariant Sound(refused, late) && clients == map[] && (vethPairs == old(vethPairs) || vethPairs == [])
        invariant !stopped ==> !before && namespaces == old(namespaces) && vethPairs == old(vethPairs)
        invariant bmv2Switches.Keys <= (set s | s in switches[..i])
        invariant !stopped ==> bmv2Switches.Keys == (set s | s in switches[..i])
      {
        assert switches[i] !in switches[..i];
        ok := StartSwitch(switches[i], refused, late);
        if !ok {
          return;
        }
        assert switches[..i + 1] == switches[..i] + [switches[i]];
        stopped := MayStop(stopped, refused, late);
        var ready: bool := *;
        if !ready {
          return false, stopped;
        }
      }
      assert switches[..|switches|] == switches;
      ok := true;
    }

    /** Spawns one switch and registers it. */
    method StartSwitch(name: string, ghost refused: nat, ghost late: nat) returns (ok: bool)
      requires Sound(refused, late) && name !in bmv2Switches
      modifies this`bmv2Switches, k`processes, k`nextId
      ensures Sound(refused, late)
      ensures bmv2Switches.Keys == old(bmv2Switches).Keys + if ok then {name} else {}
    {
      var pid := k.Spawn();
      ok := pid.Some?;
      if ok {
        ValuesGrow(bmv2Switches, name, pid.value);
        bmv2Switches := bmv2Switches[name := pid.value];
      }
    }

    /** The loop goes through the registered switches, and fails if the registry changes meanwhile. */
    method ConnectClients(switches: seq<string>, before: bool, ghost refused: nat, ghost late: nat)
      returns (ok: bool, stopped: bool)
      requires Distinct(switches) && Sound(refused, late) && clients == map[]
      modifies this, k, vethPairs
      ensures Sound(refused, late) && (vethPairs == old(vethPairs) || vethPairs == [])
      ensures !stopped ==> !before && namespaces == old(namespaces) && vethPairs == old(vethPairs)
      ensures !stopped ==> bmv2Switches == old(bmv2Switches)
      ensures ok && !stopped && old(bmv2Switches).Keys == (set s | s in switches) ==>
        clients.Keys == (set s | s in switches)
    {
      stopped := before;
      var started := bmv2Switches.Keys;
      for i := 0 to |switches|
        invariant Sound(refused, late) && (vethPairs == old(vethPairs) || vethPairs == [])
        invariant !stopped ==> !before && namespaces == old(namespaces) && vethPairs == old(vethPairs)
        invariant !stopped ==> bmv2Switches == old(bmv2Switches)
        invariant clients.Keys <= (set s | s in switches[..i])
        invariant !stopped && started == (set s | s in switches) ==> clients.Keys == (set s | s in switches[..i])
      {
        assert switches[..i + 1] == switches[..i] + [switches[i]];
        assert switches[i] !in switches[..i];
        if bmv2Switches.Keys != started {
          return false, stopped;
        }
        if switches[i] in started {
          ok := ConnectClient(switches[i], refused, late);
          if !ok {
            return;
          }
          stopped := MayStop(stopped, refused, late);
          var pushed: bool := *; // the pipeline config
          if !pushed {
            return false, stopped;
          }
        }
      }
      assert switches[..|switches|] == switches;
      ok := true;
    }

    /** Connects one client and registers it. */
    method ConnectClient(name: string, ghost refused: nat, ghost late: nat) returns (ok: bool)
      requires Sound(refused, late) && name !in clients
      modifies this`clients, k`connections, k`nextId
      ensures Sound(refused, late)
      ensures clients.Keys == old(clients).Keys + if ok then {name} else {}
    {
      var connection := k.Dial();
      ok := connection.Some?;
      if ok {
        ValuesGrow(clients, name, connection.value);
        clients := clients[name := connection.value];
      }
    }

    /** Puts a pair that exists into the registry. */
    method Register(veth: VethPair)
      requires k.Valid() && Held() && veth.Owned(k) && veth !in vethPairs && veth.index.a !in Pairs()
      modifies this`vethPairs
      ensures Held() && vethPairs == old(vethPairs) + [veth] && Pairs() == old(Pairs()) + {veth.index.a}
    {
      ghost var pairs := Pairs();
      ghost var numbers := Numbers();
      vethPairs := vethPairs + [veth];
      assert Numbers() == numbers + [veth.index.a];
      assert Pairs() == pairs + {veth.index.a};
    }

    /******* Stop *******/

    /**
      `_do_stop`: releases clients, switches, veth pairs and namespaces, in this order, and empties every
      registry.  If no release is refused, the kernel is back to what it held before.
     */
    method DoStop()
      requires k.Valid() && Held()
      modifies this, k, vethPairs
      ensures k.Valid() && Held() && Registered() == 0 && !running
      ensures old(k.refused) <= k.refused && k.late == old(k.late)
      ensures old(Accounted()) && k.refused == old(k.refused) ==> Restored() && Accounted()
    {
      Release();
      running := false;
      if old(Accounted()) && k.refused == old(k.refused) {
        RestoredIsAccounted();
      }
    }

    method Release()
      requires k.Valid() && Held()
      modifies this, k, vethPairs
      ensures k.Valid() && Empty() && old(k.refused) <= k.refused && k.late == old(k.late)
      ensures old(Accounted()) && k.refused == old(k.refused) ==> Restored()
    {
      ReleaseSwitches();
      DestroyPairs();
      ReleaseNamespaces(k.ends);
    }

    lemma {:induction false} RestoredIsAccounted()
      requires k.Valid() && Restored() && Empty()
      requires forall i <- before.ends :: before.ends[i].place.In? ==> before.ends[i].place.name in before.namespaces
      ensures Accounted()
    {
      assert WithoutAll(k.ends, Pairs()) == k.ends;
    }

    method ReleaseSwitches()
      requires k.Valid()
      modifies this`clients, this`bmv2Switches, k`connections, k`processes, k`refused
      ensures k.Valid() && clients == map[] && bmv2Switches == map[] && old(k.refused) <= k.refused
      ensures k.refused == old(k.refused) && old(ConnectionsAccounted()) ==> k.connections == before.connections
      ensures k.refused == old(k.refused) && old(ProcessesAccounted()) ==> k.processes == before.processes
    {
      Disconnect();
      StopSwitches();
    }

    /** The last release; with no interface left of this network, nothing else goes with the namespaces. */
    method ReleaseNamespaces(ghost left: map<nat, End>)
      requires k.Valid() && k.ends == left
      modifies this`namespaces, k`namespaces, k`ends, k`refused
      ensures k.Valid() && namespaces == {} && old(k.refused) <= k.refused
      ensures old(NamespacesAccounted()) && k.refused == old(k.refused) && left == before.ends ==>
        k.namespaces == before.namespaces && k.ends == before.ends
    {
      DestroyNamespaces();
      if old(NamespacesAccounted()) && k.refused == old(k.refused) && left == before.ends {
        assert NoneInside(left, old(namespaces));
      }
    }

    ghost predicate Restored()
      reads k
    {
      before == Holdings(k.namespaces, k.ends, k.processes, k.connections)
    }

    method Disconnect()
      requires k.Valid()
      modifies this`clients, k`connections, k`refused
      ensures k.Valid() && clients == map[] && old(k.refused) <= k.refused
      ensures k.refused == old(k.refused) ==> k.connections == old(k.connections) - old(clients).Values
    {
      var left := clients.Keys;
      ghost var gone: set<nat> := {};
      while left != {}
        invariant k.Valid() && old(k.refused) <= k.refused && clients == old(clients) && left <= clients.Keys
        invariant gone == (set s | s in clients.Keys - left :: clients[s])
        invariant k.refused == old(k.refused) ==> k.connections == old(k.connections) - gone
      {
        var s :| s in left;
        k.HangUp(clients[s]);
        left, gone := left - {s}, gone + {clients[s]};
      }
      AllValues(clients, gone);
      clients := map[];
    }

    method StopSwitches()
      requires k.Valid()
      modifies this`bmv2Switches, k`processes, k`refused
      ensures k.Valid() && bmv2Switches == map[] && old(k.refused) <= k.refused
      ensures k.refused == old(k.refused) ==> k.processes == old(k.processes) - old(bmv2Switches).Values
    {
      var left := bmv2Switches.Keys;
      ghost var gone: set<nat> := {};
      while left != {}
        invariant k.Valid() && old(k.refused) <= k.refused && bmv2Switches == old(bmv2Switches)
        invariant left <= bmv2Switches.Keys
        invariant gone == (set s | s in bmv2Switches.Keys - left :: bmv2Switches[s])
        invariant k.refused == old(k.refused) ==> k.processes == old(k.processes) - gone
      {
        var s :| s in left;
        k.Kill(bmv2Switches[s]);
        left, gone := left - {s}, gone + {bmv2Switches[s]};
      }
      AllValues(bmv2Switches, gone);
      bmv2Switches := map[];
    }

    method DestroyPairs()
      requires k.Valid() && Held()
      modifies this`vethPairs, k`ends, k`refused, k`kept, vethPairs
      ensures k.Valid() && vethPairs == [] && old(k.refused) <= k.refused
      ensures k.refused == old(k.refused) ==> k.ends == WithoutAll(old(k.ends), old(Pairs()))
    {
      ghost var ends := k.ends;
      ghost var numbers := Numbers();
      WithoutNone(ends, numbers);
      for i := 0 to |vethPairs|
        invariant vethPairs == old(vethPairs) && Numbers() == numbers && k.Valid() && old(k.refused) <= k.refused
        invariant forall j | i <= j < |vethPairs| :: vethPairs[j].Owned(k)
        invariant k.refused == old(k.refused) ==> k.ends == WithoutAll(ends, AsSet(numbers[..i]))
      {
        DestroyOne(vethPairs[i], i);
        WithoutNext(ends, numbers, i);
      }
      assert numbers[..|vethPairs|] == numbers;
      vethPairs := [];
    }

    method DestroyOne(v: VethPair, ghost i: nat)
      requires i < |vethPairs| && vethPairs[i] == v && k.Valid()
      requires forall j | i <= j < |vethPairs| :: vethPairs[j].Owned(k)
      requires Distinct(Numbers())
      modifies v`ns, v`created, k`ends, k`refused, k`kept
      ensures k.Valid() && old(k.refused) <= k.refused
      ensures forall j | i < j < |vethPairs| :: vethPairs[j].Owned(k)
      ensures k.refused == old(k.refused) ==> k.ends == Without(old(k.ends), v.index.a)
    {
      ghost var ends, numbers := k.ends, Numbers();
      var ok := v.Destroy(k);
      forall j | i < j < |vethPairs|
        ensures vethPairs[j].Owned(k)
      {
        assert numbers[i] != numbers[j];
        StaysWithoutPair(ends, v.index.a, vethPairs[j].index, vethPairs[j].names, vethPairs[j].targets);
      }
    }

    method DestroyNamespaces()
      requires k.Valid()
      modifies this`namespaces, k`namespaces, k`ends, k`refused
      ensures k.Valid() && namespaces == {} && old(k.refused) <= k.refused
      ensures k.refused == old(k.refused) ==> k.namespaces == old(k.namespaces) - old(namespaces)
      ensures k.refused == old(k.refused) && NoneInside(old(k.ends), old(namespaces)) ==> k.ends == old(k.ends)
    {
      var left := namespaces;
      while left != {}
        invariant k.Valid() && old(k.refused) <= k.refused && left <= namespaces == old(namespaces)
        invariant k.refused == old(k.refused) ==> k.namespaces == old(k.namespaces) - (namespaces - left)
        invariant k.refused == old(k.refused) && NoneInside(old(k.ends), old(namespaces)) ==> k.ends == old(k.ends)
      {
        var n :| n in left;
        k.RemoveNamespace(n);
        left := left - {n};
      }
      namespaces := {};
    }

    /******* A whole start attempt *******/

    /**
      `_run_start` without its locking; `interrupted` says that another thread requested a stop before the
      commit.  A failed attempt leaves nothing behind, unless a release was refused or an addition raised
      after taking effect.
     */
    method RunStart(t: Plan, interrupted: bool) returns (ok: bool)
      requires Distinct(t.hosts) && Distinct(t.switches)
      requires Held() && Accounted() && Empty() && !running
      modifies this, k
      ensures Sound(old(k.refused), old(k.late))
      ensures ok ==> running && Complete(t) && !interrupted
      ensures !ok ==> !running && Registered() == 0
      ensures !ok && k.refused == old(k.refused) && k.late == old(k.late) ==> Restored()
    {
      var stopped;
      ok, stopped := DoStart(t);
      if ok && !stopped && !interrupted {
        running := true;
      } else {
        ok := false;
        DoStop();
      }
    }
  }

  function AsSet(numbers: seq<nat>): set<nat> {
    set n | n in numbers
  }

  predicate NoneInside(ends: map<nat, End>, namespaces: set<string>) {
    forall i <- ends :: ends[i].place.In? ==> ends[i].place.name !in namespaces
  }

  predicate Distinct<T(==)>(names: seq<T>) {
    forall i, j | 0 <= i < j < |names| :: names[i] != names[j]
  }

  lemma {:induction false} AllValues(m: map<string, nat>, values: set<nat>)
    requires values == (set s | s in m.Keys - {} :: m[s])
    ensures values == m.Values
  {
    forall v <- m.Values
      ensures v in values
    {
      var x :| x in m && m[x] == v;
      assert x in m.Keys - {};
    }
  }

  lemma {:induction false} WithoutNone(ends: map<nat, End>, numbers: seq<nat>)
    ensures WithoutAll(ends, AsSet(numbers[..0])) == ends
  {}

  lemma {:induction false} WithoutNext(ends: map<nat, End>, numbers: seq<nat>, i: nat)
    requires i < |numbers|
    ensures Without(WithoutAll(ends, AsSet(numbers[..i])), numbers[i]) == WithoutAll(ends, AsSet(numbers[..i + 1]))
  {
    assert numbers[..i + 1] == numbers[..i] + [numbers[i]];
    assert AsSet(numbers[..i + 1]) == AsSet(numbers[..i]) + {numbers[i]};
  }

  lemma {:induction false} ValuesGrow(m: map<string, nat>, key: string, value: nat)
    requires key !in m
    ensures m[key := value].Values == m.Values + {value}
  {
    var m' := m[key := value];
    assert m'[key] == value;
    forall v <- m.Values
      ensures v in m'.Values
    {
      var x :| x in m && m[x] == v;
      assert m'[x] == v;
    }
  }

  /** A pair with a new number leaves the others as they were, and goes when it is taken out again. */
  lemma {:induction false} NewPairApart(ends: map<nat, End>, ends': map<nat, End>, index: Both<nat>, pairs: set<nat>)
    requires index.a !in ends && index.b !in ends && index.a != index.b && index.a !in pairs
    requires ends'.Keys == ends.Keys + {index.a, index.b}
    requires forall i <- ends :: ends'[i] == ends[i] && ends[i].pair != index.a
    requires ends'[index.a].pair == ends'[index.b].pair == index.a
    ensures WithoutAll(ends', pairs + {index.a}) == WithoutAll(ends, pairs)
  {}

  /** As long as such a pair is there, what is left without the others is not what was left before. */
  lemma {:induction false} NewPairShows(ends: map<nat, End>, ends': map<nat, End>, index: Both<nat>, pairs: set<nat>)
    requires index.a !in ends && index.a in ends' && ends'[index.a].pair == index.a && index.a !in pairs
    ensures WithoutAll(ends', pairs) != WithoutAll(ends, pairs)
  {
    assert index.a in WithoutAll(ends', pairs) && index.a !in WithoutAll(ends, pairs);
  }
}
