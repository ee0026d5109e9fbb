/**
  The kernel resources that a Network creates: namespaces, veth endpoints,
  switch processes and client connections.

  Each method is one external call.  Whether it fails is not determined; a call
  that adds, moves or renames an interface or adds a namespace may also take
  effect and then raise.
 */
module KernelModel {
  import opened Wrappers

  datatype Place = Root | In(name: string)

  /** An interface: where it is, its name there, and the veth pair it is an end of. */
  datatype End = End(place: Place, name: string, pair: nat)

  /** How a call that changes an interface can end. */
  datatype Reply = Done | Raised

  /** What an addition does if nothing is in its way; the last is to raise after taking effect. */
  datatype Addition = Adds | Fails | AddsAndRaises

  class Kernel {
    var namespaces: set<string>
    var ends: map<nat, End>
    var processes: set<nat>
    var connections: set<nat>
    var nextId: nat

    /** How many releases of something that was there have failed. */
    var refused: nat

    /** How many of these were deletions of an interface, which is then still there. */
    var kept: nat

    /** How many additions have taken effect and then raised. */
    var late: nat

    constructor ()
      ensures Valid() && refused == kept == late == 0 && ends == map[]
    {
      namespaces, ends, processes, connections, nextId := {}, map[], {}, {}, 0;
      refused, kept, late := 0, 0, 0;
    }

    ghost predicate Valid()
      reads this
    {
      && (forall i <- ends :: i < nextId && ends[i].pair < nextId)
      && (forall i <- ends :: ends[i].place.In? ==> ends[i].place.name in namespaces)
      && (forall i, j | i in ends && j in ends && i != j ::
            ends[i].place != ends[j].place || ends[i].name != ends[j].name)
      && (forall p <- processes :: p < nextId)
      && (forall c <- connections :: c < nextId)
    }

    predicate Taken(place: Place, name: string)
      reads this
    {
      exists i <- ends :: ends[i].place == place && ends[i].name == name
    }

    /** Nothing but the interfaces has changed, and the counts have not gone down. */
    twostate predicate OnlyEnds()
      reads this
    {
      && namespaces == old(namespaces) && processes == old(processes) && connections == old(connections)
      && old(nextId) <= nextId && old(refused) <= refused && old(kept) <= kept && old(late) <= late
      && (refused == old(refused) ==> kept == old(kept))
    }

    /******* Interfaces *******/

    /** The names are two, and free in the root namespace. */
    predicate Addable(a: string, b: string)
      reads this
    {
      a != b && !Taken(Root, a) && !Taken(Root, b)
    }

    /** Adds a veth pair in the root namespace; the call may raise although the pair is there. */
    method AddPair(a: string, b: string, addition: Addition) returns (ok: bool, ghost ia: nat, ghost ib: nat)
      requires Valid()
      modifies this`ends, this`nextId, this`late
      ensures Valid() && OnlyEnds()
      ensures ok <==> old(Addable(a, b)) && addition.Adds?
      ensures late == old(late) + if old(Addable(a, b)) && addition.AddsAndRaises? then 1 else 0
      ensures if ok || late != old(late)
        then
          && old(nextId) <= ia < ib && ib < nextId
          && ends == old(ends)[ia := End(Root, a, ia)][ib := End(Root, b, ia)]
        else ends == old(ends)
    {
      ok, ia, ib := false, 0, 0;
      if !addition.Fails? && Addable(a, b) {
        ia, ib := nextId, nextId + 1;
        ends := ends[nextId := End(Root, a, nextId)][nextId + 1 := End(Root, b, nextId)];
        nextId := nextId + 2;
        if addition.AddsAndRaises? {
          late := late + 1;
        } else {
          ok := true;
        }
      }
    }

    /** Looks an interface up by name; when cleaning up, failing to see one that is there is a refused release. */
    method Lookup(place: Place, name: string, cleaning: bool) returns (index: Option<nat>)
      requires Valid()
      modifies this`refused, this`kept
      ensures index.Some? ==> index.value in ends && ends[index.value].place == place && ends[index.value].name == name
      ensures index.None? && refused == old(refused) && cleaning ==> !Taken(place, name)
      ensures refused - old(refused) == kept - old(kept) >= 0
      ensures index.Some? || !cleaning ==> refused == old(refused)
    {
      var fault: bool := *;
      index := None;
      if Taken(place, name) {
        if fault {
          if cleaning {
            refused, kept := refused + 1, kept + 1;
          }
        } else {
          var i :| i in ends && ends[i].place == place && ends[i].name == name;
          index := Some(i);
        }
      }
    }

    /** Moves and names an interface that is in the root namespace. */
    method Relocate(index: nat, place: Place, name: string) returns (reply: Reply)
      requires Valid()
      modifies this`ends
      ensures Valid() && OnlyEnds()
      ensures
        || ends == old(ends)
        || (index in old(ends) && ends == old(ends)[index := old(ends)[index].(place := place, name := name)])
      ensures reply.Done? ==>
        index in old(ends) && ends == old(ends)[index := old(ends)[index].(place := place, name := name)]
    {
      var fault, late: bool := *, *;
      reply := Raised;
      if !fault && index in ends && ends[index].place == Root && (place.In? ==> place.name in namespaces) &&
         !(exists i <- ends :: i != index && ends[i].place == place && ends[i].name == name) {
        ends := ends[index := ends[index].(place := place, name := name)];
        reply := if late then Raised else Done;
      }
    }

    /** Deletes an interface found by index in the given namespace, and with it the other end of its pair. */
    method Delete(place: Place, index: nat) returns (ok: bool)
      requires Valid()
      modifies this`ends, this`refused, this`kept
      ensures Valid() && OnlyEnds() && refused - old(refused) == kept - old(kept)
      ensures index !in old(ends) || old(ends)[index].place != place ==>
        !ok && ends == old(ends) && refused == old(refused)
      ensures index in old(ends) && old(ends)[index].place == place ==> (ok <==> refused == old(refused))
      ensures ok ==> index in old(ends) && ends == Without(old(ends), old(ends)[index].pair)
      ensures !ok ==> ends == old(ends)
    {
      var fault: bool := *;
      ok := false;
      if index in ends && ends[index].place == place {
        if fault {
          refused, kept := refused + 1, kept + 1;
        } else {
          ends := Without(ends, ends[index].pair);
          ok := true;
        }
      }
    }

    /** Closes a netlink socket; a close that raises is a refused release. */
    method CloseSocket(closes: bool)
      modifies this`refused
      ensures refused == old(refused) + if closes then 0 else 1
    {
      if !closes {
        refused := refused + 1;
      }
    }

    /******* Namespaces, processes and connections *******/

    /** Adds a namespace; the call may raise although the namespace is there. */
    method AddNamespace(name: string) returns (ok: bool)
      requires Valid()
      modifies this`namespaces, this`late
      ensures Valid()
      ensures late == old(late) || (!ok && late == old(late) + 1)
      ensures if ok || late != old(late)
        then name !in old(namespaces) && namespaces == old(namespaces) + {name}
        else namespaces == old(namespaces)
    {
      var fault, raises: bool := *, *;
      ok := false;
      if !fault && name !in namespaces {
        namespaces := namespaces + {name};
        if raises {
          late := late + 1;
        } else {
          ok := true;
        }
      }
    }

    /** Removes a namespace if it exists, with the interfaces inside it and their peers. */
    method RemoveNamespace(name: string)
      requires Valid()
      modifies this`namespaces, this`ends, this`refused
      ensures Valid() && old(refused) <= refused
      ensures refused == old(refused) ==>
        namespaces == old(namespaces) - {name} && ends == Outside(old(ends), name)
    {
      var fault: bool := *;
      if name in namespaces && fault {
        refused := refused + 1;
      } else {
        namespaces := namespaces - {name};
        ends := Outside(ends, name);
      }
    }

    method Spawn() returns (pid: Option<nat>)
      requires Valid()
      modifies this`processes, this`nextId
      ensures Valid() && old(nextId) <= nextId
      ensures pid.Some? ==> pid.value !in old(processes) && processes == old(processes) + {pid.value}
      ensures pid.None? ==> processes == old(processes)
    {
      var fault: bool := *;
      pid := None;
      if !fault {
        pid := Some(nextId);
        processes := processes + {nextId};
        nextId := nextId + 1;
      }
    }

    method Kill(pid: nat)
      requires Valid()
      modifies this`processes, this`refused
      ensures Valid() && old(refused) <= refused
      ensures refused == old(refused) ==> processes == old(processes) - {pid}
      ensures processes == old(processes) || processes == old(processes) - {pid}
    {
      var fault: bool := *;
      if pid in processes && fault {
        refused := refused + 1;
      } else {
        processes := processes - {pid};
      }
    }

    method Dial() returns (connection: Option<nat>)
      requires Valid()
      modifies this`connections, this`nextId
      ensures Valid() && old(nextId) <= nextId
      ensures connection.Some? ==>
        connection.value !in old(connections) && connections == old(connections) + {connection.value}
      ensures connection.None? ==> connections == old(connections)
    {
      var fault: bool := *;
      connection := None;
      if !fault {
        connection := Some(nextId);
        connections := connections + {nextId};
        nextId := nextId + 1;
      }
    }

    method HangUp(connection: nat)
      requires Valid()
      modifies this`connections, this`refused
      ensures Valid() && old(refused) <= refused
      ensures refused == old(refused) ==> connections == old(connections) - {connection}
    {
      var fault: bool := *;
      if connection in connections && fault {
        refused := refused + 1;
      } else {
        connections := connections - {connection};
      }
    }
  }

  /** The interfaces that are not ends of a pair. */
  function Without(ends: map<nat, End>, pair: nat): map<nat, End> {
    map i | i in ends && ends[i].pair != pair :: ends[i]
  }

  /** The interfaces left when a namespace goes: those with no end of their pair in it. */
  function Outside(ends: map<nat, End>, name: string): map<nat, End> {
    map i | i in ends && !(exists j <- ends :: ends[j].pair == ends[i].pair && ends[j].place == In(name)) :: ends[i]
  }
}
