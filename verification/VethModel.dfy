/** VethPair: creation in the target namespaces, with its rollback, and destruction. */
module VethModel {
  import opened Wrappers
  import opened KernelModel

  datatype Side = A | B

  /** One value for each side of a pair. */
  datatype Both<T> = Both(a: T, b: T) {
    function Of(side: Side): T {
      if side == A then a else b
    }

    function Set(side: Side, value: T): Both<T> {
      if side == A then Both(value, b) else Both(a, value)
    }
  }

  const UNPLACED := Both(Root, Root)

  ghost predicate PlacedIn(ends: map<nat, End>, index: Both<nat>, names: Both<string>, targets: Both<Place>) {
    && index.a != index.b && index.a in ends && index.b in ends
    && ends[index.a] == End(targets.a, names.a, index.a)
    && ends[index.b] == End(targets.b, names.b, index.a)
  }

  ghost predicate AloneIn(ends: map<nat, End>, index: Both<nat>) {
    forall i <- ends :: ends[i].pair == index.a ==> i == index.a || i == index.b
  }

  class VethPair {
    const names: Both<string>
    const targets: Both<Place>
    var ns: Both<Place>         // where each end is recorded to be; Root also before creation
    var created: bool
    ghost var index: Both<nat>  // the two interfaces, once they have been added

    constructor (names: Both<string>, targets: Both<Place>)
      ensures !created && ns == UNPLACED && this.names == names && this.targets == targets
    {
      this.names := names;
      this.targets := targets;
      ns := UNPLACED;
      created := false;
      index := Both(0, 0);
    }

    /** The two interfaces of this pair exist, and together with `others` they are all there is. */
    ghost predicate Exists(k: Kernel, others: map<nat, End>)
      reads this, k`ends
    {
      && index.a != index.b && index.a !in others && index.b !in others
      && k.ends.Keys == others.Keys + {index.a, index.b}
      && (forall i <- others :: k.ends[i] == others[i] && others[i].pair != index.a)
      && k.ends[index.a].pair == k.ends[index.b].pair == index.a
    }

    /** An end is where it is recorded to be; outside the root namespace also under its final name. */
    ghost predicate AtRecord(k: Kernel, side: Side)
      reads this, k`ends
    {
      && index.Of(side) in k.ends
      && k.ends[index.Of(side)].place == ns.Of(side)
      && (ns.Of(side).In? ==> k.ends[index.Of(side)].name == names.Of(side))
    }

    /** Both ends are in their target namespaces under their names, and recorded there. */
    ghost predicate Placed(k: Kernel)
      reads this, k`ends
    {
      created && ns == targets && PlacedIn(k.ends, index, names, targets)
    }

    /** The pair is placed, and its two interfaces are the only ones of the pair. */
    ghost predicate Owned(k: Kernel)
      reads this, k`ends
    {
      Placed(k) && AloneIn(k.ends, index)
    }

    /**
      `create`; `addition` says what adding the pair comes to, and `closes` whether the netlink socket closes
      without an error.  `made` says that the pair was made: it succeeds exactly if the socket then closes
      as well.  A pair that was made before the
      socket failed to close is in place but not marked as created.  Nothing else is left over exactly if
      the addition did not raise after taking effect and the rollback was not refused its deletion.
     */
    method Create(k: Kernel, prefix: string, addition: Addition, settles: bool, closes: bool)
      returns (ok: bool, ghost made: bool)
      requires k.Valid() && (!created ==> ns == UNPLACED)
      modifies this, k`ends, k`nextId, k`refused, k`kept, k`late
      ensures k.Valid() && k.OnlyEnds()
      ensures ok <==> made && closes
      ensures created == (old(created) || ok)
      ensures old(created) ==> !made && k.ends == old(k.ends) && k.refused == old(k.refused) && ns == old(ns)
      ensures made ==> Made(k, old(k.ends)) && k.refused == old(k.refused) + if closes then 0 else 1
      ensures k.ends == old(k.ends) <==> !made && k.late == old(k.late) && k.kept == old(k.kept)
      ensures made ==> k.late == old(k.late) && k.kept == old(k.kept)
      ensures k.ends == old(k.ends) || (Exists(k, old(k.ends)) && old(k.nextId) <= index.a)
      ensures old(!created && Direct() && k.Addable(names.a, names.b)) ==>
        (made <==> addition.Adds?) && (k.late == old(k.late) <==> !addition.AddsAndRaises?)
    {
      if created {
        return false, false;
      }
      if (targets.a == Root && k.Taken(Root, names.a)) || (targets.b == Root && k.Taken(Root, names.b)) {
        return false, false;
      }
      ok := MakePair(k, prefix, addition, settles);
      made := ok;
      if ok {
        k.CloseSocket(closes);
        ok := closes;
      }
      created := ok;
    }

    /** Both ends stay in the root namespace, and the kernel's tools can take their names as they are. */
    predicate Direct() {
      targets == UNPLACED && Ascii(names.a) && Ascii(names.b)
    }

    /** The pair exists, is in its target namespaces under its names, and is recorded there. */
    ghost predicate Made(k: Kernel, others: map<nat, End>)
      reads this, k`ends
    {
      Exists(k, others) && ns == targets && PlacedIn(k.ends, index, names, targets)
    }

    /** The pair is added under its names at once where that is possible, and else by way of temporary ones. */
    method MakePair(k: Kernel, prefix: string, addition: Addition, settles: bool) returns (ok: bool)
      requires k.Valid() && ns == UNPLACED
      modifies this`ns, this`index, k`ends, k`nextId, k`refused, k`kept, k`late
      ensures k.Valid() && k.OnlyEnds()
      ensures ok ==> k.refused == old(k.refused) && Made(k, old(k.ends))
      ensures ok ==> k.late == old(k.late) && k.kept == old(k.kept)
      ensures k.ends == old(k.ends) <==> !ok && k.late == old(k.late) && k.kept == old(k.kept)
      ensures k.ends == old(k.ends) || (Exists(k, old(k.ends)) && old(k.nextId) <= index.a)
      ensures Direct() && old(k.Addable(names.a, names.b)) ==>
        (ok <==> addition.Adds?) && (k.late == old(k.late) <==> !addition.AddsAndRaises?)
    {
      if Direct() {
        ghost var ia, ib;
        ok, ia, ib := k.AddPair(names.a, names.b, addition);
        index := Both(ia, ib);
      } else {
        ok := CreateTemporaryPair(k, prefix, addition, settles);
      }
    }

    /**
      `_create_temporary_pair`: add the pair under temporary names, move and name both ends, and roll back
      on any failure after the addition.  `settles` says whether waiting for udev succeeds.
     */
    method CreateTemporaryPair(k: Kernel, prefix: string, addition: Addition, settles: bool) returns (ok: bool)
      requires k.Valid() && ns == UNPLACED
      modifies this`ns, this`index, k`ends, k`nextId, k`refused, k`kept, k`late
      ensures k.Valid() && k.OnlyEnds()
      ensures ok ==> k.refused == old(k.refused) && Made(k, old(k.ends))
      ensures ok ==> k.late == old(k.late) && k.kept == old(k.kept)
      ensures k.ends == old(k.ends) <==> !ok && k.late == old(k.late) && k.kept == old(k.kept)
      ensures k.ends == old(k.ends) || (Exists(k, old(k.ends)) && old(k.nextId) <= index.a)
    {
      ghost var others := k.ends;
      var temporaryA, temporaryB := prefix + "a", prefix + "b";
      var added;
      ghost var ia, ib;
      added, ia, ib := k.AddPair(temporaryA, temporaryB, addition);
      index := Both(ia, ib);
      if !added {
        return false;
      }
      ok := FinishPair(k, temporaryA, temporaryB, settles, others);
    }

    /** All after the addition of the two temporary interfaces: either both ends get in place or the pair goes. */
    method FinishPair(k: Kernel, temporaryA: string, temporaryB: string, settles: bool, ghost others: map<nat, End>)
      returns (ok: bool)
      requires k.Valid() && Exists(k, others) && ns == UNPLACED
      requires k.ends[index.a] == End(Root, temporaryA, index.a) && k.ends[index.b] == End(Root, temporaryB, index.a)
      modifies this`ns, k`ends, k`refused, k`kept
      ensures k.Valid() && k.OnlyEnds()
      ensures ok ==> k.refused == old(k.refused) && Made(k, others)
      ensures k.ends == others <==> !ok && k.kept == old(k.kept)
      ensures k.ends == others || Exists(k, others)
    {
      var indexes := FindBoth(k, temporaryA, temporaryB, others);
      var cleanup := if indexes.b.Some? && targets.a != Root then B else A;
      ok := indexes.b.Some? && settles;
      if ok {
        ok, cleanup := PlaceBoth(k, indexes.a.value, indexes.b.value, cleanup, others);
      }
      if !ok {
        Rollback(k, indexes, cleanup, temporaryA, others);
      }
    }

    /** The move loop, side a first. */
    method PlaceBoth(k: Kernel, i: nat, j: nat, cleanup: Side, ghost others: map<nat, End>)
      returns (ok: bool, cleanup': Side)
      requires k.Valid() && Exists(k, others) && ns == UNPLACED && index == Both(i, j)
      requires AtRecord(k, A) && AtRecord(k, B) && cleanup == if targets.a != Root then B else A
      modifies this`ns, k`ends
      ensures k.Valid() && k.OnlyEnds() && k.refused == old(k.refused) && Exists(k, others)
      ensures AtRecord(k, cleanup')
      ensures ok ==> ns == targets && PlacedIn(k.ends, index, names, targets)
    {
      var raised;
      raised, cleanup' := Place(k, A, i, cleanup, others);
      if !raised {
        raised, cleanup' := Place(k, B, j, cleanup', others);
      }
      ok := !raised;
    }

    /** Looks up the two temporary interfaces; either lookup may fail. */
    method FindBoth(k: Kernel, temporaryA: string, temporaryB: string, ghost others: map<nat, End>)
      returns (indexes: Both<Option<nat>>)
      requires k.Valid() && Exists(k, others)
      requires k.ends[index.a] == End(Root, temporaryA, index.a) && k.ends[index.b] == End(Root, temporaryB, index.a)
      modifies k`refused, k`kept
      ensures k.refused == old(k.refused) && k.kept == old(k.kept)
      ensures indexes.a.Some? ==> indexes.a.value == index.a
      ensures indexes.b.Some? ==> indexes.a.Some? && indexes.b.value == index.b
    {
      indexes := Both(None, None);
      var found := k.Lookup(Root, temporaryA, false);
      if found.Some? {
        indexes := Both(found, None);
        found := k.Lookup(Root, temporaryB, false);
        indexes := indexes.Set(B, found);
      }
    }

    /** One round of the move loop: name an end in place, or move and name it; it may raise after the move. */
    method Place(k: Kernel, side: Side, i: nat, cleanup: Side, ghost others: map<nat, End>)
      returns (raised: bool, cleanup': Side)
      requires k.Valid() && Exists(k, others)
      requires index.Of(side) == i && ns.Of(side) == Root && AtRecord(k, side) && AtRecord(k, cleanup)
      requires cleanup == side ==> targets.Of(side) == Root
      modifies this`ns, k`ends
      ensures k.Valid() && k.OnlyEnds() && k.refused == old(k.refused) && Exists(k, others)
      ensures AtRecord(k, cleanup')
      ensures ns == old(ns).Set(side, ns.Of(side))
      ensures k.ends == old(k.ends)[i := k.ends[i]]
      ensures !raised ==> ns.Of(side) == targets.Of(side) && cleanup' == side
      ensures !raised ==> k.ends[i] == End(targets.Of(side), names.Of(side), index.a)
    {
      cleanup' := cleanup;
      if targets.Of(side) == Root {
        var reply := k.Relocate(i, Root, names.Of(side));
        raised := reply.Raised?;
        if !raised {
          cleanup' := side;
        }
      } else {
        raised, cleanup' := MoveAndName(k, side, i, cleanup, others);
      }
    }

    method MoveAndName(k: Kernel, side: Side, i: nat, cleanup: Side, ghost others: map<nat, End>)
      returns (raised: bool, cleanup': Side)
      requires k.Valid() && Exists(k, others)
      requires index.Of(side) == i && ns.Of(side) == Root && AtRecord(k, side) && AtRecord(k, cleanup)
      requires cleanup != side
      modifies this`ns, k`ends
      ensures k.Valid() && k.OnlyEnds() && k.refused == old(k.refused) && Exists(k, others)
      ensures AtRecord(k, cleanup')
      ensures ns == old(ns).Set(side, ns.Of(side))
      ensures k.ends == old(k.ends)[i := k.ends[i]]
      ensures !raised ==> ns.Of(side) == targets.Of(side) && cleanup' == side
      ensures !raised ==> k.ends[i] == End(targets.Of(side), names.Of(side), index.a)
    {
      cleanup' := cleanup;
      var opens, closes: bool := *, *;
      if !opens {
        return true, cleanup;
      }
      var reply := k.Relocate(i, targets.Of(side), names.Of(side));
      if reply.Done? {
        ns := ns.Set(side, targets.Of(side));
        cleanup' := side;
      }
      raised := reply.Raised? || !closes;
    }

    /** The handler of every failure: delete the pair through an end that is where it is recorded. */
    method Rollback(k: Kernel, indexes: Both<Option<nat>>, cleanup: Side, temporaryA: string,
                    ghost others: map<nat, End>)
      requires k.Valid() && Exists(k, others)
      requires indexes.a.None? ==> k.ends[index.a].place == Root && k.ends[index.a].name == temporaryA
      requires indexes.a.Some? ==> indexes.Of(cleanup) == Some(index.Of(cleanup)) && AtRecord(k, cleanup)
      modifies this`ns, k`ends, k`refused, k`kept
      ensures k.Valid() && k.OnlyEnds()
      ensures k.ends == others <==> k.kept == old(k.kept)
      ensures k.refused == old(k.refused) ==> ns == UNPLACED
      ensures k.ends == others || Exists(k, others)
    {
      var ok := false;
      if indexes.a.None? {
        ok := DeleteNamed(k, A, Root, temporaryA, others);
      } else if ns.Of(cleanup) == Root {
        ok := k.Delete(Root, indexes.Of(cleanup).value);
        OnlyOthersLeft(old(k.ends), index, others);
      } else {
        ok := DeleteNamed(k, cleanup, ns.Of(cleanup), names.Of(cleanup), others);
        var closes: bool := *;
        k.CloseSocket(closes);
        ok := ok && closes;
      }
      if ok {
        ns := UNPLACED;
      }
    }

    /** Deletes the pair through one end, looked up by name in the namespace where that end is. */
    method DeleteNamed(k: Kernel, side: Side, place: Place, name: string, ghost others: map<nat, End>)
      returns (ok: bool)
      requires k.Valid() && Exists(k, others)
      requires k.ends[index.Of(side)].place == place && k.ends[index.Of(side)].name == name
      modifies k`ends, k`refused, k`kept
      ensures k.Valid() && k.OnlyEnds()
      ensures ok <==> k.refused == old(k.refused)
      ensures ok <==> k.kept == old(k.kept)
      ensures ok ==> k.ends == others
      ensures !ok ==> k.ends == old(k.ends)
    {
      ok := false;
      assert k.Taken(place, name);
      var found := k.Lookup(place, name, true);
      if found.Some? {
        assert found.value == index.Of(side);
        ok := k.Delete(place, found.value);
        OnlyOthersLeft(old(k.ends), index, others);
      }
    }

    /** `destroy`: deletes side a where it is recorded, and with it the pair. */
    method Destroy(k: Kernel) returns (ok: bool)
      requires k.Valid() && Owned(k)
      modifies this`ns, this`created, k`ends, k`refused, k`kept
      ensures k.Valid() && k.OnlyEnds()
      ensures ok <==> k.refused == old(k.refused)
      ensures ok ==> !created && ns == UNPLACED && k.ends == Without(old(k.ends), index.a)
      ensures k.ends == if k.kept == old(k.kept) then Without(old(k.ends), index.a) else old(k.ends)
    {
      ok := DeleteNamed(k, A, ns.a, names.a, Without(k.ends, index.a));
      var closes: bool := *;
      k.CloseSocket(closes);
      ok := ok && closes;
      if ok {
        created := false;
        ns := UNPLACED;
      }
    }
  }

  /** With no interface around, a socket that fails to close leaves a pair in place that is not marked as created. */
  method FailedCloseLeavesPair() returns (k: Kernel, pair: VethPair)
    ensures pair.names == Both("veth-a", "veth-b") && pair.Made(k, map[]) && !pair.created
  {
    k := new Kernel();
    pair := new VethPair(Both("veth-a", "veth-b"), UNPLACED);
    ghost var made;
    var ok;
    ok, made := pair.Create(k, "p4n", Adds, true, false);
  }

  /** So does an addition that raises after taking effect; that pair is not recorded anywhere. */
  method LateErrorLeavesPair() returns (k: Kernel, pair: VethPair)
    ensures pair.names == Both("veth-a", "veth-b") && pair.Exists(k, map[]) && !pair.created
  {
    k := new Kernel();
    pair := new VethPair(Both("veth-a", "veth-b"), UNPLACED);
    ghost var made;
    var ok;
    ok, made := pair.Create(k, "p4n", AddsAndRaises, true, true);
  }

  lemma {:induction false} OnlyOthersLeft(ends: map<nat, End>, index: Both<nat>, others: map<nat, End>)
    requires ends.Keys == others.Keys + {index.a, index.b}
    requires index.a !in others && index.b !in others
    requires forall i <- others :: ends[i] == others[i] && others[i].pair != index.a
    requires ends[index.a].pair == ends[index.b].pair == index.a
    ensures Without(ends, index.a) == others
  {}

  predicate Ascii(name: string) {
    forall c <- name :: c as int < 128
  }

  /** Adding another pair leaves a placed pair placed and alone. */
  lemma {:induction false} StaysBesideNewPair(ends: map<nat, End>, ends': map<nat, End>, added: Both<nat>,
                           index: Both<nat>, names: Both<string>, targets: Both<Place>)
    requires PlacedIn(ends, index, names, targets) && AloneIn(ends, index)
    requires ends'.Keys == ends.Keys + {added.a, added.b} && forall i <- ends :: ends'[i] == ends[i]
    requires ends'[added.a].pair == ends'[added.b].pair == added.a && added.a != index.a
    ensures PlacedIn(ends', index, names, targets) && AloneIn(ends', index)
  {}

  /** Deleting another pair does too. */
  lemma {:induction false} StaysWithoutPair(ends: map<nat, End>, pair: nat, index: Both<nat>, names: Both<string>,
                                            targets: Both<Place>)
    requires PlacedIn(ends, index, names, targets) && AloneIn(ends, index) && pair != index.a
    ensures PlacedIn(Without(ends, pair), index, names, targets) && AloneIn(Without(ends, pair), index)
  {}
}
