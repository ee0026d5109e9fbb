/** The mappings from names to values that callers pass and get: ordered, no name twice. */
module Mappings {
  import opened Wrappers
  import opened Codec

  /** A mapping in the order of its names. */
  type Match = seq<(string, Value)>

  predicate DistinctNames(m: Match) {
    forall i, j | 0 <= i < j < |m| :: m[i].0 != m[j].0
  }

  predicate HasName(m: Match, name: string) {
    exists i | 0 <= i < |m| :: m[i].0 == name
  }

  /** The last value given for a name. */
  function Lookup(m: Match, name: string): Option<Value> {
    if |m| == 0 then None
    else if m[|m| - 1].0 == name then Some(m[|m| - 1].1)
    else Lookup(m[..|m| - 1], name)
  }

  /** Assignment in an ordered mapping: a known name keeps its place. */
  function Assign(m: Match, name: string, value: Value): Match {
    if |m| == 0 then [(name, value)]
    else if m[0].0 == name then [(name, value)] + m[1..]
    else [m[0]] + Assign(m[1..], name, value)
  }

  lemma {:induction false} LookupMisses(m: Match, name: string)
    requires forall i | 0 <= i < |m| :: m[i].0 != name
    ensures Lookup(m, name).None?
  {
    if |m| > 0 {
      LookupMisses(m[..|m| - 1], name);
    }
  }

  lemma {:induction false} LookupHits(m: Match, name: string)
    ensures Lookup(m, name).Some? <==> HasName(m, name)
  {
    if |m| > 0 {
      var n := |m| - 1;
      LookupHits(m[..n], name);
      assert HasName(m[..n], name) ==> HasName(m, name) by {
        if i :| 0 <= i < n && m[..n][i].0 == name {
          assert m[i].0 == name;
        }
      }
      if HasName(m, name) && m[n].0 != name {
        var i :| 0 <= i < |m| && m[i].0 == name;
        assert m[..n][i].0 == name;
      }
    }
  }

  lemma {:induction false} AssignNew(m: Match, name: string, value: Value)
    requires !HasName(m, name)
    ensures Assign(m, name, value) == m + [(name, value)]
  {
    if |m| > 0 {
      assert m[0].0 != name;
      assert forall i | 0 <= i < |m[1..]| :: m[1..][i].0 == m[i + 1].0 != name;
      AssignNew(m[1..], name, value);
      assert m == [m[0]] + m[1..];
    }
  }

  lemma {:induction false} AssignOver(m: Match, name: string, value: Value, i: nat)
    requires i < |m| && m[i].0 == name && DistinctNames(m)
    ensures Assign(m, name, value) == m[i := (name, value)]
  {
    if i > 0 {
      AssignOver(m[1..], name, value, i - 1);
    }
  }

  lemma {:induction false} LookupFinds(m: Match, i: nat)
    requires i < |m| && DistinctNames(m)
    ensures Lookup(m, m[i].0) == Some(m[i].1)
  {
    if i < |m| - 1 {
      LookupFinds(m[..|m| - 1], i);
    }
  }

  /** An assignment changes the value of its name and of no other. */
  lemma {:induction false} AssignLooksUp(m: Match, name: string, value: Value, other: string)
    requires DistinctNames(m)
    ensures DistinctNames(Assign(m, name, value))
    ensures Lookup(Assign(m, name, value), other) == if other == name then Some(value) else Lookup(m, other)
  {
    if i :| 0 <= i < |m| && m[i].0 == name {
      AssignOver(m, name, value, i);
      OverwrittenLooksUp(m, i, value, other);
    } else {
      AssignNew(m, name, value);
      assert (m + [(name, value)])[..|m|] == m;
    }
  }

  lemma {:induction false} OverwrittenLooksUp(m: Match, i: nat, value: Value, other: string)
    requires i < |m| && DistinctNames(m)
    ensures Lookup(m[i := (m[i].0, value)], other) == if other == m[i].0 then Some(value) else Lookup(m, other)
  {
    var changed := m[i := (m[i].0, value)];
    if j :| 0 <= j < |m| && m[j].0 == other {
      LookupFinds(m, j);
      LookupFinds(changed, j);
    } else {
      LookupMisses(m, other);
      LookupMisses(changed, other);
    }
  }

  /** Assigning adds at most the assigned name. */
  lemma {:induction false} AssignNames(m: Match, name: string, value: Value)
    ensures forall i | 0 <= i < |Assign(m, name, value)| ::
      Assign(m, name, value)[i].0 == name || exists j | 0 <= j < |m| :: m[j].0 == Assign(m, name, value)[i].0
  {
    if |m| > 0 && m[0].0 != name {
      AssignNames(m[1..], name, value);
      forall i | 0 < i < |Assign(m, name, value)| && Assign(m, name, value)[i].0 != name
        ensures exists j | 0 <= j < |m| :: m[j].0 == Assign(m, name, value)[i].0
      {
        assert Assign(m, name, value)[i] == Assign(m[1..], name, value)[i - 1];
        var j :| 0 <= j < |m[1..]| && m[1..][j].0 == Assign(m[1..], name, value)[i - 1].0;
        assert m[j + 1].0 == Assign(m, name, value)[i].0;
      }
    }
  }
}
