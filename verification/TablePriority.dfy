/** What the priority of a table entry is for. */
module TablePriority {
  import opened Wrappers
  import opened Bits
  import opened Bytes
  import opened BigEndian
  import opened Codec
  import opened Mappings
  import opened MatchEncoding
  import opened MatchMeaning
  import opened NormalForm

  /** The length that the longest-prefix rule looks at; a left-out field has none. */
  function PrefixOf(slot: Option<FieldMatch>): nat {
    if slot.Some? && slot.value.LpmM? then slot.value.prefixLen else 0
  }

  predicate SamePrefixes(t: Table, a: map<nat, FieldMatch>, b: map<nat, FieldMatch>) {
    forall f <- t.fields :: PrefixOf(Get(a, f.id)) == PrefixOf(Get(b, f.id))
  }

  /** Two different messages accept packet p, and no prefix length tells which of them is to win. */
  predicate Ambiguous(t: Table, a: map<nat, FieldMatch>, b: map<nat, FieldMatch>, p: Packet) {
    && WireOk(t, a) && WireOk(t, b) && a != b && IsPacket(t, p)
    && WireAccepts(t, a, p) && WireAccepts(t, b, p) && SamePrefixes(t, a, b)
  }

  predicate Prioritised(f: MatchField) {
    f.kind.Optional? || f.kind.Ternary? || f.kind.Range?
  }

  /******* Without such a field the longest prefix decides *******/

  lemma {:induction false} SameBlockStart(x: nat, v: nat, v': nat, d: nat)
    requires d > 0 && v % d == 0 && v' % d == 0 && x / d == v / d == v' / d
    ensures v == v'
  {
    assert v == d * (v / d) + v % d && v' == d * (v' / d) + v' % d;
  }

  /** Slots of an exact or LPM field that accept one value and have one length are equal. */
  lemma {:induction false} PrefixDecides(f: MatchField, a: Option<FieldMatch>, b: Option<FieldMatch>, x: nat)
    requires f.bitwidth > 0 && !Prioritised(f) && SlotOk(f, a) && SlotOk(f, b)
    requires Accepted(f, a, x) && Accepted(f, b, x) && PrefixOf(a) == PrefixOf(b)
    ensures a == b
  {
    if f.kind.Exact? {
      CanonicalEqualIffSameValue(a.value.value, b.value.value);
    } else if f.kind.Lpm? && a.Some? {
      SameBlockStart(x, BE(a.value.value), BE(b.value.value), Pow2(f.bitwidth - PrefixOf(a)));
      CanonicalEqualIffSameValue(a.value.value, b.value.value);
    }
  }

  /** In a table without a prioritised field no packet is ambiguous. */
  lemma {:induction false} LongestPrefixDecides(t: Table, a: map<nat, FieldMatch>, b: map<nat, FieldMatch>, p: Packet)
    requires TableOk(t) && !NeedsPriority(t) && WireOk(t, a) && WireOk(t, b) && IsPacket(t, p)
    requires WireAccepts(t, a, p) && WireAccepts(t, b, p) && SamePrefixes(t, a, b)
    ensures a == b
  {
    forall f <- t.fields
      ensures Get(a, f.id) == Get(b, f.id)
    {
      PrefixDecides(f, Get(a, f.id), Get(b, f.id), p[f.name]);
    }
    MessagesDiffer(t, a, b);
  }

  /** Dividing twice is dividing by the product. */
  lemma {:induction false} CoarserBlocks(x: nat, d: nat, e: nat)
    requires d > 0 && e > 0
    ensures d * e > 0 && x / (d * e) == x / d / e
  {
    var q, r := x / d, x % d;
    var q2, r2 := q / e, q % e;
    assert d * e > 0 by { AtLeast(d, e); }
    assert d * q == d * (e * q2 + r2) == (d * e) * q2 + d * r2;
    assert x == (d * e) * q2 + (d * r2 + r);
    assert d * r2 <= d * (e - 1) == d * e - d by {
      AtLeastZero(d, e - 1 - r2);
      Distribute(d, e, 1);
      Distribute(d, e, 1 + r2);
    }
    DivisionIsUnique(x, d * e, q2, d * r2 + r);
  }

  /** Of two prefixes that share a value, the longer accepts only what the shorter accepts. */
  lemma {:induction false} PrefixesNest(f: MatchField, a: Option<FieldMatch>, b: Option<FieldMatch>, x: nat, y: nat)
    requires f.bitwidth > 0 && !Prioritised(f) && SlotOk(f, a) && SlotOk(f, b) && Fits(f, x) && Fits(f, y)
    requires Accepted(f, a, x) && Accepted(f, b, x) && PrefixOf(a) <= PrefixOf(b)
    ensures Accepted(f, b, y) ==> Accepted(f, a, y)
  {
    if f.kind.Lpm? && a.Some? && b.Some? {
      var m, n := PrefixOf(a), PrefixOf(b);
      var d, e := Pow2(f.bitwidth - n), Pow2(n - m);
      Pow2Adds(f.bitwidth - n, n - m);
      assert Pow2(f.bitwidth - m) == d * e;
      CoarserBlocks(x, d, e);
      CoarserBlocks(y, d, e);
    }
  }

  /******* With such a field it does not *******/

  /** A message with zero in every exact field and nothing else. */
  function Plain(t: Table): map<nat, FieldMatch> {
    map i | 0 <= i < |t.fields| && t.fields[i].kind.Exact? :: t.fields[i].id := ExactM([0])
  }

  /** A proper slot of a prioritised field that accepts zero. */
  function Narrow(f: MatchField): FieldMatch {
    match f.kind
    case Ternary => TernaryM([0], [1])
    case Range => RangeM([0], [0])
    case _ => OptionalM([0])
  }

  lemma {:induction false} SmallBytes(f: MatchField)
    requires f.bitwidth > 0
    ensures CanonicalIn(f, [0]) && CanonicalIn(f, [1]) && BE([0]) == 0 && BE([1]) == 1
  {
    Pow2Grows(1, f.bitwidth);
    assert [0 as Byte][..0] == [] && [1 as Byte][..0] == [];
    assert [0 as Byte][1..] == [];
  }

  lemma {:induction false} NarrowAcceptsZero(f: MatchField)
    requires f.bitwidth > 0 && Prioritised(f)
    ensures WellFormed(f, Narrow(f)) && PayloadMatches(f, Narrow(f), 0) && !Narrow(f).LpmM?
  {
    SmallBytes(f);
    Pow2Grows(1, f.bitwidth);
  }

  lemma {:induction false} PlainAcceptsZero(t: Table, f: MatchField)
    requires TableOk(t) && f in t.fields
    ensures SlotOk(f, Get(Plain(t), f.id)) && Accepted(f, Get(Plain(t), f.id), 0)
    ensures Get(Plain(t), f.id).Some? <==> f.kind.Exact?
  {
    SmallBytes(f);
    var i :| 0 <= i < |t.fields| && t.fields[i] == f;
    if f.id in Plain(t) {
      var j :| 0 <= j < |t.fields| && t.fields[j].kind.Exact? && t.fields[j].id == f.id;
      SameField(t, f, t.fields[j]);
    }
  }

  /** A table with a prioritised field has an ambiguous packet. */
  lemma {:induction false} PriorityIsNeeded(t: Table, f: MatchField)
    returns (a: map<nat, FieldMatch>, b: map<nat, FieldMatch>, p: Packet)
    requires TableOk(t) && f in t.fields && Prioritised(f)
    ensures Ambiguous(t, a, b, p)
  {
    a := Plain(t);
    b := Narrowed(t, f);
    p := ZeroPacket(t);
    forall g <- t.fields
      ensures BothAcceptZero(g, Get(a, g.id), Get(b, g.id))
    {
      NarrowedAcceptsZero(t, f, g);
    }
    NarrowedDiffers(t, f);
    ZeroIsAmbiguous(t, a, b, p);
  }

  /** The plain message with a proper slot for f. */
  function Narrowed(t: Table, f: MatchField): map<nat, FieldMatch> {
    Plain(t)[f.id := Narrow(f)]
  }

  predicate BothAcceptZero(g: MatchField, a: Option<FieldMatch>, b: Option<FieldMatch>) {
    SlotOk(g, a) && SlotOk(g, b) && Accepted(g, a, 0) && Accepted(g, b, 0) && PrefixOf(a) == PrefixOf(b)
  }

  lemma {:induction false} ZeroIsAmbiguous(t: Table, a: map<nat, FieldMatch>, b: map<nat, FieldMatch>, p: Packet)
    requires TableOk(t) && a != b && forall f <- t.fields :: f.name in p && p[f.name] == 0
    requires forall id: nat | id in a || id in b :: HasId(t, id)
    requires forall g <- t.fields :: BothAcceptZero(g, Get(a, g.id), Get(b, g.id))
    ensures Ambiguous(t, a, b, p)
  {}

  lemma {:induction false} NarrowedDiffers(t: Table, f: MatchField)
    requires TableOk(t) && f in t.fields && Prioritised(f)
    ensures Plain(t) != Narrowed(t, f)
    ensures forall id: nat | id in Plain(t) || id in Narrowed(t, f) :: HasId(t, id)
  {
    PlainAcceptsZero(t, f);
    assert f.id !in Plain(t) && f.id in Narrowed(t, f);
    assert HasId(t, f.id);
    forall id <- Plain(t)
      ensures HasId(t, id)
    {
      var i :| 0 <= i < |t.fields| && t.fields[i].id == id;
      assert t.fields[i] in t.fields;
    }
  }

  /** The packet with zero in every field. */
  function ZeroPacket(t: Table): (p: Packet)
    ensures forall f <- t.fields :: f.name in p && p[f.name] == 0
  {
    map i | 0 <= i < |t.fields| :: t.fields[i].name := 0
  }

  lemma {:induction false} NarrowedAcceptsZero(t: Table, f: MatchField, g: MatchField)
    requires TableOk(t) && f in t.fields && Prioritised(f) && g in t.fields
    ensures BothAcceptZero(g, Get(Plain(t), g.id), Get(Narrowed(t, f), g.id))
  {
    PlainAcceptsZero(t, g);
    NarrowAcceptsZero(f);
    SameField(t, f, g);
  }

  /**
    The flag is set exactly if the longest-prefix rule can fail: if two different well-formed messages of
    the table, equal in all their prefix lengths, accept a common packet.
   */
  lemma {:induction false} PriorityNeededExactly(t: Table)
    requires TableOk(t)
    ensures NeedsPriority(t) <==>
      exists a: map<nat, FieldMatch>, b: map<nat, FieldMatch>, p: Packet :: Ambiguous(t, a, b, p)
  {
    if f :| f in t.fields && Prioritised(f) {
      var a, b, p := PriorityIsNeeded(t, f);
    } else {
      forall a: map<nat, FieldMatch>, b: map<nat, FieldMatch>, p: Packet
        ensures !Ambiguous(t, a, b, p)
      {
        if WireOk(t, a) && WireOk(t, b) && IsPacket(t, p) && WireAccepts(t, a, p) && WireAccepts(t, b, p) &&
           SamePrefixes(t, a, b) {
          LongestPrefixDecides(t, a, b, p);
        }
      }
    }
  }
}
