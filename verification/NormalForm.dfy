/** The wire form of a match is a normal form of the set of packets that the match accepts. */
module NormalForm {
  import opened Wrappers
  import opened Bits
  import opened Bytes
  import opened BigEndian
  import opened Codec
  import opened Mappings
  import opened MatchEncoding
  import opened MatchMeaning

  /******* Encoding keeps the meaning *******/

  predicate DistinctIds(w: seq<WireField>) {
    forall i, j | 0 <= i < j < |w| :: w[i].id != w[j].id
  }

  lemma {:induction false} IdsOfMap(w: seq<WireField>, id: nat)
    ensures id in AsMap(w) <==> exists i | 0 <= i < |w| :: w[i].id == id
  {
    if |w| > 0 {
      var n := |w| - 1;
      IdsOfMap(w[..n], id);
      if i :| 0 <= i < n && w[i].id == id {
        assert w[..n][i].id == id;
      }
      if id in AsMap(w[..n]) {
        var i :| 0 <= i < n && w[..n][i].id == id;
        assert w[i].id == id;
      }
    }
  }

  /** Only ids of indexed fields are sent, each at most once. */
  lemma {:induction false} SentIds(encode: Encoder, fields: map<string, MatchField>, m: Match)
    requires KeepsIds(encode) && DistinctNames(m) && forall name <- fields :: Unique(fields, fields[name])
    requires forall i | 0 <= i < |m| :: m[i].0 in fields
    requires EncodeFields(encode, fields, m).Ok?
    ensures var w := EncodeFields(encode, fields, m).value;
      DistinctIds(w) && forall i | 0 <= i < |w| :: SentFor(fields, w[i].id)
    decreases |m|
  {
    if |m| > 0 {
      var n := |m| - 1;
      var g := fields[m[n].0];
      SentIds(encode, fields, m[..n]);
      assert SentFor(fields, g.id);
      assert g.name == m[n].0;
      EncodesBySlot(encode, fields, m[..n], g);
      LookupMisses(m[..n], g.name);
      IdsOfMap(EncodeFields(encode, fields, m[..n]).value, g.id);
    }
  }

  predicate SentFor(fields: map<string, MatchField>, id: nat) {
    exists name <- fields :: fields[name].id == id
  }

  /** For an accepted match, a field's slot is well formed and accepts what the match's value accepts. */
  lemma {:induction false} SlotMeans(ip6: Ipv6, t: Table, m: Match, f: MatchField, x: nat)
    requires TableOk(t) && f in t.fields && DistinctNames(m) && Encoded(ip6, t, m).Ok? && Fits(f, x)
    ensures var slot := Get(AsMap(Encoded(ip6, t, m).value), f.id);
      && slot == SlotOf(FieldEncoder(ip6), f, m) && SlotOk(f, slot)
      && (Lookup(m, f.name).Some? ==> EncodeField(ip6, f, Lookup(m, f.name).value).Ok?)
      && (Accepted(f, slot, x) <==>
          (Lookup(m, f.name).Some? ==> ValueMatches(ip6, f, Lookup(m, f.name).value, x)))
  {
    EncoderKeepsIds(ip6);
    FieldsAreUnique(t, f);
    EncodesBySlot(FieldEncoder(ip6), ByName(t.fields), m, f);
    LookupHits(m, f.name);
    if Lookup(m, f.name).Some? {
      FieldEncodes(ip6, f, Lookup(m, f.name).value, x);
    }
  }

  lemma {:induction false} EncoderKeepsIds(ip6: Ipv6)
    ensures KeepsIds(FieldEncoder(ip6))
  {
  }

  /** The message accepts exactly the packets that the match accepts, and is well formed. */
  lemma {:induction false} EncodingKeepsMeaning(ip6: Ipv6, t: Table, m: Match, p: Packet)
    requires TableOk(t) && DistinctNames(m) && Encoded(ip6, t, m).Ok? && IsPacket(t, p)
    ensures WireAccepts(t, AsMap(Encoded(ip6, t, m).value), p) <==> MatchAccepts(ip6, t, m, p)
  {
    forall f <- t.fields
      ensures Accepted(f, Get(AsMap(Encoded(ip6, t, m).value), f.id), p[f.name]) <==>
        (Lookup(m, f.name).Some? ==>
           EncodeField(ip6, f, Lookup(m, f.name).value).Ok? &&
           ValueMatches(ip6, f, Lookup(m, f.name).value, p[f.name]))
    {
      SlotMeans(ip6, t, m, f, p[f.name]);
    }
  }

  lemma {:induction false} EncodingIsWellFormed(ip6: Ipv6, t: Table, m: Match)
    requires TableOk(t) && DistinctNames(m) && Encoded(ip6, t, m).Ok?
    ensures DistinctIds(Encoded(ip6, t, m).value) && WireOk(t, AsMap(Encoded(ip6, t, m).value))
  {
    EncoderKeepsIds(ip6);
    var fields := ByName(t.fields);
    forall name <- fields
      ensures fields[name] in t.fields && Unique(fields, fields[name])
    {
      ByNameHasOnly(t.fields, name);
      FieldsAreUnique(t, fields[name]);
    }
    SentIds(FieldEncoder(ip6), fields, m);
    var w := Encoded(ip6, t, m).value;
    forall id <- AsMap(w)
      ensures HasId(t, id)
    {
      IdsOfMap(w, id);
      assert SentFor(fields, id);
    }
    forall f <- t.fields
      ensures SlotOk(f, Get(AsMap(w), f.id))
    {
      SlotMeans(ip6, t, m, f, 0);
    }
  }

  /******* One field: different slots accept different values *******/

  /** Every slot but a ternary one accepts an interval. */
  function Low(f: MatchField, slot: Option<FieldMatch>): nat {
    match slot
    case None => 0
    case Some(LpmM(v, _)) => BE(v)
    case Some(RangeM(low, _)) => BE(low)
    case Some(TernaryM(v, _)) => BE(v)
    case Some(p) => BE(p.value)
  }

  function High(f: MatchField, slot: Option<FieldMatch>): int
    requires f.bitwidth > 0 && SlotOk(f, slot)
  {
    match slot
    case None => Pow2(f.bitwidth) - 1
    case Some(LpmM(v, prefixLen)) => BE(v) + Pow2(f.bitwidth - prefixLen) - 1
    case Some(RangeM(_, high)) => BE(high)
    case Some(p) => BE(p.value)
  }

  /** A block of size d that starts at a multiple of d. */
  lemma {:induction false} Block(x: nat, v: nat, d: nat)
    requires d > 0 && v % d == 0
    ensures x / d == v / d <==> v <= x < v + d
  {
    var q := v / d;
    assert v == d * q;
    if v <= x < v + d {
      DivisionIsUnique(x, d, q, x - v);
    }
    if x / d == q {
      assert x == d * q + x % d;
    }
  }

  /** Such a block does not cross a multiple of d. */
  lemma {:induction false} BlockEnds(v: nat, d: nat, n: nat)
    requires d > 0 && v % d == 0 && v < n * d
    ensures v + d <= n * d
  {
    var q := v / d;
    assert v == d * q;
    Distribute(d, n, q);
    PositiveFactor(d, n - q);
    Distribute(d, n, q + 1);
    AtLeastZero(d, n - (q + 1));
  }

  lemma {:induction false} PositiveFactor(d: nat, x: int)
    requires d * x > 0
    ensures x > 0
  {
    AtLeastZero(d, if x < 0 then -x else 0);
  }

  lemma {:induction false} AtLeastZero(d: nat, x: int)
    requires x >= 0
    ensures d * x >= 0
  {
  }

  lemma {:induction false} SlotIsInterval(f: MatchField, slot: Option<FieldMatch>, x: nat)
    requires !f.kind.Ternary? && SlotOk(f, slot) && Fits(f, x)
    ensures Accepted(f, slot, x) <==> Low(f, slot) <= x <= High(f, slot)
    ensures Low(f, slot) <= High(f, slot) < Pow2(f.bitwidth)
  {
    if slot.Some? && slot.value.LpmM? {
      var v, d := BE(slot.value.value), Pow2(f.bitwidth - slot.value.prefixLen);
      Block(x, v, d);
      Pow2Adds(slot.value.prefixLen, f.bitwidth - slot.value.prefixLen);
      BlockEnds(v, d, Pow2(slot.value.prefixLen));
    }
  }

  /** Different slots of a field are different intervals. */
  lemma {:induction false} IntervalsDiffer(f: MatchField, a: Option<FieldMatch>, b: Option<FieldMatch>)
    requires f.bitwidth > 0 && !f.kind.Ternary? && SlotOk(f, a) && SlotOk(f, b)
    requires Low(f, a) == Low(f, b) && High(f, a) == High(f, b)
    ensures a == b
  {
    Pow2Grows(1, f.bitwidth);
    if a.Some? && b.Some? {
      BothSent(f, a.value, b.value);
    } else if a.Some? {
      OneSent(f, a.value);
    } else if b.Some? {
      OneSent(f, b.value);
    }
  }

  lemma {:induction false} OneSent(f: MatchField, p: FieldMatch)
    requires f.bitwidth > 0 && !f.kind.Ternary? && !f.kind.Exact? && WellFormed(f, p)
    ensures Low(f, Some(p)) != 0 || High(f, Some(p)) != Pow2(f.bitwidth) - 1
  {
    Pow2Grows(1, f.bitwidth);
    if p.LpmM? {
      Pow2Grows(f.bitwidth - p.prefixLen, f.bitwidth);
    }
  }

  lemma {:induction false} BothSent(f: MatchField, p: FieldMatch, q: FieldMatch)
    requires f.bitwidth > 0 && !f.kind.Ternary? && WellFormed(f, p) && WellFormed(f, q)
    requires Low(f, Some(p)) == Low(f, Some(q)) && High(f, Some(p)) == High(f, Some(q))
    ensures p == q
  {
    match p
    case ExactM(v) => CanonicalEqualIffSameValue(v, q.value);
    case OptionalM(v) => CanonicalEqualIffSameValue(v, q.value);
    case RangeM(low, high) =>
      CanonicalEqualIffSameValue(low, q.low);
      CanonicalEqualIffSameValue(high, q.high);
    case LpmM(v, n) =>
      CanonicalEqualIffSameValue(v, q.value);
      SamePower(f.bitwidth - n, f.bitwidth - q.prefixLen);
    case TernaryM(_, _) =>
  }

  lemma {:induction false} SamePower(m: nat, n: nat)
    requires Pow2(m) == Pow2(n)
    ensures m == n
  {
    Pow2Grows(if m < n then m else n, if m < n then n else m);
  }

  /** Unequal intervals are told apart by one of their four ends. */
  lemma {:induction false} EndsSeparate(lo: int, hi: int, lo': int, hi': int) returns (x: int)
    requires lo <= hi && lo' <= hi' && (lo != lo' || hi != hi')
    ensures x in {lo, hi, lo', hi'} && (lo <= x <= hi) != (lo' <= x <= hi')
  {
    x := if lo < lo' then lo else if lo' < lo then lo' else if hi < hi' then hi' else hi;
  }

  /******* Ternary slots *******/

  function ValueOf(slot: Option<FieldMatch>): nat {
    if slot.Some? && slot.value.TernaryM? then BE(slot.value.value) else 0
  }

  function MaskOf(slot: Option<FieldMatch>): nat {
    if slot.Some? && slot.value.TernaryM? then BE(slot.value.mask) else 0
  }

  lemma {:induction false} SlotIsMasked(f: MatchField, slot: Option<FieldMatch>, x: nat)
    requires f.kind.Ternary? && SlotOk(f, slot)
    ensures Accepted(f, slot, x) <==> And(x, MaskOf(slot)) == ValueOf(slot)
    ensures And(ValueOf(slot), MaskOf(slot)) == ValueOf(slot)
    ensures f.bitwidth > 0 ==> Fits(f, ValueOf(slot)) && Fits(f, MaskOf(slot))
  {
    if slot.None? {
      AndZero(x);
    }
  }

  lemma {:induction false} MaskedDiffer(f: MatchField, a: Option<FieldMatch>, b: Option<FieldMatch>)
    requires f.kind.Ternary? && SlotOk(f, a) && SlotOk(f, b)
    requires ValueOf(a) == ValueOf(b) && MaskOf(a) == MaskOf(b)
    ensures a == b
  {
    if a.Some? && b.Some? {
      CanonicalEqualIffSameValue(a.value.value, b.value.value);
      CanonicalEqualIffSameValue(a.value.mask, b.value.mask);
    }
  }

  /** Matching under a mask, for the last bit and the bits before it. */
  lemma {:induction false} MaskedHalves(v: nat, m: nat, q: nat, bit: nat)
    requires And(v, m) == v && bit < 2
    ensures And(v / 2, m / 2) == v / 2
    ensures And(2 * q + bit, m) == v <==> And(q, m / 2) == v / 2 && (m % 2 == 1 ==> bit == v % 2)
  {
    var x := 2 * q + bit;
    assert x / 2 == q && x % 2 == bit;
    AndHalves(x, m);
    AndHalves(v, m);
  }

  /** A number that tells the halves apart extends to one that tells the pairs apart. */
  lemma {:induction false} HalvesSeparate(v: nat, m: nat, v': nat, m': nat, q: nat) returns (x: nat)
    requires And(v, m) == v && And(v', m') == v'
    requires And(q, m / 2) == v / 2 && And(q, m' / 2) != v' / 2
    ensures x / 2 == q && And(x, m) == v && And(x, m') != v'
  {
    var bit := v % 2;
    MaskedHalves(v, m, q, bit);
    MaskedHalves(v', m', q, bit);
    x := 2 * q + bit;
  }

  lemma {:induction false} LastBitSeparates(v: nat, m: nat, v': nat, m': nat) returns (x: nat)
    requires And(v, m) == v && And(v', m') == v' && v / 2 == v' / 2 && m / 2 == m' / 2
    requires v % 2 != v' % 2 || m % 2 != m' % 2
    ensures x / 2 == v / 2 && (And(x, m) == v) != (And(x, m') == v')
  {
    LastBit(v, m);
    LastBit(v', m');
    var bit := if m % 2 == 0 then 1 - v' % 2 else if m' % 2 == 0 then 1 - v % 2 else v % 2;
    MaskedHalves(v, m, v / 2, bit);
    MaskedHalves(v', m', v / 2, bit);
    x := 2 * (v / 2) + bit;
  }

  /** Different value/mask pairs accept different numbers: found bit by bit. */
  lemma {:induction false} MasksSeparate(v: nat, m: nat, v': nat, m': nat, w: nat) returns (x: nat)
    requires And(v, m) == v && And(v', m') == v' && (v != v' || m != m')
    requires v < Pow2(w) && m < Pow2(w) && v' < Pow2(w) && m' < Pow2(w)
    ensures x < Pow2(w) && (And(x, m) == v) != (And(x, m') == v')
    decreases w
  {
    MaskedHalves(v, m, 0, 0);
    MaskedHalves(v', m', 0, 0);
    if v / 2 == v' / 2 && m / 2 == m' / 2 {
      x := LastBitSeparates(v, m, v', m');
    } else {
      var q := MasksSeparate(v / 2, m / 2, v' / 2, m' / 2, w - 1);
      if And(q, m / 2) == v / 2 {
        x := HalvesSeparate(v, m, v', m', q);
      } else {
        x := HalvesSeparate(v', m', v, m, q);
      }
    }
  }

  lemma {:induction false} LastBit(v: nat, m: nat)
    requires And(v, m) == v
    ensures m % 2 == 0 ==> v % 2 == 0
  {
    AndHalves(v, m);
  }

  /******* Any slot *******/

  lemma {:induction false} SlotsSeparate(f: MatchField, a: Option<FieldMatch>, b: Option<FieldMatch>) returns (x: nat)
    requires f.bitwidth > 0 && SlotOk(f, a) && SlotOk(f, b) && a != b
    ensures Fits(f, x) && Accepted(f, a, x) != Accepted(f, b, x)
  {
    if f.kind.Ternary? {
      if ValueOf(a) == ValueOf(b) && MaskOf(a) == MaskOf(b) {
        MaskedDiffer(f, a, b);
      }
      SlotIsMasked(f, a, 0);
      SlotIsMasked(f, b, 0);
      x := MasksSeparate(ValueOf(a), MaskOf(a), ValueOf(b), MaskOf(b), f.bitwidth);
      SlotIsMasked(f, a, x);
      SlotIsMasked(f, b, x);
    } else {
      if Low(f, a) == Low(f, b) && High(f, a) == High(f, b) {
        IntervalsDiffer(f, a, b);
      }
      SlotIsInterval(f, a, 0);
      SlotIsInterval(f, b, 0);
      x := EndsSeparate(Low(f, a), High(f, a), Low(f, b), High(f, b));
      SlotIsInterval(f, a, x);
      SlotIsInterval(f, b, x);
    }
  }

  /** Every slot accepts something. */
  lemma {:induction false} LowIsAccepted(f: MatchField, slot: Option<FieldMatch>)
    requires f.bitwidth > 0 && SlotOk(f, slot)
    ensures Fits(f, Low(f, slot)) && Accepted(f, slot, Low(f, slot))
  {
    if f.kind.Ternary? {
      SlotIsMasked(f, slot, Low(f, slot));
    } else {
      SlotIsInterval(f, slot, 0);
      SlotIsInterval(f, slot, Low(f, slot));
    }
  }

  /******* Whole messages *******/

  /** A packet with the value x in field f, and elsewhere what the message w accepts. */
  lemma {:induction false} PacketWith(t: Table, w: map<nat, FieldMatch>, f: MatchField, x: nat) returns (p: Packet)
    requires TableOk(t) && WireOk(t, w) && f in t.fields && Fits(f, x)
    ensures IsPacket(t, p) && p[f.name] == x
    ensures forall g <- t.fields | g != f :: Accepted(g, Get(w, g.id), p[g.name])
  {
    var fields := ByName(t.fields);
    p := map name | name in fields :: if name == f.name then x else Low(fields[name], Get(w, fields[name].id));
    forall g <- t.fields
      ensures g.name in p && Fits(g, p[g.name])
      ensures if g == f then p[g.name] == x else Accepted(g, Get(w, g.id), p[g.name])
    {
      var i :| 0 <= i < |t.fields| && t.fields[i] == g;
      ByNameFinds(t.fields, i);
      SameField(t, f, g);
      LowIsAccepted(g, Get(w, g.id));
    }
  }

  lemma {:induction false} MessagesSeparate(t: Table, a: map<nat, FieldMatch>, b: map<nat, FieldMatch>, f: MatchField)
    returns (p: Packet)
    requires TableOk(t) && WireOk(t, a) && WireOk(t, b) && f in t.fields && Get(a, f.id) != Get(b, f.id)
    ensures IsPacket(t, p) && WireAccepts(t, a, p) != WireAccepts(t, b, p)
  {
    var x := SlotsSeparate(f, Get(a, f.id), Get(b, f.id));
    var w := if Accepted(f, Get(a, f.id), x) then a else b;
    p := PacketWith(t, w, f, x);
  }

  /** Messages that differ, differ in the slot of some field. */
  lemma {:induction false} MessagesDiffer(t: Table, a: map<nat, FieldMatch>, b: map<nat, FieldMatch>)
    requires WireOk(t, a) && WireOk(t, b) && forall f <- t.fields :: Get(a, f.id) == Get(b, f.id)
    ensures a == b
  {
    forall id: nat
      ensures Get(a, id) == Get(b, id)
    {
      if id in a {
        assert HasId(t, id);
      } else if id in b {
        assert HasId(t, id);
      }
    }
    assert forall id: nat :: id in a <==> Get(a, id).Some?;
    assert forall id: nat :: id in b <==> Get(b, id).Some?;
    assert forall id | id in a :: a[id] == Get(a, id).value == Get(b, id).value == b[id];
  }

  /** Well-formed messages of a table are equal if and only if they accept the same packets. */
  lemma {:induction false} MessagesAreNormalForms(t: Table, a: map<nat, FieldMatch>, b: map<nat, FieldMatch>)
    requires TableOk(t) && WireOk(t, a) && WireOk(t, b)
    ensures a == b <==> forall p: Packet | IsPacket(t, p) :: WireAccepts(t, a, p) <==> WireAccepts(t, b, p)
  {
    if f :| f in t.fields && Get(a, f.id) != Get(b, f.id) {
      var p := MessagesSeparate(t, a, b, f);
      assert IsPacket(t, p);
    } else {
      MessagesDiffer(t, a, b);
    }
  }

  /**
    For any table with positive widths and unique names and ids, two accepted matches have the same
    field-id to FieldMatch map if and only if they match the same packets.
   */
  lemma {:induction false} WireIsNormalForm(ip6: Ipv6, t: Table, m: Match, m': Match)
    requires TableOk(t) && DistinctNames(m) && DistinctNames(m')
    requires Encoded(ip6, t, m).Ok? && Encoded(ip6, t, m').Ok?
    ensures AsMap(Encoded(ip6, t, m).value) == AsMap(Encoded(ip6, t, m').value) <==>
            forall p: Packet | IsPacket(t, p) :: MatchAccepts(ip6, t, m, p) <==> MatchAccepts(ip6, t, m', p)
  {
    var a, b := AsMap(Encoded(ip6, t, m).value), AsMap(Encoded(ip6, t, m').value);
    EncodingIsWellFormed(ip6, t, m);
    EncodingIsWellFormed(ip6, t, m');
    forall p: Packet | IsPacket(t, p)
      ensures MatchAccepts(ip6, t, m, p) <==> WireAccepts(t, a, p)
      ensures MatchAccepts(ip6, t, m', p) <==> WireAccepts(t, b, p)
    {
      EncodingKeepsMeaning(ip6, t, m, p);
      EncodingKeepsMeaning(ip6, t, m', p);
    }
    MessagesAreNormalForms(t, a, b);
  }
}
