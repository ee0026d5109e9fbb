/** Which packets a match accepts, and why its wire form is a normal form of that set. */
module MatchMeaning {
  import opened Wrappers
  import opened Bits
  import opened Bytes
  import opened BigEndian
  import opened Codec
  import opened Mappings
  import opened MatchEncoding

  /** The header values that a table looks at, by field name. */
  type Packet = map<string, nat>

  /** Positive widths, and no name or id twice. */
  predicate TableOk(t: Table) {
    && (forall f <- t.fields :: f.bitwidth > 0)
    && (forall i, j | 0 <= i < j < |t.fields| :: t.fields[i].name != t.fields[j].name)
    && (forall i, j | 0 <= i < j < |t.fields| :: t.fields[i].id != t.fields[j].id)
  }

  predicate Fits(f: MatchField, x: nat) {
    f.bitwidth > 0 && x < Pow2(f.bitwidth)
  }

  predicate IsPacket(t: Table, p: Packet) {
    forall f <- t.fields :: f.name in p && Fits(f, p[f.name])
  }

  /******* What the caller's match means *******/

  /** Header value x agrees with v on every bit that is set in the mask. */
  ghost predicate AgreesOnMask(x: nat, v: nat, mask: nat) {
    forall i: nat :: Bit(mask, i) ==> (Bit(x, i) <==> Bit(v, i))
  }

  /** x and v have the same first `prefixLen` of `bitwidth` bits. */
  predicate SamePrefixBits(x: nat, v: nat, prefixLen: nat, bitwidth: int)
    requires prefixLen <= bitwidth
  {
    x / Pow2(bitwidth - prefixLen) == v / Pow2(bitwidth - prefixLen)
  }

  ghost predicate ValueMatches(ip6: Ipv6, f: MatchField, value: Value, x: nat)
    requires EncodeField(ip6, f, value).Ok?
  {
    match f.kind
    case Lpm =>
      var k := ParseLpm(ip6, value, f.bitwidth).value;
      k.1 <= f.bitwidth && SamePrefixBits(x, BE(k.0), k.1, f.bitwidth)
    case Ternary =>
      var k := ParseTernary(ip6, value, f.bitwidth).value;
      AgreesOnMask(x, BE(k.0), BE(k.1))
    case Range =>
      var k := ParseRange(ip6, value, f.bitwidth).value;
      BE(k.0) <= x <= BE(k.1)
    case Exact => x == BE(EncodeValue(ip6, value, f.bitwidth).value)
    case Optional => x == BE(EncodeValue(ip6, value, f.bitwidth).value)
    case Unspecified => false
  }

  /** A field that the match does not mention accepts everything. */
  ghost predicate MatchAccepts(ip6: Ipv6, t: Table, m: Match, p: Packet)
    requires IsPacket(t, p)
  {
    forall f <- t.fields :: Lookup(m, f.name).Some? ==>
      EncodeField(ip6, f, Lookup(m, f.name).value).Ok? &&
      ValueMatches(ip6, f, Lookup(m, f.name).value, p[f.name])
  }

  /******* What a FieldMatch means (section 9.1.1 of the P4Runtime specification) *******/

  predicate PayloadMatches(f: MatchField, payload: FieldMatch, x: nat) {
    match payload
    case ExactM(v) => x == BE(v)
    case OptionalM(v) => x == BE(v)
    case LpmM(v, prefixLen) => prefixLen <= f.bitwidth && SamePrefixBits(x, BE(v), prefixLen, f.bitwidth)
    case TernaryM(v, mask) => And(x, BE(mask)) == BE(v)
    case RangeM(low, high) => BE(low) <= x <= BE(high)
  }

  function Get(w: map<nat, FieldMatch>, id: nat): Option<FieldMatch> {
    if id in w then Some(w[id]) else None
  }

  predicate Accepted(f: MatchField, payload: Option<FieldMatch>, x: nat) {
    payload.Some? ==> PayloadMatches(f, payload.value, x)
  }

  predicate WireAccepts(t: Table, w: map<nat, FieldMatch>, p: Packet)
    requires IsPacket(t, p)
  {
    forall f <- t.fields :: Accepted(f, Get(w, f.id), p[f.name])
  }

  /** The message as a map from field id. */
  function AsMap(w: seq<WireField>): map<nat, FieldMatch> {
    if |w| == 0 then map[] else AsMap(w[..|w| - 1])[w[|w| - 1].id := w[|w| - 1].payload]
  }

  /******* Well-formed messages *******/

  predicate CanonicalIn(f: MatchField, v: ByteString) {
    v == Canonicalize(v) && Fits(f, BE(v)) && |v| <= Width(f.bitwidth)
  }

  predicate WellFormed(f: MatchField, payload: FieldMatch) {
    match payload
    case ExactM(v) => f.kind.Exact? && CanonicalIn(f, v)
    case OptionalM(v) => f.kind.Optional? && CanonicalIn(f, v)
    case LpmM(v, prefixLen) =>
      f.kind.Lpm? && CanonicalIn(f, v) && 0 < prefixLen <= f.bitwidth && BE(v) % Pow2(f.bitwidth - prefixLen) == 0
    case TernaryM(v, mask) =>
      f.kind.Ternary? && CanonicalIn(f, v) && CanonicalIn(f, mask) && BE(mask) != 0 && And(BE(v), BE(mask)) == BE(v)
    case RangeM(low, high) =>
      f.kind.Range? && CanonicalIn(f, low) && CanonicalIn(f, high) && BE(low) <= BE(high) &&
      !(BE(low) == 0 && BE(high) == Pow2(f.bitwidth) - 1)
  }

  predicate SlotOk(f: MatchField, payload: Option<FieldMatch>) {
    if payload.Some? then WellFormed(f, payload.value) else !f.kind.Exact?
  }

  predicate HasId(t: Table, id: nat) {
    exists f <- t.fields :: f.id == id
  }

  /** Every field is one of the table's and well formed, and no exact field is missing. */
  predicate WireOk(t: Table, w: map<nat, FieldMatch>) {
    (forall id <- w :: HasId(t, id)) && (forall f <- t.fields :: SlotOk(f, Get(w, f.id)))
  }

  /******* One field *******/

  lemma {:induction false} CanonicalForm(f: MatchField, v: ByteString)
    requires Fits(f, BE(v)) && |v| <= Width(f.bitwidth)
    ensures CanonicalIn(f, Canonicalize(v)) && BE(Canonicalize(v)) == BE(v)
  {
    CanonicalKeepsValue(v);
    CanonicalEqualIffSameValue(Canonicalize(v), v);
  }

  lemma {:induction false} ZeroBytes(data: ByteString)
    ensures AllZero(data) <==> BE(data) == 0
  {
    if |data| > 0 {
      var n := |data| - 1;
      ZeroBytes(data[..n]);
      assert AllZero(data) <==> AllZero(data[..n]) && data[n] == 0 by {
        assert forall i | 0 <= i < n :: data[..n][i] == data[i];
      }
    }
  }

  lemma {:induction false} MaskedIffAgrees(x: nat, v: nat, mask: nat)
    requires And(v, mask) == v
    ensures And(x, mask) == v <==> AgreesOnMask(x, v, mask)
  {
    forall i: nat
      ensures Bit(And(x, mask), i) <==> Bit(x, i) && Bit(mask, i)
      ensures Bit(v, i) <==> Bit(v, i) && Bit(mask, i)
    {
      AndBits(x, mask, i);
      AndBits(v, mask, i);
    }
    if AgreesOnMask(x, v, mask) {
      SameBits(And(x, mask), v);
    }
  }

  lemma {:induction false} NoMaskBits(x: nat, v: nat)
    ensures AgreesOnMask(x, v, 0)
  {
    forall i: nat
      ensures !Bit(0, i)
    {
      NoBits(i);
    }
  }

  function Payload(r: Result<Option<WireField>, Error>): Option<FieldMatch>
    requires r.Ok?
  {
    if r.value.Some? then Some(r.value.value.payload) else None
  }

  lemma {:induction false} SingleEncodes(ip6: Ipv6, f: MatchField, value: Value)
    requires f.kind.Exact? || f.kind.Optional?
    requires EncodeField(ip6, f, value).Ok?
    ensures var r := EncodeField(ip6, f, value);
      && r.value.Some? && r.value.value.id == f.id && WellFormed(f, r.value.value.payload)
      && BE(r.value.value.payload.value) == BE(EncodeValue(ip6, value, f.bitwidth).value)
  {
    ParsesFit(ip6, value, f.bitwidth);
    CanonicalForm(f, EncodeValue(ip6, value, f.bitwidth).value);
  }

  lemma {:induction false} LpmEncodes(ip6: Ipv6, f: MatchField, value: Value, x: nat)
    requires f.kind.Lpm? && ParseLpm(ip6, value, f.bitwidth).Ok? && Fits(f, x)
    ensures Encodes(ip6, f, value, x)
  {
    var k := ParseLpm(ip6, value, f.bitwidth).value;
    LpmFits(ip6, value, f.bitwidth);
    LpmSlot(f, k.0, k.1, x);
  }

  lemma {:induction false} LpmSlot(f: MatchField, v: ByteString, prefixLen: nat, x: nat)
    requires f.kind.Lpm? && FitsIn(v, f.bitwidth) && prefixLen <= f.bitwidth && Fits(f, x)
    requires WithinPrefix(BE(v), prefixLen, f.bitwidth)
    ensures prefixLen > 0 ==> WellFormed(f, LpmM(Canonicalize(v), prefixLen))
    ensures BE(Canonicalize(v)) == BE(v)
    ensures prefixLen == 0 ==> SamePrefixBits(x, BE(v), 0, f.bitwidth)
  {
    CanonicalForm(f, v);
    PrefixIsAlignment(BE(v), prefixLen, f.bitwidth);
    if prefixLen == 0 {
      DivisionIsUnique(x, Pow2(f.bitwidth), 0, x);
      DivisionIsUnique(BE(v), Pow2(f.bitwidth), 0, BE(v));
    }
  }

  lemma {:induction false} TernaryEncodes(ip6: Ipv6, f: MatchField, value: Value, x: nat)
    requires f.kind.Ternary? && ParseTernary(ip6, value, f.bitwidth).Ok? && Fits(f, x)
    ensures Encodes(ip6, f, value, x)
  {
    var k := ParseTernary(ip6, value, f.bitwidth).value;
    PairFits(ip6, value, f.bitwidth);
    CanonicalForm(f, k.0);
    CanonicalForm(f, k.1);
    ZeroBytes(k.1);
    if BE(k.1) == 0 {
      NoMaskBits(x, BE(k.0));
    } else {
      MaskedIffAgrees(x, BE(k.0), BE(k.1));
    }
  }

  lemma {:induction false} RangeEncodes(ip6: Ipv6, f: MatchField, value: Value, x: nat)
    requires f.kind.Range? && ParseRange(ip6, value, f.bitwidth).Ok? && Fits(f, x)
    ensures Encodes(ip6, f, value, x)
  {
    var k := ParseRange(ip6, value, f.bitwidth).value;
    PairFits(ip6, value, f.bitwidth);
    CanonicalForm(f, k.0);
    CanonicalForm(f, k.1);
  }

  /** The field is encoded, to a well-formed message for it or to a wildcard, and means what the value means. */
  ghost predicate Encodes(ip6: Ipv6, f: MatchField, value: Value, x: nat) {
    var r := EncodeField(ip6, f, value);
    && r.Ok?
    && (r.value.Some? ==> r.value.value.id == f.id)
    && SlotOk(f, Payload(r))
    && (Accepted(f, Payload(r), x) <==> ValueMatches(ip6, f, value, x))
  }

  /** Encoding one field yields a well-formed message for it, or leaves out what accepts everything. */
  lemma {:induction false} FieldEncodes(ip6: Ipv6, f: MatchField, value: Value, x: nat)
    requires EncodeField(ip6, f, value).Ok? && Fits(f, x)
    ensures Encodes(ip6, f, value, x)
  {
    match f.kind
    case Exact => SingleEncodes(ip6, f, value);
    case Optional => SingleEncodes(ip6, f, value);
    case Lpm => LpmEncodes(ip6, f, value, x);
    case Ternary => TernaryEncodes(ip6, f, value, x);
    case Range => RangeEncodes(ip6, f, value, x);
    case Unspecified =>
  }

  /******* The whole match *******/

  /** What the message has for field f, computed from the match alone. */
  function SlotOf(encode: Encoder, f: MatchField, m: Match): Option<FieldMatch> {
    var value := Lookup(m, f.name);
    if value.Some? && encode(f, value.value).Ok? then Payload(encode(f, value.value)) else None
  }

  /** An encoder writes the id of the field it encodes. */
  ghost predicate KeepsIds(encode: Encoder) {
    forall f: MatchField, value: Value :: encode(f, value).Ok? && encode(f, value).value.Some? ==>
      encode(f, value).value.value.id == f.id
  }

  lemma {:induction false} ByNameFinds(fields: seq<MatchField>, i: nat)
    requires i < |fields| && forall i, j | 0 <= i < j < |fields| :: fields[i].name != fields[j].name
    ensures fields[i].name in ByName(fields) && ByName(fields)[fields[i].name] == fields[i]
  {
    var n := |fields| - 1;
    if i < n {
      ByNameFinds(fields[..n], i);
    }
  }

  lemma {:induction false} ByNameHasOnly(fields: seq<MatchField>, name: string)
    requires name in ByName(fields)
    ensures ByName(fields)[name] in fields && ByName(fields)[name].name == name
  {
    var n := |fields| - 1;
    if fields[n].name != name {
      ByNameHasOnly(fields[..n], name);
    }
  }

  /** Among the indexed fields, f is the only one of its name and of its id. */
  predicate Unique(fields: map<string, MatchField>, f: MatchField) {
    forall name <- fields ::
      && fields[name].name == name
      && (name == f.name <==> fields[name] == f)
      && (fields[name].id == f.id <==> fields[name] == f)
  }

  lemma {:induction false} FieldsAreUnique(t: Table, f: MatchField)
    requires TableOk(t) && f in t.fields
    ensures f.name in ByName(t.fields) && ByName(t.fields)[f.name] == f && Unique(ByName(t.fields), f)
  {
    var i :| 0 <= i < |t.fields| && t.fields[i] == f;
    ByNameFinds(t.fields, i);
    forall name <- ByName(t.fields)
      ensures var g := ByName(t.fields)[name];
        g.name == name && (name == f.name <==> g == f) && (g.id == f.id <==> g == f)
    {
      ByNameHasOnly(t.fields, name);
      SameField(t, f, ByName(t.fields)[name]);
    }
  }

  /** The message has, for each field, what the match's value for it encodes to, and nothing else. */
  lemma {:induction false} EncodesBySlot(encode: Encoder, fields: map<string, MatchField>, m: Match, f: MatchField)
    requires KeepsIds(encode) && Unique(fields, f) && DistinctNames(m)
    requires forall i | 0 <= i < |m| :: m[i].0 in fields
    requires EncodeFields(encode, fields, m).Ok?
    ensures Get(AsMap(EncodeFields(encode, fields, m).value), f.id) == SlotOf(encode, f, m)
    ensures Lookup(m, f.name).Some? ==> encode(f, Lookup(m, f.name).value).Ok?
    decreases |m|
  {
    if |m| > 0 {
      var n := |m| - 1;
      EncodesBySlot(encode, fields, m[..n], f);
      var g := fields[m[n].0];
      AppendSlot(EncodeFields(encode, fields, m[..n]).value, encode(g, m[n].1).value, f.id);
      if g == f {
        LookupMisses(m[..n], f.name);
      }
    }
  }

  lemma {:induction false} AppendSlot(w: seq<WireField>, one: Option<WireField>, id: nat)
    ensures var w' := w + if one.Some? then [one.value] else [];
      Get(AsMap(w'), id) == if one.Some? && one.value.id == id then Some(one.value.payload) else Get(AsMap(w), id)
  {
    if one.Some? {
      assert (w + [one.value])[..|w|] == w;
    } else {
      assert w + [] == w;
    }
  }

  lemma {:induction false} SameField(t: Table, f: MatchField, g: MatchField)
    requires TableOk(t) && f in t.fields && g in t.fields
    ensures f == g <==> f.name == g.name
    ensures f == g <==> f.id == g.id
  {
    var i :| 0 <= i < |t.fields| && t.fields[i] == f;
    var j :| 0 <= j < |t.fields| && t.fields[j] == g;
    assert i < j || j < i || i == j;
  }
}
