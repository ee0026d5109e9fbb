/** Table entries read back from the switch, decoded, re-encoded and deleted. */
module TableEntries {
  import opened Wrappers
  import opened Bits
  import opened Bytes
  import opened BigEndian
  import opened Codec
  import opened Mappings
  import opened MatchEncoding
  import opened MatchMeaning
  import opened NormalForm
  import opened Actions

  /** A match field as read; its payload may be unset. */
  datatype ReadField = ReadField(id: nat, payload: Option<FieldMatch>)

  /** An entry as read; priority 0 is the unset one. */
  datatype ReadEntry = ReadEntry(tableId: nat, fields: seq<ReadField>, priority: nat, action: Option<WireAction>)

  /** An entry of a write request. */
  datatype TableEntry = TableEntry(tableId: nat, fields: seq<WireField>, priority: nat, action: Option<WireAction>)

  datatype Decoded =
    Decoded(table: string, keys: Match, action: Option<string>, params: Match, priority: Option<nat>)

  const MAX_PRIORITY := 0x7FFF_FFFF

  /** The raw value that stands for a payload in a decoded match. */
  function RawValue(payload: FieldMatch): Value {
    match payload
    case ExactM(v) => BytesV(v)
    case OptionalM(v) => BytesV(v)
    case LpmM(v, prefixLen) => TupleV([BytesV(v), IntV(prefixLen)])
    case TernaryM(v, mask) => TupleV([BytesV(v), BytesV(mask)])
    case RangeM(low, high) => TupleV([BytesV(low), BytesV(high)])
  }

  /** The last field of each id. */
  function ById(fields: seq<MatchField>): map<nat, MatchField> {
    if |fields| == 0 then map[] else ById(fields[..|fields| - 1])[fields[|fields| - 1].id := fields[|fields| - 1]]
  }

  function DecodeFields(byId: map<nat, MatchField>, fields: seq<ReadField>): Match {
    if |fields| == 0 then []
    else
      var n := |fields| - 1;
      var before := DecodeFields(byId, fields[..n]);
      if fields[n].id in byId && fields[n].payload.Some? then
        Assign(before, byId[fields[n].id].name, RawValue(fields[n].payload.value))
      else before
  }

  function FirstWithId(all: seq<Table>, id: nat): Option<Table> {
    if |all| == 0 then None else if all[0].id == id then Some(all[0]) else FirstWithId(all[1..], id)
  }

  function DecodeEntry(all: seq<Table>, actions: seq<ActionSpec>, e: ReadEntry): Result<Decoded, Error> {
    var t := FirstWithId(all, e.tableId);
    if t.None? then Err(NoSuchTableError)
    else
      var a := DecodeAction(actions, e.action);
      if a.Err? then Err(a.error)
      else Ok(Decoded(t.value.name, DecodeFields(ById(t.value.fields), e.fields), a.value.0, a.value.1,
                      if e.priority == 0 then None else Some(e.priority)))
  }

  function AsRead(w: seq<WireField>): seq<ReadField> {
    seq(|w|, i requires 0 <= i < |w| => ReadField(w[i].id, Some(w[i].payload)))
  }

  /** What deleting a listed entry sends: its match encoded again, with its priority. */
  function Reencoded(ip6: Ipv6, t: Table, d: Decoded): Result<TableEntry, Error> {
    var w := Encoded(ip6, t, d.keys);
    if w.Err? then Err(w.error)
    else Ok(TableEntry(t.id, w.value, if d.priority.Some? then d.priority.value else 0, None))
  }

  /** Why a priority is refused: missing where needed, given where not, or not an int in range. */
  predicate PriorityOk(needed: bool, priority: Option<Value>) {
    if priority.None? then !needed else needed && priority.value.IntV? && 1 <= priority.value.i <= MAX_PRIORITY
  }

  /** The entry that a write sends, or why it is refused. */
  function WriteOf(ip6: Ipv6, tables: map<string, Table>, actions: map<string, ActionSpec>, table: string, m: Match,
                   action: Option<(string, Match)>, priority: Option<Value>): Result<TableEntry, Error>
  {
    if table !in tables then Err(NoSuchTableError)
    else if !PriorityOk(NeedsPriority(tables[table]), priority) then Err(EncodingError)
    else
      var w := Encoded(ip6, tables[table], m);
      var a := OptionalAction(ip6, actions, action);
      if w.Err? then Err(w.error)
      else if a.Err? then Err(a.error)
      else Ok(TableEntry(tables[table].id, w.value, if priority.Some? then priority.value.i else 0, a.value))
  }

  /** An entry of table t in the form that the switch keeps: well formed, canonical, no field twice. */
  predicate CanonicalEntry(t: Table, e: ReadEntry, w: seq<WireField>) {
    e.tableId == t.id && e.fields == AsRead(w) && DistinctIds(w) && WireOk(t, AsMap(w))
  }

  /******* Reading back and encoding again *******/

  lemma {:induction false} ByIdFinds(fields: seq<MatchField>, i: nat)
    requires i < |fields| && forall i, j | 0 <= i < j < |fields| :: fields[i].id != fields[j].id
    ensures fields[i].id in ById(fields) && ById(fields)[fields[i].id] == fields[i]
  {
    var n := |fields| - 1;
    if i < n {
      ByIdFinds(fields[..n], i);
    }
  }

  /** Bytes that fit a field are encoded as they are. */
  lemma {:induction false} BytesEncode(ip6: Ipv6, f: MatchField, v: ByteString)
    requires CanonicalIn(f, v)
    ensures EncodeValue(ip6, BytesV(v), f.bitwidth) == Ok(v)
  {
    BitLengthFits(BE(v), f.bitwidth);
  }

  /** Encoding the raw value of a well-formed payload gives that payload. */
  lemma {:induction false} PayloadReencodes(ip6: Ipv6, f: MatchField, payload: FieldMatch)
    requires f.bitwidth > 0 && WellFormed(f, payload)
    ensures EncodeField(ip6, f, RawValue(payload)) == Ok(Some(WireField(f.id, payload)))
  {
    match payload
    case ExactM(v) => BytesEncode(ip6, f, v);
    case OptionalM(v) => BytesEncode(ip6, f, v);
    case LpmM(v, prefixLen) =>
      BytesEncode(ip6, f, v);
      PrefixIsAlignment(BE(v), prefixLen, f.bitwidth);
    case TernaryM(v, mask) =>
      BytesEncode(ip6, f, v);
      BytesEncode(ip6, f, mask);
      ZeroBytes(mask);
    case RangeM(low, high) =>
      BytesEncode(ip6, f, low);
      BytesEncode(ip6, f, high);
  }

  /** The decoded match lists the fields in order under their names. */
  function Named(byId: map<nat, MatchField>, w: seq<WireField>): Match
    requires forall i | 0 <= i < |w| :: w[i].id in byId
  {
    seq(|w|, i requires 0 <= i < |w| => (byId[w[i].id].name, RawValue(w[i].payload)))
  }

  /** Ids and names of the indexed fields determine each other. */
  predicate OneToOne(byId: map<nat, MatchField>, byName: map<string, MatchField>) {
    forall id <- byId :: byId[id].id == id && byId[id].name in byName && byName[byId[id].name] == byId[id]
  }

  lemma {:induction false} DecodesInOrder(byId: map<nat, MatchField>, byName: map<string, MatchField>,
                                          w: seq<WireField>)
    requires OneToOne(byId, byName) && DistinctIds(w) && forall i | 0 <= i < |w| :: w[i].id in byId
    ensures DecodeFields(byId, AsRead(w)) == Named(byId, w) && DistinctNames(Named(byId, w))
    decreases |w|
  {
    if |w| > 0 {
      var n := |w| - 1;
      DecodesInOrder(byId, byName, w[..n]);
      assert AsRead(w)[..n] == AsRead(w[..n]);
      var name := byId[w[n].id].name;
      assert forall i | 0 <= i < n :: Named(byId, w[..n])[i].0 == byId[w[i].id].name != name;
      AssignNew(Named(byId, w[..n]), name, RawValue(w[n].payload));
      assert Named(byId, w) == Named(byId, w[..n]) + [(name, RawValue(w[n].payload))];
    }
  }

  lemma {:induction false} NamedEncodes(encode: Encoder, byId: map<nat, MatchField>, byName: map<string, MatchField>,
                                        w: seq<WireField>)
    requires OneToOne(byId, byName) && forall i | 0 <= i < |w| :: w[i].id in byId
    requires forall i | 0 <= i < |w| :: encode(byId[w[i].id], RawValue(w[i].payload)) == Ok(Some(w[i]))
    ensures forall i | 0 <= i < |w| :: Named(byId, w)[i].0 in byName
    ensures EncodeFields(encode, byName, Named(byId, w)) == Ok(w)
    decreases |w|
  {
    if |w| > 0 {
      var n := |w| - 1;
      NamedEncodes(encode, byId, byName, w[..n]);
      assert Named(byId, w)[..n] == Named(byId, w[..n]);
      assert w == w[..n] + [w[n]];
    }
  }

  lemma {:induction false} TableIsOneToOne(t: Table)
    requires TableOk(t)
    ensures OneToOne(ById(t.fields), ByName(t.fields))
    ensures forall id :: id in ById(t.fields) <==> HasId(t, id)
  {
    forall f <- t.fields
      ensures f.id in ById(t.fields) && ById(t.fields)[f.id] == f
      ensures f.name in ByName(t.fields) && ByName(t.fields)[f.name] == f
    {
      var i :| 0 <= i < |t.fields| && t.fields[i] == f;
      ByIdFinds(t.fields, i);
      ByNameFinds(t.fields, i);
    }
    forall id <- ById(t.fields)
      ensures ById(t.fields)[id] in t.fields && ById(t.fields)[id].id == id
    {
      ByIdHasOnly(t.fields, id);
    }
    assert forall id <- ById(t.fields) :: HasId(t, id);
  }

  lemma {:induction false} ByIdHasOnly(fields: seq<MatchField>, id: nat)
    requires id in ById(fields)
    ensures ById(fields)[id] in fields && ById(fields)[id].id == id
  {
    var n := |fields| - 1;
    if fields[n].id != id {
      ByIdHasOnly(fields[..n], id);
    }
  }

  /**
    For every well-formed canonical entry, encoding the decoded match yields the very fields that were
    read, in their order.
   */
  lemma {:induction false} ReadBackReencodes(ip6: Ipv6, t: Table, w: seq<WireField>)
    requires TableOk(t) && DistinctIds(w) && WireOk(t, AsMap(w))
    ensures Encoded(ip6, t, DecodeFields(ById(t.fields), AsRead(w))) == Ok(w)
  {
    var byId, byName := ById(t.fields), ByName(t.fields);
    TableIsOneToOne(t);
    forall i | 0 <= i < |w|
      ensures w[i].id in byId && EncodeField(ip6, byId[w[i].id], RawValue(w[i].payload)) == Ok(Some(w[i]))
    {
      ReadFieldReencodes(ip6, t, w, i);
    }
    DecodesInOrder(byId, byName, w);
    NamedEncodes(FieldEncoder(ip6), byId, byName, w);
    forall f <- t.fields | f.kind.Exact?
      ensures HasName(Named(byId, w), f.name)
    {
      ExactIsNamed(t, w, f);
    }
  }

  lemma {:induction false} ReadFieldReencodes(ip6: Ipv6, t: Table, w: seq<WireField>, i: nat)
    requires TableOk(t) && DistinctIds(w) && WireOk(t, AsMap(w)) && i < |w|
    ensures w[i].id in ById(t.fields)
    ensures EncodeField(ip6, ById(t.fields)[w[i].id], RawValue(w[i].payload)) == Ok(Some(w[i]))
  {
    TableIsOneToOne(t);
    SlotAt(w, i);
    assert HasId(t, w[i].id);
    var f := ById(t.fields)[w[i].id];
    ByIdHasOnly(t.fields, w[i].id);
    assert SlotOk(f, Get(AsMap(w), f.id));
    PayloadReencodes(ip6, f, w[i].payload);
  }

  lemma {:induction false} ExactIsNamed(t: Table, w: seq<WireField>, f: MatchField)
    requires TableOk(t) && WireOk(t, AsMap(w)) && f in t.fields && f.kind.Exact?
    requires forall i | 0 <= i < |w| :: w[i].id in ById(t.fields)
    ensures HasName(Named(ById(t.fields), w), f.name)
  {
    assert SlotOk(f, Get(AsMap(w), f.id));
    IdsOfMap(w, f.id);
    var i :| 0 <= i < |w| && w[i].id == f.id;
    var j :| 0 <= j < |t.fields| && t.fields[j] == f;
    ByIdFinds(t.fields, j);
    assert Named(ById(t.fields), w)[i].0 == f.name;
  }

  /** An encoded match survives being stored, read back and encoded again. */
  lemma {:induction false} EncodedMatchSurvives(ip6: Ipv6, t: Table, m: Match)
    requires TableOk(t) && DistinctNames(m) && Encoded(ip6, t, m).Ok?
    ensures var w := Encoded(ip6, t, m).value;
      Encoded(ip6, t, DecodeFields(ById(t.fields), AsRead(w))) == Ok(w)
  {
    EncodingIsWellFormed(ip6, t, m);
    ReadBackReencodes(ip6, t, Encoded(ip6, t, m).value);
  }

  /******* Printed fields *******/

  /**
    At every width but 128, the text printed for a well-formed field encodes back to that field if and
    only if the field is not a ternary or range one, whose texts no field accepts.
   */
  lemma {:induction false} PrintedFieldReencodes(ip6: Ipv6, f: MatchField, payload: FieldMatch)
    requires f.bitwidth > 0 && f.bitwidth != 128 && WellFormed(f, payload)
    ensures DisplayField(ip6, f, RawValue(payload)).Ok?
    ensures EncodeField(ip6, f, StrV(DisplayField(ip6, f, RawValue(payload)).value))
            == Ok(Some(WireField(f.id, payload)))
            <==> !f.kind.Ternary? && !f.kind.Range?
  {
    match payload
    case ExactM(v) => PrintedBytesReencode(ip6, f, v);
    case OptionalM(v) => PrintedBytesReencode(ip6, f, v);
    case LpmM(v, prefixLen) => PrintedLpmReencodes(ip6, f, v, prefixLen);
    case TernaryM(v, mask) =>
      PrintedBytesReencode(ip6, f, v);
      PrintedBytesReencode(ip6, f, mask);
    case RangeM(low, high) =>
      PrintedBytesReencode(ip6, f, low);
      PrintedBytesReencode(ip6, f, high);
  }

  lemma {:induction false} PrintedBytesReencode(ip6: Ipv6, f: MatchField, v: ByteString)
    requires f.bitwidth > 0 && f.bitwidth != 128 && CanonicalIn(f, v)
    ensures FormatExact(ip6, v, f.bitwidth).Ok?
    ensures var r := EncodeValue(ip6, StrV(FormatExact(ip6, v, f.bitwidth).value), f.bitwidth);
      r.Ok? && Canonicalize(r.value) == v
  {
    DecodeIntAccepts(v, f.bitwidth);
    PrintedValueReadsBack(ip6, v, f.bitwidth);
    CanonicalEqualIffSameValue(EncodeValue(ip6, StrV(FormatExact(ip6, v, f.bitwidth).value), f.bitwidth).value, v);
  }

  lemma {:induction false} PrintedLpmReencodes(ip6: Ipv6, f: MatchField, v: ByteString, prefixLen: nat)
    requires f.bitwidth > 0 && f.bitwidth != 128 && WellFormed(f, LpmM(v, prefixLen))
    ensures FormatLpm(ip6, v, prefixLen, f.bitwidth).Ok?
    ensures EncodeField(ip6, f, StrV(FormatLpm(ip6, v, prefixLen, f.bitwidth).value)) ==
      Ok(Some(WireField(f.id, LpmM(v, prefixLen))))
  {
    PrintedLpmKey(ip6, v, prefixLen, f.bitwidth);
    LpmReencodes(ip6, f, StrV(FormatLpm(ip6, v, prefixLen, f.bitwidth).value), v, prefixLen);
  }

  lemma {:induction false} PrintedLpmKey(ip6: Ipv6, v: ByteString, prefixLen: nat, bitwidth: nat)
    requires 0 < prefixLen <= bitwidth && bitwidth != 128
    requires |v| <= Width(bitwidth) && BE(v) < Pow2(bitwidth) && BE(v) % Pow2(bitwidth - prefixLen) == 0
    ensures FormatLpm(ip6, v, prefixLen, bitwidth).Ok?
    ensures LpmKeyIs(ip6, StrV(FormatLpm(ip6, v, prefixLen, bitwidth).value), bitwidth, BE(v), prefixLen)
  {
    DecodeIntAccepts(v, bitwidth);
    PrintedLpmParsesBack(ip6, v, prefixLen, bitwidth);
  }

  predicate LpmKeyIs(ip6: Ipv6, value: Value, bitwidth: int, v: nat, prefixLen: nat) {
    var k := ParseLpm(ip6, value, bitwidth);
    k.Ok? && BE(k.value.0) == v && k.value.1 == prefixLen
  }

  lemma {:induction false} LpmReencodes(ip6: Ipv6, f: MatchField, value: Value, v: ByteString, prefixLen: nat)
    requires f.kind.Lpm? && prefixLen > 0 && v == Canonicalize(v)
    requires LpmKeyIs(ip6, value, f.bitwidth, BE(v), prefixLen)
    ensures EncodeField(ip6, f, value) == Ok(Some(WireField(f.id, LpmM(v, prefixLen))))
  {
    CanonicalEqualIffSameValue(ParseLpm(ip6, value, f.bitwidth).value.0, v);
  }

  lemma {:induction false} SlotAt(w: seq<WireField>, i: nat)
    requires i < |w| && DistinctIds(w)
    ensures Get(AsMap(w), w[i].id) == Some(w[i].payload)
  {
    var n := |w| - 1;
    if i < n {
      SlotAt(w[..n], i);
      assert w[..n][i] == w[i];
    }
  }

  lemma {:induction false} FirstIsOnly(all: seq<Table>, i: nat)
    requires i < |all| && forall i, j | 0 <= i < j < |all| :: all[i].id != all[j].id
    ensures FirstWithId(all, all[i].id) == Some(all[i])
  {
    if i > 0 {
      FirstIsOnly(all[1..], i - 1);
    }
  }

  predicate ActionIsKnown(actions: seq<ActionSpec>, action: Option<WireAction>) {
    action.None? || exists a <- actions :: a.id == action.value.id
  }

  lemma {:induction false} KnownActionDecodes(actions: seq<ActionSpec>, action: Option<WireAction>)
    ensures DecodeAction(actions, action).Ok? <==> ActionIsKnown(actions, action)
  {
    if action.Some? && |actions| > 0 {
      if actions[0].id != action.value.id {
        KnownActionDecodes(actions[1..], action);
        assert actions == [actions[0]] + actions[1..];
      }
    }
  }

  /** Decoding a canonical entry and encoding its key again gives the key itself, priority included. */
  lemma {:induction false} EntryRoundTrip(ip6: Ipv6, all: seq<Table>, actions: seq<ActionSpec>, i: nat, e: ReadEntry,
                                          w: seq<WireField>)
    requires i < |all| && forall i, j | 0 <= i < j < |all| :: all[i].id != all[j].id
    requires TableOk(all[i]) && CanonicalEntry(all[i], e, w) && ActionIsKnown(actions, e.action)
    ensures DecodeEntry(all, actions, e).Ok? && DecodeEntry(all, actions, e).value.table == all[i].name
    ensures Reencoded(ip6, all[i], DecodeEntry(all, actions, e).value) == Ok(TableEntry(e.tableId, w, e.priority, None))
  {
    FirstIsOnly(all, i);
    KnownActionDecodes(actions, e.action);
    ReadBackReencodes(ip6, all[i], w);
  }

  lemma {:induction false} TableByNameFinds(all: seq<Table>, i: nat)
    requires i < |all| && forall i, j | 0 <= i < j < |all| :: all[i].name != all[j].name
    ensures all[i].name in TablesByName(all) && TablesByName(all)[all[i].name] == all[i]
  {
    if i < |all| - 1 {
      TableByNameFinds(all[..|all| - 1], i);
    }
  }

  predicate TablesOk(all: seq<Table>) {
    && (forall t <- all :: TableOk(t))
    && (forall i, j | 0 <= i < j < |all| :: all[i].name != all[j].name)
    && (forall i, j | 0 <= i < j < |all| :: all[i].id != all[j].id)
  }

  /** The listed action, as a caller passes it on. */
  function ActionGiven(d: Decoded): Option<(string, Match)> {
    if d.action.None? then None else Some((d.action.value, d.params))
  }

  /** The listed priority, as a caller passes it on. */
  function PriorityGiven(d: Decoded): Option<Value> {
    if d.priority.None? then None else Some(IntV(d.priority.value))
  }

  predicate CanonicalOrNone(actions: seq<ActionSpec>, action: Option<WireAction>) {
    action.None? || exists a <- actions :: CanonicalAction(a, action.value)
  }

  lemma {:induction false} ListedActionReencodes(ip6: Ipv6, all: seq<Table>, actions: seq<ActionSpec>, e: ReadEntry)
    requires ActionsOk(actions) && CanonicalOrNone(actions, e.action) && FirstWithId(all, e.tableId).Some?
    ensures DecodeEntry(all, actions, e).Ok?
    ensures OptionalAction(ip6, ActionsByName(actions), ActionGiven(DecodeEntry(all, actions, e).value)) == Ok(e.action)
  {
    if e.action.Some? {
      var i :| 0 <= i < |actions| && CanonicalAction(actions[i], e.action.value);
      ActionRoundTrip(ip6, actions, i, e.action.value);
    }
  }

  /**
    A listed entry passed on to insert or modify is sent exactly as it was read, and passed on to delete as
    its key; either is refused if and only if its priority is not one that the table can have.
   */
  lemma {:induction false} ListedEntryRoundTrips(ip6: Ipv6, all: seq<Table>, actions: seq<ActionSpec>, i: nat,
                                                 e: ReadEntry, w: seq<WireField>)
    requires TablesOk(all) && ActionsOk(actions) && i < |all|
    requires CanonicalEntry(all[i], e, w) && CanonicalOrNone(actions, e.action)
    ensures DecodeEntry(all, actions, e).Ok?
    ensures var d, tables, known := DecodeEntry(all, actions, e).value, TablesByName(all), ActionsByName(actions);
      if (NeedsPriority(all[i]) <==> e.priority > 0) && e.priority <= MAX_PRIORITY then
        && WriteOf(ip6, tables, known, d.table, d.keys, ActionGiven(d), PriorityGiven(d)) ==
             Ok(TableEntry(e.tableId, w, e.priority, e.action))
        && WriteOf(ip6, tables, known, d.table, d.keys, None, PriorityGiven(d)) ==
             Ok(TableEntry(e.tableId, w, e.priority, None))
      else forall action ::
        WriteOf(ip6, tables, known, d.table, d.keys, action, PriorityGiven(d)) == Err(EncodingError)
  {
    FirstIsOnly(all, i);
    TableByNameFinds(all, i);
    ListedActionReencodes(ip6, all, actions, e);
    ReadBackReencodes(ip6, all[i], w);
  }

  class TableClient {
    const index: P4InfoIndex
    /** The write requests sent so far, each a list of entries. */
    var sent: seq<seq<TableEntry>>

    constructor (index: P4InfoIndex)
      ensures this.index == index && sent == []
    {
      this.index, sent := index, [];
    }

    /** `_decode_table_entry`. */
    method DecodeTableEntry(e: ReadEntry) returns (r: Result<Decoded, Error>)
      ensures r == DecodeEntry(index.all, index.allActions, e)
    {
      var table := FindTable(e.tableId);
      if table.None? {
        return Err(NoSuchTableError);
      }
      var byId := FieldsById(table.value.fields);
      var keys: Match := [];
      for i := 0 to |e.fields|
        invariant keys == DecodeFields(byId, e.fields[..i])
      {
        assert e.fields[..i + 1][..i] == e.fields[..i];
        var field := e.fields[i];
        if field.id in byId && field.payload.Some? {
          keys := Assign(keys, byId[field.id].name, RawValue(field.payload.value));
        }
      }
      assert e.fields[..|e.fields|] == e.fields;
      var action := DecodeEntryAction(e.action);
      if action.Err? {
        return Err(action.error);
      }
      var (name, params) := action.value;
      r := Ok(Decoded(table.value.name, keys, name, params, if e.priority == 0 then None else Some(e.priority)));
    }

    /** The part of `_decode_table_entry` for the action. */
    method DecodeEntryAction(action: Option<WireAction>) returns (r: Result<(Option<string>, Match), Error>)
      ensures r == DecodeAction(index.allActions, action)
    {
      if action.None? {
        return Ok((None, []));
      }
      var spec := FindAction(action.value.id);
      if spec.None? {
        return Err(NoSuchActionError);
      }
      var byId := ParametersById(spec.value.params);
      var params: Match := [];
      var args := action.value.args;
      for i := 0 to |args|
        invariant params == DecodeArgs(byId, args[..i])
      {
        assert args[..i + 1][..i] == args[..i];
        if args[i].0 in byId {
          params := Assign(params, byId[args[i].0].name, BytesV(args[i].1));
        }
      }
      assert args[..|args|] == args;
      r := Ok((Some(spec.value.name), params));
    }

    method FindAction(id: nat) returns (a: Option<ActionSpec>)
      ensures a == FirstActionWithId(index.allActions, id)
    {
      var all := index.allActions;
      for i := 0 to |all|
        invariant FirstActionWithId(all, id) == FirstActionWithId(all[i..], id)
      {
        if all[i].id == id {
          return Some(all[i]);
        }
        assert all[i..][1..] == all[i + 1..];
      }
      a := None;
    }

    method ParametersById(params: seq<ActionParam>) returns (byId: map<nat, ActionParam>)
      ensures byId == ParamsById(params)
    {
      byId := map[];
      for i := 0 to |params|
        invariant byId == ParamsById(params[..i])
      {
        assert params[..i + 1][..i] == params[..i];
        byId := byId[params[i].id := params[i]];
      }
      assert params[..|params|] == params;
    }

    method FindTable(id: nat) returns (t: Option<Table>)
      ensures t == FirstWithId(index.all, id)
    {
      var all := index.all;
      for i := 0 to |all|
        invariant FirstWithId(all, id) == FirstWithId(all[i..], id)
      {
        if all[i].id == id {
          return Some(all[i]);
        }
        assert all[i..][1..] == all[i + 1..];
      }
      t := None;
    }

    method FieldsById(fields: seq<MatchField>) returns (byId: map<nat, MatchField>)
      ensures byId == ById(fields)
    {
      byId := map[];
      for i := 0 to |fields|
        invariant byId == ById(fields[..i])
      {
        assert fields[..i + 1][..i] == fields[..i];
        byId := byId[fields[i].id := fields[i]];
      }
      assert fields[..|fields|] == fields;
    }

    /** The Write call: the request goes out, whether or not the call then fails. */
    method Write(request: seq<TableEntry>) returns (failed: bool)
      modifies this`sent
      ensures sent == old(sent) + [request]
    {
      sent := sent + [request];
      failed := *;
    }

    /** `_write_entry`. */
    method WriteEntry(table: string, m: Match, action: Option<(string, Match)>, priority: Option<Value>)
      returns (r: Result<(), Error>)
      modifies this`sent
      ensures match WriteOf(index.ip6, index.tables, index.actions, table, m, action, priority)
        case Err(e) => r == Err(e) && sent == old(sent)
        case Ok(entry) => (r == Ok(()) || r == Err(RpcFailure)) && sent == old(sent) + [[entry]]
    {
      var needed := index.TableRequiresPriority(table);
      if needed.Err? {
        return Err(needed.error);
      }
      if !PriorityOk(needed.value, priority) {
        return Err(EncodingError);
      }
      var fields := index.EncodeMatch(table, m);
      if fields.Err? {
        return Err(fields.error);
      }
      var encoded: Option<WireAction> := None;
      if action.Some? {
        var one := index.EncodeAction(action.value.0, action.value.1);
        if one.Err? {
          return Err(one.error);
        }
        encoded := Some(one.value);
      }
      var entry := TableEntry(index.tables[table].id, fields.value, if priority.Some? then priority.value.i else 0,
                              encoded);
      var failed := Write([entry]);
      r := if failed then Err(RpcFailure) else Ok(());
    }

    /** `clear_table`, given what the Read call delivers for the table and whether it then fails. */
    method ClearTable(table: string, listed: seq<ReadEntry>, broken: bool) returns (r: Result<nat, Error>)
      modifies this`sent
      ensures table !in index.tables ==> r == Err(NoSuchTableError) && sent == old(sent)
      ensures table in index.tables ==>
        var t := index.tables[table];
        if broken || !Deletable(index.ip6, index.all, index.allActions, t, listed)
        then sent == old(sent) && r.Err? && Refuses(index.ip6, index.all, index.allActions, t, listed, broken, r.error)
        else if listed == [] then sent == old(sent) && r == Ok(0)
        else
          && |sent| == |old(sent)| + 1 && sent[..|old(sent)|] == old(sent)
          && Deletes(index.ip6, index.all, index.allActions, t, listed, sent[|old(sent)|])
          && (r == Ok(|listed|) || r == Err(RpcFailure))
    {
      if table !in index.tables {
        return Err(NoSuchTableError);
      }
      var decoded := ListTableEntries(listed, broken);
      if decoded.Err? {
        return Err(decoded.error);
      }
      if |decoded.value| == 0 {
        return Ok(0);
      }
      var request := BuildDeletes(table, decoded.value);
      if request.Err? {
        return Err(request.error);
      }
      var failed := Write(request.value);
      r := if failed then Err(RpcFailure) else Ok(|decoded.value|);
    }

    /** The decoding loop of `list_table_entries`: the entries that arrive, up to an error or the call's failure. */
    method ListTableEntries(listed: seq<ReadEntry>, broken: bool) returns (r: Result<seq<Decoded>, Error>)
      ensures r.Ok? <==>
        !broken && forall k | 0 <= k < |listed| :: DecodeEntry(index.all, index.allActions, listed[k]).Ok?
      ensures r.Ok? ==> |r.value| == |listed|
      ensures r.Ok? ==>
        forall k | 0 <= k < |listed| :: DecodeEntry(index.all, index.allActions, listed[k]) == Ok(r.value[k])
      ensures r.Err? ==> ReadRefuses(index.all, index.allActions, listed, broken, r.error)
    {
      var decoded: seq<Decoded> := [];
      for i := 0 to |listed|
        invariant |decoded| == i
        invariant forall k | 0 <= k < i :: DecodeEntry(index.all, index.allActions, listed[k]) == Ok(decoded[k])
      {
        var one := DecodeTableEntry(listed[i]);
        if one.Err? {
          return Err(one.error);
        }
        decoded := decoded + [one.value];
      }
      r := if broken then Err(RpcFailure) else Ok(decoded);
    }

    /** The loop that encodes the listed entries again. */
    method BuildDeletes(table: string, decoded: seq<Decoded>) returns (r: Result<seq<TableEntry>, Error>)
      requires table in index.tables
      ensures var t := index.tables[table];
        if r.Ok?
        then |r.value| == |decoded| &&
             forall k | 0 <= k < |decoded| :: Reencoded(index.ip6, t, decoded[k]) == Ok(r.value[k])
        else EncodeRefuses(index.ip6, t, decoded, r.error)
    {
      var request: seq<TableEntry> := [];
      for i := 0 to |decoded|
        invariant |request| == i
        invariant forall k | 0 <= k < i :: Reencoded(index.ip6, index.tables[table], decoded[k]) == Ok(request[k])
      {
        var fields := index.EncodeMatch(table, decoded[i].keys);
        if fields.Err? {
          return Err(fields.error);
        }
        var priority := if decoded[i].priority.Some? then decoded[i].priority.value else 0;
        request := request + [TableEntry(index.tables[table].id, fields.value, priority, None)];
      }
      r := Ok(request);
    }
  }

  /** The first entry that does not decode gives the error; without one, it is the failure of the call. */
  predicate ReadRefuses(all: seq<Table>, actions: seq<ActionSpec>, listed: seq<ReadEntry>, broken: bool, error: Error) {
    || (exists k | 0 <= k < |listed| ::
          && DecodeEntry(all, actions, listed[k]) == Err(error)
          && forall j | 0 <= j < k :: DecodeEntry(all, actions, listed[j]).Ok?)
    || (broken && error == RpcFailure && forall k | 0 <= k < |listed| :: DecodeEntry(all, actions, listed[k]).Ok?)
  }

  /** The first entry that does not encode gives the error. */
  predicate EncodeRefuses(ip6: Ipv6, t: Table, decoded: seq<Decoded>, error: Error) {
    exists k | 0 <= k < |decoded| ::
      && Reencoded(ip6, t, decoded[k]) == Err(error)
      && forall j | 0 <= j < k :: Reencoded(ip6, t, decoded[j]).Ok?
  }

  /** The error of a listing, or, if everything decodes, of encoding it again. */
  ghost predicate Refuses(ip6: Ipv6, all: seq<Table>, actions: seq<ActionSpec>, t: Table, listed: seq<ReadEntry>,
                    broken: bool, error: Error)
  {
    || ReadRefuses(all, actions, listed, broken, error)
    || (!broken && exists decoded: seq<Decoded> | |decoded| == |listed| ::
          && (forall k | 0 <= k < |listed| :: DecodeEntry(all, actions, listed[k]) == Ok(decoded[k]))
          && EncodeRefuses(ip6, t, decoded, error))
  }

  /** Each listed entry decodes and encodes again. */
  predicate Deletable(ip6: Ipv6, all: seq<Table>, actions: seq<ActionSpec>, t: Table, listed: seq<ReadEntry>) {
    forall i | 0 <= i < |listed| ::
      && DecodeEntry(all, actions, listed[i]).Ok?
      && Reencoded(ip6, t, DecodeEntry(all, actions, listed[i]).value).Ok?
  }

  /** The request deletes what the listed entries decode to, one for one and in order. */
  predicate Deletes(ip6: Ipv6, all: seq<Table>, actions: seq<ActionSpec>, t: Table, listed: seq<ReadEntry>,
                    request: seq<TableEntry>)
  {
    && |request| == |listed|
    && forall i | 0 <= i < |listed| ::
        && DecodeEntry(all, actions, listed[i]).Ok?
        && Reencoded(ip6, t, DecodeEntry(all, actions, listed[i]).value) == Ok(request[i])
  }

  /**
    When the switch lists canonical entries of the table with known actions, clearing does not fail, and the
    request deletes exactly the keys listed, each once and in order.
   */
  lemma {:induction false} ClearDeletesWhatIsListed(ip6: Ipv6, all: seq<Table>, actions: seq<ActionSpec>, k: nat,
                                                    listed: seq<ReadEntry>, keys: seq<seq<WireField>>,
                                                    request: seq<TableEntry>)
    requires k < |all| && TableOk(all[k]) && forall i, j | 0 <= i < j < |all| :: all[i].id != all[j].id
    requires |keys| == |listed| && forall i | 0 <= i < |listed| ::
      CanonicalEntry(all[k], listed[i], keys[i]) && ActionIsKnown(actions, listed[i].action)
    ensures Deletable(ip6, all, actions, all[k], listed)
    ensures Deletes(ip6, all, actions, all[k], listed, request) <==>
      request == seq(|listed|, i requires 0 <= i < |listed| =>
        TableEntry(all[k].id, keys[i], listed[i].priority, None))
  {
    forall i | 0 <= i < |listed|
      ensures DecodeEntry(all, actions, listed[i]).Ok?
      ensures Reencoded(ip6, all[k], DecodeEntry(all, actions, listed[i]).value) ==
        Ok(TableEntry(all[k].id, keys[i], listed[i].priority, None))
    {
      EntryRoundTrip(ip6, all, actions, k, listed[i], keys[i]);
    }
  }
}
