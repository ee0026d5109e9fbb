/** P4Info tables, and the encoding of a match into FieldMatch messages. */
module MatchEncoding {
  import opened Wrappers
  import opened Bits
  import opened Bytes
  import opened BigEndian
  import opened Codec
  import opened Mappings

  datatype MatchType = Exact | Lpm | Ternary | Range | Optional | Unspecified

  datatype MatchField = MatchField(id: nat, name: string, bitwidth: int, kind: MatchType)

  datatype Table = Table(id: nat, name: string, fields: seq<MatchField>)

  datatype ActionParam = ActionParam(id: nat, name: string, bitwidth: int)

  datatype ActionSpec = ActionSpec(id: nat, name: string, params: seq<ActionParam>)

  /** An Action message; `args` are parameter ids with their values. */
  datatype WireAction = WireAction(id: nat, args: seq<(nat, ByteString)>)

  /** The payload of a FieldMatch message. */
  datatype FieldMatch =
    | ExactM(value: ByteString) | LpmM(value: ByteString, prefixLen: nat)
    | TernaryM(value: ByteString, mask: ByteString)
    | RangeM(low: ByteString, high: ByteString) | OptionalM(value: ByteString)

  datatype WireField = WireField(id: nat, payload: FieldMatch)

  /** The last field of each name. */
  function ByName(fields: seq<MatchField>): map<string, MatchField> {
    if |fields| == 0 then map[] else ByName(fields[..|fields| - 1])[fields[|fields| - 1].name := fields[|fields| - 1]]
  }

  predicate AllZero(data: ByteString) {
    forall i | 0 <= i < |data| :: data[i] == 0
  }

  /** How one field is encoded. */
  type Encoder = (MatchField, Value) -> Result<Option<WireField>, Error>

  function FieldEncoder(ip6: Ipv6): Encoder {
    (f: MatchField, value: Value) => EncodeField(ip6, f, value)
  }

  /** One field: `None` inside is a wildcard, which is left out of the message. */
  function EncodeField(ip6: Ipv6, f: MatchField, value: Value): Result<Option<WireField>, Error> {
    match f.kind
    case Exact =>
      var v := EncodeValue(ip6, value, f.bitwidth);
      if v.Err? then Err(v.error) else Ok(Some(WireField(f.id, ExactM(Canonicalize(v.value)))))
    case Lpm =>
      var k := ParseLpm(ip6, value, f.bitwidth);
      if k.Err? then Err(k.error)
      else if k.value.1 == 0 then Ok(None)
      else Ok(Some(WireField(f.id, LpmM(Canonicalize(k.value.0), k.value.1))))
    case Ternary =>
      var k := ParseTernary(ip6, value, f.bitwidth);
      if k.Err? then Err(k.error)
      else if AllZero(k.value.1) then Ok(None)
      else Ok(Some(WireField(f.id, TernaryM(Canonicalize(k.value.0), Canonicalize(k.value.1)))))
    case Range =>
      var k := ParseRange(ip6, value, f.bitwidth);
      if k.Err? then Err(k.error)
      else if f.bitwidth > 0 && BE(k.value.0) == 0 && BE(k.value.1) == Pow2(f.bitwidth) - 1 then Ok(None)
      else Ok(Some(WireField(f.id, RangeM(Canonicalize(k.value.0), Canonicalize(k.value.1)))))
    case Optional =>
      var v := EncodeValue(ip6, value, f.bitwidth);
      if v.Err? then Err(v.error) else Ok(Some(WireField(f.id, OptionalM(Canonicalize(v.value)))))
    case Unspecified => Err(EncodingError)
  }

  function EncodeFields(encode: Encoder, fields: map<string, MatchField>, m: Match): Result<seq<WireField>, Error>
    requires forall i | 0 <= i < |m| :: m[i].0 in fields
  {
    if |m| == 0 then Ok([])
    else
      var n := |m| - 1;
      var before := EncodeFields(encode, fields, m[..n]);
      if before.Err? then before
      else
        var last := encode(fields[m[n].0], m[n].1);
        if last.Err? then Err(last.error)
        else Ok(before.value + if last.value.Some? then [last.value.value] else [])
  }

  /** What encoding a match against a table comes to. */
  function Encoded(ip6: Ipv6, table: Table, m: Match): Result<seq<WireField>, Error> {
    var fields := ByName(table.fields);
    if exists i | 0 <= i < |m| :: m[i].0 !in fields then Err(NoSuchFieldError)
    else if exists f <- table.fields :: f.kind.Exact? && !HasName(m, f.name) then Err(EncodingError)
    else EncodeFields(FieldEncoder(ip6), fields, m)
  }

  /** The text of one raw field value, as `decode_match` prints it. */
  function DisplayField(ip6: Ipv6, f: MatchField, raw: Value): Result<string, Error> {
    match f.kind
    case Exact => if raw.BytesV? then FormatExact(ip6, raw.data, f.bitwidth) else Err(EncodingError)
    case Optional => if raw.BytesV? then FormatExact(ip6, raw.data, f.bitwidth) else Err(EncodingError)
    case Lpm =>
      if IsPair(raw) && raw.items[0].BytesV? && AsInt(raw.items[1]).Some?
      then FormatLpm(ip6, raw.items[0].data, AsInt(raw.items[1]).value, f.bitwidth) else Err(EncodingError)
    case Ternary =>
      if IsPair(raw) && raw.items[0].BytesV? && raw.items[1].BytesV?
      then FormatTernary(ip6, raw.items[0].data, raw.items[1].data, f.bitwidth) else Err(EncodingError)
    case Range =>
      if IsPair(raw) && raw.items[0].BytesV? && raw.items[1].BytesV?
      then FormatRange(ip6, raw.items[0].data, raw.items[1].data, f.bitwidth) else Err(EncodingError)
    case Unspecified => Err(EncodingError)
  }

  predicate IsPair(v: Value) {
    v.TupleV? && |v.items| == 2
  }

  /** Booleans are integers too. */
  function AsInt(v: Value): Option<int> {
    if v.IntV? then Some(v.i) else if v.BoolV? then Some(if v.b then 1 else 0) else None
  }

  type Printer = (MatchField, Value) -> Result<string, Error>

  function FieldPrinter(ip6: Ipv6): Printer {
    (f: MatchField, raw: Value) => DisplayField(ip6, f, raw)
  }

  /** The texts in order, or the first error. */
  function DisplayFields(show: Printer, fields: map<string, MatchField>, m: Match)
    : Result<seq<(string, string)>, Error>
  {
    if |m| == 0 then Ok([])
    else
      var n := |m| - 1;
      var before := DisplayFields(show, fields, m[..n]);
      if before.Err? then before
      else if m[n].0 !in fields then Err(NoSuchFieldError)
      else
        var text := show(fields[m[n].0], m[n].1);
        if text.Err? then Err(text.error) else Ok(before.value + [(m[n].0, text.value)])
  }

  lemma {:induction false} FirstDisplayErrorStays(show: Printer, fields: map<string, MatchField>, m: Match, k: nat)
    requires k <= |m| && DisplayFields(show, fields, m[..k]).Err?
    ensures DisplayFields(show, fields, m) == DisplayFields(show, fields, m[..k])
    decreases |m|
  {
    if k == |m| {
      assert m[..k] == m;
    } else {
      var n := |m| - 1;
      assert m[..n][..k] == m[..k];
      FirstDisplayErrorStays(show, fields, m[..n], k);
    }
  }

  /******* Actions *******/

  predicate HasParam(params: seq<ActionParam>, name: string) {
    exists p <- params :: p.name == name
  }

  /** How one parameter value is encoded. */
  type ArgEncoder = (ActionParam, Value) -> Result<ByteString, Error>

  function ParamEncoder(ip6: Ipv6): ArgEncoder {
    (p: ActionParam, value: Value) => EncodeValue(ip6, value, p.bitwidth)
  }

  /** The values for the declared parameters, in the order of the declaration. */
  function EncodeArgs(encode: ArgEncoder, params: seq<ActionParam>, values: Match)
    : Result<seq<(nat, ByteString)>, Error>
    requires forall p <- params :: Lookup(values, p.name).Some?
  {
    if |params| == 0 then Ok([])
    else
      var n := |params| - 1;
      var before := EncodeArgs(encode, params[..n], values);
      if before.Err? then before
      else
        var last := encode(params[n], Lookup(values, params[n].name).value);
        if last.Err? then Err(last.error) else Ok(before.value + [(params[n].id, Canonicalize(last.value))])
  }

  /** What encoding an action comes to: no unknown parameter, none missing, all in range. */
  function EncodedAction(ip6: Ipv6, a: ActionSpec, values: Match): Result<WireAction, Error> {
    if exists i | 0 <= i < |values| :: !HasParam(a.params, values[i].0) then Err(NoSuchFieldError)
    else if exists p <- a.params :: Lookup(values, p.name).None? then Err(EncodingError)
    else
      var args := EncodeArgs(ParamEncoder(ip6), a.params, values);
      if args.Err? then Err(args.error) else Ok(WireAction(a.id, args.value))
  }

  function ActionsByName(all: seq<ActionSpec>): map<string, ActionSpec> {
    if |all| == 0 then map[] else ActionsByName(all[..|all| - 1])[all[|all| - 1].name := all[|all| - 1]]
  }

  lemma {:induction false} FirstArgErrorStays(encode: ArgEncoder, params: seq<ActionParam>, values: Match, k: nat)
    requires k <= |params| && forall p <- params :: Lookup(values, p.name).Some?
    requires EncodeArgs(encode, params[..k], values).Err?
    ensures EncodeArgs(encode, params, values) == EncodeArgs(encode, params[..k], values)
    decreases |params|
  {
    if k == |params| {
      assert params[..k] == params;
    } else {
      var n := |params| - 1;
      assert params[..n][..k] == params[..k];
      FirstArgErrorStays(encode, params[..n], values, k);
    }
  }

  predicate NeedsPriority(table: Table) {
    exists f <- table.fields :: f.kind.Optional? || f.kind.Ternary? || f.kind.Range?
  }

  class P4InfoIndex {
    const ip6: Ipv6
    var all: seq<Table>
    var allActions: seq<ActionSpec>
    var tables: map<string, Table>
    var actions: map<string, ActionSpec>

    ghost predicate Valid()
      reads this
    {
      tables == TablesByName(all) && actions == ActionsByName(allActions)
    }

    constructor (ip6: Ipv6, all: seq<Table>, allActions: seq<ActionSpec>)
      ensures Valid() && this.ip6 == ip6 && this.all == all && this.allActions == allActions
    {
      this.ip6, this.all, this.allActions := ip6, all, allActions;
      tables, actions := map[], map[];
      new;
      for i := 0 to |all|
        invariant tables == TablesByName(all[..i]) && actions == map[]
        invariant this.ip6 == ip6 && this.all == all && this.allActions == allActions
      {
        assert all[..i + 1][..i] == all[..i];
        tables := tables[all[i].name := all[i]];
      }
      assert all[..|all|] == all;
      for i := 0 to |allActions|
        invariant tables == TablesByName(all) && actions == ActionsByName(allActions[..i])
        invariant this.ip6 == ip6 && this.all == all && this.allActions == allActions
      {
        assert allActions[..i + 1][..i] == allActions[..i];
        actions := actions[allActions[i].name := allActions[i]];
      }
      assert allActions[..|allActions|] == allActions;
    }

    /** `encode_action`. */
    method EncodeAction(name: string, values: Match) returns (r: Result<WireAction, Error>)
      ensures r == if name in actions then EncodedAction(ip6, actions[name], values) else Err(NoSuchActionError)
    {
      if name !in actions {
        return Err(NoSuchActionError);
      }
      var action := actions[name];
      for i := 0 to |values|
        invariant forall k | 0 <= k < i :: HasParam(action.params, values[k].0)
      {
        if !HasParam(action.params, values[i].0) {
          return Err(NoSuchFieldError);
        }
      }
      for i := 0 to |action.params|
        invariant forall p <- action.params[..i] :: Lookup(values, p.name).Some?
      {
        if Lookup(values, action.params[i].name).None? {
          assert action.params[i] in action.params;
          return Err(EncodingError);
        }
      }
      assert action.params[..|action.params|] == action.params;
      var args := EncodeArgsInOrder(action.params, values);
      r := if args.Err? then Err(args.error) else Ok(WireAction(action.id, args.value));
    }

    method EncodeArgsInOrder(params: seq<ActionParam>, values: Match) returns (r: Result<seq<(nat, ByteString)>, Error>)
      requires forall p <- params :: Lookup(values, p.name).Some?
      ensures r == EncodeArgs(ParamEncoder(ip6), params, values)
    {
      var args: seq<(nat, ByteString)> := [];
      for i := 0 to |params|
        invariant EncodeArgs(ParamEncoder(ip6), params[..i], values) == Ok(args)
      {
        var next := AppendArg(params, values, i, args);
        if next.Err? {
          FirstArgErrorStays(ParamEncoder(ip6), params, values, i + 1);
          return next;
        }
        args := next.value;
      }
      assert params[..|params|] == params;
      r := Ok(args);
    }

    method AppendArg(params: seq<ActionParam>, values: Match, i: nat, args: seq<(nat, ByteString)>)
      returns (r: Result<seq<(nat, ByteString)>, Error>)
      requires i < |params| && forall p <- params :: Lookup(values, p.name).Some?
      requires EncodeArgs(ParamEncoder(ip6), params[..i], values) == Ok(args)
      ensures r == EncodeArgs(ParamEncoder(ip6), params[..i + 1], values)
    {
      ghost var upTo := params[..i + 1];
      assert |upTo| - 1 == i && upTo[..i] == params[..i] && upTo[i] == params[i];
      var one := EncodeValue(ip6, Lookup(values, params[i].name).value, params[i].bitwidth);
      r := if one.Err? then Err(one.error) else Ok(args + [(params[i].id, Canonicalize(one.value))]);
    }

    /** `table_requires_priority`. */
    method TableRequiresPriority(name: string) returns (r: Result<bool, Error>)
      ensures r == if name in tables then Ok(NeedsPriority(tables[name])) else Err(NoSuchTableError)
    {
      if name !in tables {
        return Err(NoSuchTableError);
      }
      r := Ok(NeedsPriority(tables[name]));
    }

    method FieldsByName(fields: seq<MatchField>) returns (byName: map<string, MatchField>)
      ensures byName == ByName(fields)
    {
      byName := map[];
      for i := 0 to |fields|
        invariant byName == ByName(fields[..i])
      {
        assert fields[..i + 1][..i] == fields[..i];
        byName := byName[fields[i].name := fields[i]];
      }
      assert fields[..|fields|] == fields;
    }

    /** `encode_match`. */
    method EncodeMatch(name: string, m: Match) returns (r: Result<seq<WireField>, Error>)
      ensures r == if name in tables then Encoded(ip6, tables[name], m) else Err(NoSuchTableError)
    {
      if name !in tables {
        return Err(NoSuchTableError);
      }
      var table := tables[name];
      var fields := FieldsByName(table.fields);
      for i := 0 to |m|
        invariant forall k | 0 <= k < i :: m[k].0 in fields
      {
        if m[i].0 !in fields {
          return Err(NoSuchFieldError);
        }
      }
      for i := 0 to |table.fields|
        invariant forall f <- table.fields[..i] :: !(f.kind.Exact? && !HasName(m, f.name))
      {
        if table.fields[i].kind.Exact? && !HasName(m, table.fields[i].name) {
          assert table.fields[i] in table.fields;
          return Err(EncodingError);
        }
      }
      assert table.fields[..|table.fields|] == table.fields;
      r := EncodeInOrder(fields, m);
    }

    /** `decode_match`. */
    method DecodeMatch(name: string, m: Match) returns (r: Result<seq<(string, string)>, Error>)
      ensures r == if name in tables then DisplayFields(FieldPrinter(ip6), ByName(tables[name].fields), m)
                   else Err(NoSuchTableError)
    {
      if name !in tables {
        return Err(NoSuchTableError);
      }
      var fields := FieldsByName(tables[name].fields);
      var out: seq<(string, string)> := [];
      for i := 0 to |m|
        invariant DisplayFields(FieldPrinter(ip6), fields, m[..i]) == Ok(out)
      {
        var next := Show(fields, m, i, out);
        if next.Err? {
          FirstDisplayErrorStays(FieldPrinter(ip6), fields, m, i + 1);
          return next;
        }
        out := next.value;
      }
      assert m[..|m|] == m;
      r := Ok(out);
    }

    method Show(fields: map<string, MatchField>, m: Match, i: nat, out: seq<(string, string)>)
      returns (r: Result<seq<(string, string)>, Error>)
      requires i < |m| && DisplayFields(FieldPrinter(ip6), fields, m[..i]) == Ok(out)
      ensures r == DisplayFields(FieldPrinter(ip6), fields, m[..i + 1])
    {
      ghost var upTo := m[..i + 1];
      assert |upTo| - 1 == i && upTo[..i] == m[..i] && upTo[i] == m[i];
      if m[i].0 !in fields {
        return Err(NoSuchFieldError);
      }
      var text := DisplayField(ip6, fields[m[i].0], m[i].1);
      r := if text.Err? then Err(text.error) else Ok(out + [(m[i].0, text.value)]);
    }

    method EncodeInOrder(fields: map<string, MatchField>, m: Match) returns (r: Result<seq<WireField>, Error>)
      requires forall i | 0 <= i < |m| :: m[i].0 in fields
      ensures r == EncodeFields(FieldEncoder(ip6), fields, m)
    {
      var result: seq<WireField> := [];
      for i := 0 to |m|
        invariant EncodeFields(FieldEncoder(ip6), fields, m[..i]) == Ok(result)
      {
        var next := Append(fields, m, i, result);
        if next.Err? {
          FirstErrorStays(FieldEncoder(ip6), fields, m, i + 1);
          return next;
        }
        result := next.value;
      }
      assert m[..|m|] == m;
      r := Ok(result);
    }

    method Append(fields: map<string, MatchField>, m: Match, i: nat, result: seq<WireField>)
      returns (r: Result<seq<WireField>, Error>)
      requires i < |m| && forall i | 0 <= i < |m| :: m[i].0 in fields
      requires EncodeFields(FieldEncoder(ip6), fields, m[..i]) == Ok(result)
      ensures r == EncodeFields(FieldEncoder(ip6), fields, m[..i + 1])
    {
      ghost var upTo := m[..i + 1];
      assert |upTo| - 1 == i && upTo[..i] == m[..i] && upTo[i] == m[i] && result + [] == result;
      var one := EncodeField(ip6, fields[m[i].0], m[i].1);
      if one.Err? {
        r := Err(one.error);
      } else if one.value.None? {
        r := Ok(result);
      } else {
        r := Ok(result + [one.value.value]);
      }
    }
  }

  function TablesByName(all: seq<Table>): map<string, Table> {
    if |all| == 0 then map[] else TablesByName(all[..|all| - 1])[all[|all| - 1].name := all[|all| - 1]]
  }

  /** An error ends the encoding. */
  lemma {:induction false} FirstErrorStays(encode: Encoder, fields: map<string, MatchField>, m: Match, k: nat)
    requires k <= |m| && forall i | 0 <= i < |m| :: m[i].0 in fields
    requires EncodeFields(encode, fields, m[..k]).Err?
    ensures EncodeFields(encode, fields, m) == EncodeFields(encode, fields, m[..k])
    decreases |m|
  {
    if k == |m| {
      assert m[..k] == m;
    } else {
      var n := |m| - 1;
      assert m[..n][..k] == m[..k];
      FirstErrorStays(encode, fields, m[..n], k);
    }
  }
}
