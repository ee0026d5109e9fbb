/** Reading an entry's action back, and encoding it again. */
module Actions {
  import opened Wrappers
  import opened Bits
  import opened Bytes
  import opened BigEndian
  import opened Codec
  import opened Mappings
  import opened MatchEncoding

  /** The last parameter of each id. */
  function ParamsById(params: seq<ActionParam>): map<nat, ActionParam> {
    if |params| == 0 then map[] else ParamsById(params[..|params| - 1])[params[|params| - 1].id := params[|params| - 1]]
  }

  function DecodeArgs(byId: map<nat, ActionParam>, args: seq<(nat, ByteString)>): Match {
    if |args| == 0 then []
    else
      var n := |args| - 1;
      var before := DecodeArgs(byId, args[..n]);
      if args[n].0 in byId then Assign(before, byId[args[n].0].name, BytesV(args[n].1)) else before
  }

  function FirstActionWithId(all: seq<ActionSpec>, id: nat): Option<ActionSpec> {
    if |all| == 0 then None else if all[0].id == id then Some(all[0]) else FirstActionWithId(all[1..], id)
  }

  /** An action as its name, if there is one, and its parameters. */
  function DecodeAction(all: seq<ActionSpec>, action: Option<WireAction>): Result<(Option<string>, Match), Error> {
    if action.None? then Ok((None, []))
    else
      var spec := FirstActionWithId(all, action.value.id);
      if spec.None? then Err(NoSuchActionError)
      else Ok((Some(spec.value.name), DecodeArgs(ParamsById(spec.value.params), action.value.args)))
  }

  /** What a caller's action comes to. */
  function OptionalAction(ip6: Ipv6, actions: map<string, ActionSpec>, action: Option<(string, Match)>)
    : Result<Option<WireAction>, Error>
  {
    if action.None? then Ok(None)
    else if action.value.0 !in actions then Err(NoSuchActionError)
    else
      var encoded := EncodedAction(ip6, actions[action.value.0], action.value.1);
      if encoded.Err? then Err(encoded.error) else Ok(Some(encoded.value))
  }

  /** No name or id twice. */
  predicate ParamsOk(params: seq<ActionParam>) {
    && (forall i, j | 0 <= i < j < |params| :: params[i].name != params[j].name)
    && (forall i, j | 0 <= i < j < |params| :: params[i].id != params[j].id)
  }

  predicate ActionsOk(all: seq<ActionSpec>) {
    && (forall a <- all :: ParamsOk(a.params))
    && (forall i, j | 0 <= i < j < |all| :: all[i].name != all[j].name)
    && (forall i, j | 0 <= i < j < |all| :: all[i].id != all[j].id)
  }

  /** The last value given for a parameter id. */
  function ArgOf(args: seq<(nat, ByteString)>, id: nat): Option<ByteString> {
    if |args| == 0 then None
    else if args[|args| - 1].0 == id then Some(args[|args| - 1].1)
    else ArgOf(args[..|args| - 1], id)
  }

  predicate ArgFits(p: ActionParam, v: ByteString) {
    p.bitwidth > 0 && |v| <= Width(p.bitwidth) && BE(v) < Pow2(p.bitwidth)
  }

  /** Every parameter is given a value of its width. */
  predicate ArgsFit(params: seq<ActionParam>, args: seq<(nat, ByteString)>) {
    forall p <- params :: ArgOf(args, p.id).Some? && ArgFits(p, ArgOf(args, p.id).value)
  }

  /** The values in the order of the declaration, each canonical. */
  function Arranged(params: seq<ActionParam>, args: seq<(nat, ByteString)>): seq<(nat, ByteString)>
    requires forall p <- params :: ArgOf(args, p.id).Some?
  {
    seq(|params|, k requires 0 <= k < |params| => (params[k].id, Canonicalize(ArgOf(args, params[k].id).value)))
  }

  /** The parameters in the order of the declaration, each once, in range and canonical. */
  predicate CanonicalAction(a: ActionSpec, w: WireAction) {
    && w.id == a.id && |w.args| == |a.params|
    && forall k | 0 <= k < |a.params| ::
        && w.args[k].0 == a.params[k].id && ArgFits(a.params[k], w.args[k].1)
        && w.args[k].1 == Canonicalize(w.args[k].1)
  }

  /******* Decoding *******/

  lemma {:induction false} ParamsByIdFinds(params: seq<ActionParam>, i: nat)
    requires i < |params| && ParamsOk(params)
    ensures params[i].id in ParamsById(params) && ParamsById(params)[params[i].id] == params[i]
  {
    if i < |params| - 1 {
      ParamsByIdFinds(params[..|params| - 1], i);
    }
  }

  lemma {:induction false} ParamsByIdHasOnly(params: seq<ActionParam>, id: nat)
    requires id in ParamsById(params)
    ensures ParamsById(params)[id] in params && ParamsById(params)[id].id == id
  {
    var n := |params| - 1;
    if params[n].id != id {
      ParamsByIdHasOnly(params[..n], id);
    }
  }

  predicate AllDeclared(params: seq<ActionParam>, m: Match) {
    forall i | 0 <= i < |m| :: HasParam(params, m[i].0)
  }

  lemma {:induction false} AssignDeclared(params: seq<ActionParam>, m: Match, name: string, value: Value)
    requires AllDeclared(params, m) && HasParam(params, name)
    ensures AllDeclared(params, Assign(m, name, value))
  {
    AssignNames(m, name, value);
    forall i | 0 <= i < |Assign(m, name, value)|
      ensures HasParam(params, Assign(m, name, value)[i].0)
    {
      if Assign(m, name, value)[i].0 != name {
        var j :| 0 <= j < |m| && m[j].0 == Assign(m, name, value)[i].0;
        assert HasParam(params, m[j].0);
      }
    }
  }

  /** A decoded name is that of a declared parameter. */
  lemma {:induction false} DecodedNames(params: seq<ActionParam>, args: seq<(nat, ByteString)>)
    ensures AllDeclared(params, DecodeArgs(ParamsById(params), args))
    decreases |args|
  {
    var byId := ParamsById(params);
    if |args| > 0 {
      var n := |args| - 1;
      DecodedNames(params, args[..n]);
      if args[n].0 in byId {
        ParamsByIdHasOnly(params, args[n].0);
        assert HasParam(params, byId[args[n].0].name);
        AssignDeclared(params, DecodeArgs(byId, args[..n]), byId[args[n].0].name, BytesV(args[n].1));
      }
    }
  }

  /** A parameter decodes to the last value given for its id, whatever else the arguments hold. */
  lemma {:induction false} DecodedValue(params: seq<ActionParam>, args: seq<(nat, ByteString)>, p: ActionParam)
    requires ParamsOk(params) && p in params
    ensures var m := DecodeArgs(ParamsById(params), args);
      && DistinctNames(m)
      && Lookup(m, p.name) == if ArgOf(args, p.id).Some? then Some(BytesV(ArgOf(args, p.id).value)) else None
    decreases |args|
  {
    var byId := ParamsById(params);
    if |args| > 0 {
      var n := |args| - 1;
      DecodedValue(params, args[..n], p);
      var i :| 0 <= i < |params| && params[i] == p;
      ParamsByIdFinds(params, i);
      if args[n].0 in byId {
        ParamsByIdHasOnly(params, args[n].0);
        AssignLooksUp(DecodeArgs(byId, args[..n]), byId[args[n].0].name, BytesV(args[n].1), p.name);
      }
    }
  }

  /******* Encoding again *******/

  lemma {:induction false} BytesEncodeIfTheyFit(ip6: Ipv6, p: ActionParam, v: ByteString)
    ensures EncodeValue(ip6, BytesV(v), p.bitwidth) == if ArgFits(p, v) then Ok(v) else Err(EncodingError)
  {
    if p.bitwidth > 0 {
      BitLengthFits(BE(v), p.bitwidth);
    }
  }

  lemma {:induction false} ArgsReencode(encode: ArgEncoder, params: seq<ActionParam>, values: Match,
                                        args: seq<(nat, ByteString)>)
    requires forall p <- params :: Lookup(values, p.name).Some? && ArgOf(args, p.id).Some?
    requires forall p <- params ::
      encode(p, Lookup(values, p.name).value) ==
      if ArgFits(p, ArgOf(args, p.id).value) then Ok(ArgOf(args, p.id).value) else Err(EncodingError)
    ensures EncodeArgs(encode, params, values) ==
      if ArgsFit(params, args) then Ok(Arranged(params, args)) else Err(EncodingError)
    decreases |params|
  {
    if |params| > 0 {
      var n := |params| - 1;
      assert params == params[..n] + [params[n]];
      ArgsReencode(encode, params[..n], values, args);
      assert ArgsFit(params, args) <==>
        ArgsFit(params[..n], args) && ArgFits(params[n], ArgOf(args, params[n].id).value);
      assert Arranged(params, args) == Arranged(params[..n], args) + [Arranged(params, args)[n]];
    }
  }

  /**
    For arbitrary arguments, encoding what they decode to succeeds if and only if every declared parameter
    is given a value that fits; the result has these values canonical and in the declared order.
   */
  lemma {:induction false} DecodedActionReencodes(ip6: Ipv6, a: ActionSpec, args: seq<(nat, ByteString)>)
    requires ParamsOk(a.params)
    ensures EncodedAction(ip6, a, DecodeArgs(ParamsById(a.params), args)) ==
      if ArgsFit(a.params, args) then Ok(WireAction(a.id, Arranged(a.params, args))) else Err(EncodingError)
  {
    var values := DecodeArgs(ParamsById(a.params), args);
    DecodedNames(a.params, args);
    forall p <- a.params
      ensures Lookup(values, p.name) ==
        if ArgOf(args, p.id).Some? then Some(BytesV(ArgOf(args, p.id).value)) else None
    {
      DecodedValue(a.params, args, p);
    }
    if forall p <- a.params :: Lookup(values, p.name).Some? {
      forall p <- a.params
        ensures ArgOf(args, p.id).Some?
        ensures var v := ArgOf(args, p.id).value;
          ParamEncoder(ip6)(p, Lookup(values, p.name).value) == if ArgFits(p, v) then Ok(v) else Err(EncodingError)
      {
        BytesEncodeIfTheyFit(ip6, p, ArgOf(args, p.id).value);
      }
      ArgsReencode(ParamEncoder(ip6), a.params, values, args);
    }
  }

  lemma {:induction false} ArgAt(args: seq<(nat, ByteString)>, k: nat)
    requires k < |args| && forall i, j | 0 <= i < j < |args| :: args[i].0 != args[j].0
    ensures ArgOf(args, args[k].0) == Some(args[k].1)
  {
    if k < |args| - 1 {
      ArgAt(args[..|args| - 1], k);
    }
  }

  lemma {:induction false} CanonicalIsArranged(a: ActionSpec, w: WireAction)
    requires ParamsOk(a.params) && CanonicalAction(a, w)
    ensures ArgsFit(a.params, w.args) && Arranged(a.params, w.args) == w.args
  {
    forall k | 0 <= k < |a.params|
      ensures ArgOf(w.args, a.params[k].id) == Some(w.args[k].1)
    {
      ArgAt(w.args, k);
    }
  }

  lemma {:induction false} FirstActionIsOnly(all: seq<ActionSpec>, i: nat)
    requires i < |all| && forall i, j | 0 <= i < j < |all| :: all[i].id != all[j].id
    ensures FirstActionWithId(all, all[i].id) == Some(all[i])
  {
    if i > 0 {
      FirstActionIsOnly(all[1..], i - 1);
    }
  }

  lemma {:induction false} ActionByNameFinds(all: seq<ActionSpec>, i: nat)
    requires i < |all| && forall i, j | 0 <= i < j < |all| :: all[i].name != all[j].name
    ensures all[i].name in ActionsByName(all) && ActionsByName(all)[all[i].name] == all[i]
  {
    if i < |all| - 1 {
      ActionByNameFinds(all[..|all| - 1], i);
    }
  }

  /** A canonical action is decoded under its name and encodes back to itself. */
  lemma {:induction false} ActionRoundTrip(ip6: Ipv6, all: seq<ActionSpec>, i: nat, w: WireAction)
    requires i < |all| && ActionsOk(all) && CanonicalAction(all[i], w)
    ensures DecodeAction(all, Some(w)).Ok?
    ensures var (name, values) := DecodeAction(all, Some(w)).value;
      && name == Some(all[i].name)
      && OptionalAction(ip6, ActionsByName(all), Some((all[i].name, values))) == Ok(Some(w))
  {
    FirstActionIsOnly(all, i);
    ActionByNameFinds(all, i);
    CanonicalIsArranged(all[i], w);
    DecodedActionReencodes(ip6, all[i], w.args);
  }

  /******* What encoding sends *******/

  lemma {:induction false} CanonicalArgFits(p: ActionParam, v: ByteString)
    requires ArgFits(p, v)
    ensures ArgFits(p, Canonicalize(v)) && BE(Canonicalize(v)) == BE(v)
    ensures Canonicalize(Canonicalize(v)) == Canonicalize(v)
  {
    CanonicalKeepsValue(v);
    CanonicalEqualIffSameValue(Canonicalize(v), v);
    if |v| > 0 {
      CanonicalIsShortest(v, v);
    }
  }

  /** Each argument is its parameter's value in canonical form, in the order of the declaration. */
  lemma {:induction false} ArgsAreInOrder(encode: ArgEncoder, params: seq<ActionParam>, values: Match)
    requires forall p <- params :: Lookup(values, p.name).Some?
    requires EncodeArgs(encode, params, values).Ok?
    ensures var args := EncodeArgs(encode, params, values).value;
      && |args| == |params|
      && forall k | 0 <= k < |params| ::
          var v := encode(params[k], Lookup(values, params[k].name).value);
          v.Ok? && args[k] == (params[k].id, Canonicalize(v.value))
    decreases |params|
  {
    if |params| > 0 {
      ArgsAreInOrder(encode, params[..|params| - 1], values);
    }
  }

  /**
    An accepted action is sent canonical: exactly the declared parameters, in their order, each with the
    value that the caller gave under its name.
   */
  lemma {:induction false} EncodedActionIsCanonical(ip6: Ipv6, a: ActionSpec, values: Match)
    requires EncodedAction(ip6, a, values).Ok?
    ensures CanonicalAction(a, EncodedAction(ip6, a, values).value)
    ensures forall k | 0 <= k < |a.params| ::
      && Lookup(values, a.params[k].name).Some?
      && SameValue(EncodeValue(ip6, Lookup(values, a.params[k].name).value, a.params[k].bitwidth),
                   EncodedAction(ip6, a, values).value.args[k].1)
  {
    ArgsAreInOrder(ParamEncoder(ip6), a.params, values);
    forall k | 0 <= k < |a.params|
      ensures var w := EncodedAction(ip6, a, values).value;
        var v := EncodeValue(ip6, Lookup(values, a.params[k].name).value, a.params[k].bitwidth);
        && ArgFits(a.params[k], w.args[k].1) && w.args[k].1 == Canonicalize(w.args[k].1)
        && SameValue(v, w.args[k].1)
    {
      var p := a.params[k];
      var v := ParamEncoder(ip6)(p, Lookup(values, p.name).value);
      ParsesFit(ip6, Lookup(values, p.name).value, p.bitwidth);
      CanonicalArgFits(p, v.value);
    }
  }

  predicate SameValue(encoded: Result<ByteString, Error>, v: ByteString) {
    encoded.Ok? && BE(encoded.value) == BE(v)
  }

  /** What was encoded survives being stored, listed and encoded again. */
  lemma {:induction false} EncodedActionSurvives(ip6: Ipv6, a: ActionSpec, values: Match)
    requires ParamsOk(a.params) && EncodedAction(ip6, a, values).Ok?
    ensures var w := EncodedAction(ip6, a, values).value;
      EncodedAction(ip6, a, DecodeArgs(ParamsById(a.params), w.args)) == Ok(w)
  {
    EncodedActionIsCanonical(ip6, a, values);
    CanonicalIsArranged(a, EncodedAction(ip6, a, values).value);
    DecodedActionReencodes(ip6, a, EncodedAction(ip6, a, values).value.args);
  }
}
