/** Link impairments: what a link may ask for, and what is applied to each of its directions. */
module Impairments {
  import opened Wrappers
  import opened Bytes
  import opened Literals

  datatype Direction = AToB | BToA

  /** One optional value for each direction. */
  datatype Ways<T> = Ways(aToB: Option<T>, bToA: Option<T>) {
    function Of(d: Direction): Option<T> {
      if d.AToB? then aToB else bToA
    }

    predicate Unset() {
      aToB.None? && bToA.None?
    }
  }

  /** The MTU and the impairments of a link: for both directions, for one, and added in one. */
  datatype Shaping = Shaping(
    rate: Option<string>, rates: Ways<string>,
    delay: Option<string>, delays: Ways<string>, extraDelays: Ways<string>,
    jitter: Option<string>, jitters: Ways<string>, extraJitters: Ways<string>,
    loss: Option<real>, losses: Ways<real>, extraLosses: Ways<real>,
    mtu: Option<int>)

  const MTU_MIN := 68
  const MTU_MAX := 65535

  /******* What a link may ask for *******/

  /** A value for both directions and one for a single direction exclude each other. */
  predicate Exclusive<T>(both: Option<T>, ways: Ways<T>) {
    both.Some? ==> ways.Unset()
  }

  /** What is added in a direction needs a value for both, and none for that direction alone. */
  predicate ExtrasOk<T>(both: Option<T>, ways: Ways<T>, extras: Ways<T>) {
    forall d: Direction :: extras.Of(d).Some? ==> ways.Of(d).None? && both.Some?
  }

  predicate Percentage(value: Option<real>) {
    value.Some? ==> 0.0 <= value.value <= 100.0
  }

  predicate ShapingOk(s: Shaping) {
    && Exclusive(s.rate, s.rates) && Exclusive(s.delay, s.delays)
    && Exclusive(s.jitter, s.jitters) && Exclusive(s.loss, s.losses)
    && (s.jitter.Some? ==> s.delay.Some?)
    && (forall d: Direction :: s.jitters.Of(d).Some? ==> s.delays.Of(d).Some? || s.delay.Some?)
    && Percentage(s.loss) && (forall d: Direction :: Percentage(s.losses.Of(d)))
    && ExtrasOk(s.delay, s.delays, s.extraDelays)
    && ExtrasOk(s.jitter, s.jitters, s.extraJitters)
    && ExtrasOk(s.loss, s.losses, s.extraLosses)
    && (forall d: Direction :: s.extraLosses.Of(d).Some? ==> s.extraLosses.Of(d).value >= 0.0)
    && (s.mtu.Some? ==> MTU_MIN <= s.mtu.value <= MTU_MAX)
  }

  /******* Durations *******/

  /** How many of the first characters can belong to a number. */
  function NumberLength(s: string): (n: nat)
    ensures n <= |s|
  {
    if |s| > 0 && (IsDigit(s[0]) || s[0] == '.') then 1 + NumberLength(s[1..]) else 0
  }

  predicate IsWhole(s: string) {
    |s| > 0 && AllDigits(s)
  }

  /** Digits, and perhaps a point and further digits. */
  predicate IsNumber(s: string) {
    IsWhole(s) || ('.' in s && IsWhole(s[..LastIndex(s, '.')]) && IsWhole(s[LastIndex(s, '.') + 1..]))
  }

  function Lower(s: string): string {
    seq(|s|, i requires 0 <= i < |s| => if 'A' <= s[i] <= 'Z' then s[i] - 'A' + 'a' else s[i])
  }

  /** What `tc` is given as a time has to match this. */
  predicate TimeText(s: string) {
    IsNumber(s[..NumberLength(s)]) && Lower(s[NumberLength(s)..]) in {"s", "ms", "us"}
  }

  /** The nanoseconds of a unit. */
  function Scale(unit: string): Option<nat> {
    if unit == "ns" then Some(1)
    else if unit == "us" then Some(1_000)
    else if unit == "ms" then Some(1_000_000)
    else if unit == "s" then Some(1_000_000_000)
    else None
  }

  /** The rounding of a number with a fraction, in nanoseconds. */
  type Rounding = (string, nat) -> nat

  /** `_parse_duration_ns`. */
  function ParseNs(round: Rounding, text: string): Option<nat> {
    var s := Trim(text);
    var n := NumberLength(s);
    var number, scale := s[..n], Scale(Trim(s[n..]));
    if !IsNumber(number) || scale.None? then None
    else if IsWhole(number) then Some(DecValue(number) * scale.value)
    else Some(round(number, scale.value))
  }

  /** How a duration is read. */
  type DurationReader = string -> Option<nat>

  function Reader(round: Rounding): DurationReader {
    (text: string) => ParseNs(round, text)
  }

  /** `_format_duration_ns`: the largest unit that divides the duration. */
  function FormatNs(ns: nat): string {
    if ns >= 1_000_000_000 && ns % 1_000_000_000 == 0 then Dec(ns / 1_000_000_000) + "s"
    else if ns >= 1_000_000 && ns % 1_000_000 == 0 then Dec(ns / 1_000_000) + "ms"
    else if ns >= 1_000 && ns % 1_000 == 0 then Dec(ns / 1_000) + "us"
    else Dec(ns) + "ns"
  }

  /** `_add_durations`; None stands for the error. */
  function AddDurations(read: DurationReader, base: string, extra: string): Option<string> {
    var a, b := read(base), read(extra);
    if a.None? || b.None? then None else Some(FormatNs(a.value + b.value))
  }

  /******* What is applied to a direction *******/

  /** The arguments of `apply_netem`. */
  datatype Netem = Netem(rate: Option<string>, delay: Option<string>, jitter: Option<string>, loss: Option<real>)

  /** Of a text that may be added to; None stands for the error of adding. */
  function ResolveText(read: DurationReader, both: Option<string>, way: Option<string>, extra: Option<string>)
    : Option<Option<string>>
  {
    if extra.Some? && both.Some? then
      var sum := AddDurations(read, both.value, extra.value);
      if sum.None? then None else Some(sum)
    else Some(if way.Some? then way else both)
  }

  function ResolveLoss(both: Option<real>, way: Option<real>, extra: Option<real>): Option<Option<real>> {
    if extra.Some? && both.Some? then
      if both.value + extra.value > 100.0 then None else Some(Some(both.value + extra.value))
    else Some(if way.Some? then way else both)
  }

  /** `_direction_params`; an empty rate for the direction counts as none. */
  function DirectionParams(read: DurationReader, s: Shaping, d: Direction): Option<Netem> {
    var rate := if s.rates.Of(d).Some? && s.rates.Of(d).value != "" then s.rates.Of(d) else s.rate;
    var delay := ResolveText(read, s.delay, s.delays.Of(d), s.extraDelays.Of(d));
    var jitter := ResolveText(read, s.jitter, s.jitters.Of(d), s.extraJitters.Of(d));
    var loss := ResolveLoss(s.loss, s.losses.Of(d), s.extraLosses.Of(d));
    if delay.None? || jitter.None? || loss.None? then None
    else Some(Netem(rate, delay.value, jitter.value, loss.value))
  }

  /** The checks of `apply_netem`; `isRate` is the pattern for rates. */
  predicate NetemOk(isRate: string -> bool, p: Netem) {
    && (p.rate.Some? || p.delay.Some? || p.jitter.Some? || p.loss.Some?)
    && (p.jitter.Some? ==> p.delay.Some?)
    && (p.rate.Some? ==> isRate(p.rate.value))
    && (p.delay.Some? ==> TimeText(p.delay.value))
    && (p.jitter.Some? ==> TimeText(p.jitter.value))
    && Percentage(p.loss)
  }

  /** The direction gets its impairments without an error; without any, nothing is applied. */
  predicate Applies(read: DurationReader, isRate: string -> bool, s: Shaping, d: Direction) {
    var p := DirectionParams(read, s, d);
    p.Some? && (p.value == Netem(None, None, None, None) || NetemOk(isRate, p.value))
  }

  /******* Durations that add up *******/

  lemma {:induction false} NumberEnds(s: string, unit: string)
    requires AllDigits(s) && |unit| > 0 && !IsDigit(unit[0]) && unit[0] != '.'
    ensures NumberLength(s + unit) == |s|
  {
    if |s| > 0 {
      assert (s + unit)[1..] == s[1..] + unit;
      NumberEnds(s[1..], unit);
    } else {
      assert s + unit == unit;
    }
  }

  /** The number and the unit of a formatted duration. */
  function Parts(ns: nat): (nat, string) {
    if ns >= 1_000_000_000 && ns % 1_000_000_000 == 0 then (ns / 1_000_000_000, "s")
    else if ns >= 1_000_000 && ns % 1_000_000 == 0 then (ns / 1_000_000, "ms")
    else if ns >= 1_000 && ns % 1_000 == 0 then (ns / 1_000, "us")
    else (ns, "ns")
  }

  lemma {:induction false} FormatSplits(ns: nat)
    ensures var (q, unit) := Parts(ns);
      && FormatNs(ns) == Dec(q) + unit && NumberLength(FormatNs(ns)) == |Dec(q)|
      && FormatNs(ns)[..|Dec(q)|] == Dec(q) && FormatNs(ns)[|Dec(q)|..] == unit
      && Scale(unit).Some? && q * Scale(unit).value == ns
  {
    var (q, unit) := Parts(ns);
    NumberEnds(Dec(q), unit);
  }

  /** A formatted duration is read back as itself. */
  lemma {:induction false} ParseUndoesFormat(round: Rounding, ns: nat)
    ensures Reader(round)(FormatNs(ns)) == Some(ns)
  {
    var (q, unit) := Parts(ns);
    var s := FormatNs(ns);
    FormatSplits(ns);
    assert IsDigit(s[0]) && s[|s| - 1] == 's';
    assert Trim(s) == s && Trim(unit) == unit;
    DecRoundTrip(q);
  }

  /** With a reader that undoes formatting, what adding gives stands for the sum. */
  lemma {:induction false} AddingAdds(read: DurationReader, base: string, extra: string)
    requires forall ns: nat :: read(FormatNs(ns)) == Some(ns)
    ensures var a, b, sum := read(base), read(extra), AddDurations(read, base, extra);
      && (sum.Some? <==> a.Some? && b.Some?)
      && (sum.Some? ==> read(sum.value) == Some(a.value + b.value))
  {
    var a, b := read(base), read(extra);
    if a.Some? && b.Some? {
      assert read(FormatNs(a.value + b.value)) == Some(a.value + b.value);
    }
  }

  /** A formatted duration is one that `tc` accepts exactly if it is a positive number of microseconds. */
  lemma {:induction false} FormatIsTime(ns: nat)
    ensures TimeText(FormatNs(ns)) <==> ns > 0 && ns % 1_000 == 0
  {
    FormatSplits(ns);
    UnitIsTime(ns);
  }

  lemma {:induction false} UnitIsTime(ns: nat)
    ensures var (q, unit) := Parts(ns); Lower(unit) in {"s", "ms", "us"} <==> ns > 0 && ns % 1_000 == 0
  {
    assert Lower("s") == "s" && Lower("ms") == "ms" && Lower("us") == "us" && Lower("ns") == "ns";
    Thousands(ns, 1_000_000);
    Thousands(ns, 1_000);
  }

  /** A multiple of a multiple of a thousand is one of a thousand. */
  lemma {:induction false} Thousands(ns: nat, k: nat)
    requires k > 0
    ensures ns % (1_000 * k) == 0 ==> ns % 1_000 == 0
  {
    if ns % (1_000 * k) == 0 {
      var q := ns / (1_000 * k);
      assert ns == 1_000 * k * q == 1_000 * (k * q);
    }
  }

  /******* Which accepted links can be applied *******/

  /** Either the sum is a positive number of microseconds, or the text, if any, is a time. */
  predicate TextFits(read: DurationReader, both: Option<string>, way: Option<string>, extra: Option<string>) {
    if extra.Some? && both.Some? then
      var a, b := read(both.value), read(extra.value);
      a.Some? && b.Some? && a.value + b.value > 0 && (a.value + b.value) % 1_000 == 0
    else
      var text := if way.Some? then way else both;
      text.Some? ==> TimeText(text.value)
  }

  predicate RateFits(isRate: string -> bool, s: Shaping, d: Direction) {
    var rate := if s.rates.Of(d).Some? && s.rates.Of(d).value != "" then s.rates.Of(d) else s.rate;
    rate.Some? ==> isRate(rate.value)
  }

  predicate LossFits(s: Shaping, d: Direction) {
    s.loss.Some? && s.extraLosses.Of(d).Some? ==> s.loss.value + s.extraLosses.Of(d).value <= 100.0
  }

  lemma {:induction false} TextFitsExactly(read: DurationReader, both: Option<string>, way: Option<string>,
                                           extra: Option<string>)
    ensures var r := ResolveText(read, both, way, extra);
      TextFits(read, both, way, extra) <==> r.Some? && (r.value.Some? ==> TimeText(r.value.value))
  {
    if extra.Some? && both.Some? {
      var a, b := read(both.value), read(extra.value);
      if a.Some? && b.Some? {
        FormatIsTime(a.value + b.value);
      }
    }
  }

  lemma {:induction false} LossFitsExactly(s: Shaping, d: Direction)
    requires ShapingOk(s)
    ensures var r := ResolveLoss(s.loss, s.losses.Of(d), s.extraLosses.Of(d));
      (LossFits(s, d) <==> r.Some?) && (r.Some? ==> Percentage(r.value))
  {
    assert Percentage(s.losses.Of(d));
  }

  /** A jitter that a direction comes to have is never without a delay. */
  lemma {:induction false} JitterHasDelay(read: DurationReader, s: Shaping, d: Direction)
    requires ShapingOk(s) && DirectionParams(read, s, d).Some?
    ensures var p := DirectionParams(read, s, d).value; p.jitter.Some? ==> p.delay.Some?
  {
    assert s.jitters.Of(d).Some? ==> s.delays.Of(d).Some? || s.delay.Some?;
  }

  /**
    A link that was accepted gets its impairments in a direction if and only if the rate is one, the delay and
    the jitter are times or add up to a positive number of microseconds, and the losses add up to at most 100.
    The other checks that are made when it is wired cannot fail any more.
   */
  lemma {:induction false} AppliesExactly(read: DurationReader, isRate: string -> bool, s: Shaping, d: Direction)
    requires ShapingOk(s)
    ensures Applies(read, isRate, s, d) <==>
      && RateFits(isRate, s, d) && LossFits(s, d)
      && TextFits(read, s.delay, s.delays.Of(d), s.extraDelays.Of(d))
      && TextFits(read, s.jitter, s.jitters.Of(d), s.extraJitters.Of(d))
  {
    TextFitsExactly(read, s.delay, s.delays.Of(d), s.extraDelays.Of(d));
    TextFitsExactly(read, s.jitter, s.jitters.Of(d), s.extraJitters.Of(d));
    LossFitsExactly(s, d);
    if DirectionParams(read, s, d).Some? {
      JitterHasDelay(read, s, d);
    }
  }

  /** No delay in either direction, and none added in one. */
  const NO_DELAY := Shaping(
    None, Ways(None, None),
    Some("0ms"), Ways(None, None), Ways(Some("0ms"), None),
    None, Ways(None, None), Ways(None, None),
    None, Ways(None, None), Ways(None, None),
    None)

  /** Adding nothing to a delay that `tc` accepts can make it one that it refuses. */
  lemma {:induction false} AddingNothingIsRefused(round: Rounding, isRate: string -> bool)
    ensures ShapingOk(NO_DELAY) && TimeText("0ms")
    ensures Applies(Reader(round), isRate, NO_DELAY, BToA) && !Applies(Reader(round), isRate, NO_DELAY, AToB)
  {
    var read := Reader(round);
    NumberEnds("0", "ms");
    assert "0" + "ms" == "0ms" && "0ms"[..1] == "0" && "0ms"[1..] == "ms" && Lower("ms") == "ms";
    assert Trim("0ms") == "0ms" && Trim("ms") == "ms";
    AppliesExactly(read, isRate, NO_DELAY, AToB);
    AppliesExactly(read, isRate, NO_DELAY, BToA);
  }
}
