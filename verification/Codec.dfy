/** Encoding of field values to byte strings, parsing of LPM, ternary and range keys, and printing. */
module Codec {
  import opened Wrappers
  import opened Bits
  import opened Bytes
  import opened BigEndian
  import opened Literals

  datatype Error = EncodingError | NoSuchFieldError | NoSuchTableError | NoSuchActionError | RpcFailure

  /** A value as a caller may pass it. */
  datatype Value =
    | IntV(i: int) | BoolV(b: bool) | BytesV(data: ByteString) | StrV(text: string) | TupleV(items: seq<Value>) | OtherV

  type Ipv6Bytes = b: ByteString | |b| == 16 witness [0, 0, 0, 0, 0, 0, 0, 0, 0, 0, 0, 0, 0, 0, 0, 0]

  /** The library's reading and printing of IPv6 addresses. */
  datatype Ipv6 = Ipv6(parse: string -> Option<Ipv6Bytes>, print6: Ipv6Bytes -> string)

  /** The byte width of a field. */
  function Width(bitwidth: int): nat
    requires bitwidth > 0
  {
    (bitwidth + 7) / 8
  }

  function EncodeInt(value: Value, bitwidth: int): (r: Result<ByteString, Error>)
    ensures r.Ok? ==> bitwidth > 0 && |r.value| == Width(bitwidth) && BE(r.value) < Pow2(bitwidth)
  {
    if !value.IntV? || value.i < 0 || bitwidth <= 0 || BitLength(value.i) > bitwidth then Err(EncodingError)
    else
      BitLengthFits(value.i, bitwidth);
      Pow2Grows(bitwidth, 8 * Width(bitwidth));
      Ok(ToBytes(value.i, Width(bitwidth)))
  }

  function EncodeIpv4(value: Value): Result<ByteString, Error> {
    if value.StrV? && ParseQuad(value.text).Some? then Ok(ParseQuad(value.text).value) else Err(EncodingError)
  }

  function EncodeMac(value: Value): Result<ByteString, Error> {
    if value.StrV? && MacShape(value.text) then Ok(ParseMac(value.text)) else Err(EncodingError)
  }

  function EncodeText(ip6: Ipv6, text: string, bitwidth: int): Result<ByteString, Error> {
    if Count(text, '.') == 3 then
      if bitwidth != 32 then Err(EncodingError) else EncodeIpv4(StrV(text))
    else if Count(text, ':') == 5 && MacShape(text) then
      if bitwidth != 48 then Err(EncodingError) else EncodeMac(StrV(text))
    else if ':' in text then
      if bitwidth != 128 || ip6.parse(text).None? then Err(EncodingError) else Ok(ip6.parse(text).value)
    else
      var n := IntLiteral(text, true);
      if n.None? then Err(EncodingError) else EncodeInt(IntV(n.value), bitwidth)
  }

  function EncodeValue(ip6: Ipv6, value: Value, bitwidth: int): Result<ByteString, Error> {
    if bitwidth <= 0 then Err(EncodingError)
    else
      match value
      case BytesV(data) =>
        if |data| > Width(bitwidth) || BitLength(BE(data)) > bitwidth then Err(EncodingError) else Ok(data)
      case BoolV(b) => EncodeInt(IntV(if b then 1 else 0), bitwidth)
      case IntV(_) => EncodeInt(value, bitwidth)
      case StrV(text) => EncodeText(ip6, text, bitwidth)
      case _ => Err(EncodingError)
  }

  function DecodeInt(data: ByteString, bitwidth: int): Result<nat, Error> {
    if bitwidth <= 0 || |data| > Width(bitwidth) || BitLength(BE(data)) > bitwidth then Err(EncodingError)
    else Ok(BE(data))
  }

  /******* Keys *******/

  /** No bit of v outside the prefix is set; an empty prefix is not checked. */
  predicate WithinPrefix(v: nat, prefixLen: nat, bitwidth: int)
    requires prefixLen <= bitwidth
  {
    prefixLen == 0 || And(v, Pow2(bitwidth - prefixLen) - 1) == 0
  }

  /** The check and encoding shared by both spellings of an LPM key. */
  function LpmOf(ip6: Ipv6, addr: Value, prefixLen: int, bitwidth: int): Result<(ByteString, nat), Error> {
    if prefixLen < 0 || prefixLen > bitwidth then Err(EncodingError)
    else
      var encoded := EncodeValue(ip6, addr, bitwidth);
      if encoded.Err? then Err(encoded.error)
      else if !WithinPrefix(BE(encoded.value), prefixLen, bitwidth) then Err(EncodingError)
      else Ok((encoded.value, prefixLen))
  }

  /** The two sides of the last slash, the right one as a number. */
  function SplitLpm(text: string): Option<(string, int)> {
    if '/' !in text then None
    else
      var i := LastIndex(text, '/');
      var prefixLen := IntLiteral(text[i + 1..], false);
      if prefixLen.None? then None else Some((text[..i], prefixLen.value))
  }

  function ParseLpm(ip6: Ipv6, value: Value, bitwidth: int): Result<(ByteString, nat), Error> {
    match value
    case StrV(text) =>
      var parts := SplitLpm(text);
      if parts.None? then Err(EncodingError) else LpmOf(ip6, StrV(parts.value.0), parts.value.1, bitwidth)
    case TupleV(items) =>
      if |items| == 2 && items[1].IntV? then LpmOf(ip6, items[0], items[1].i, bitwidth) else Err(EncodingError)
    case _ => Err(EncodingError)
  }

  function ParseTernary(ip6: Ipv6, value: Value, bitwidth: int): Result<(ByteString, ByteString), Error> {
    if !value.TupleV? || |value.items| != 2 then Err(EncodingError)
    else
      var v, m := EncodeValue(ip6, value.items[0], bitwidth), EncodeValue(ip6, value.items[1], bitwidth);
      if v.Err? || m.Err? then Err(EncodingError)
      else if BE(m.value) != 0 && And(BE(v.value), BE(m.value)) != BE(v.value) then Err(EncodingError)
      else Ok((v.value, m.value))
  }

  function ParseRange(ip6: Ipv6, value: Value, bitwidth: int): Result<(ByteString, ByteString), Error> {
    if !value.TupleV? || |value.items| != 2 then Err(EncodingError)
    else
      var low, high := EncodeValue(ip6, value.items[0], bitwidth), EncodeValue(ip6, value.items[1], bitwidth);
      if low.Err? || high.Err? || BE(low.value) > BE(high.value) then Err(EncodingError)
      else Ok((low.value, high.value))
  }

  /******* Printing *******/

  function ZeroExtend(data: ByteString, bitwidth: int): (r: Result<ByteString, Error>)
    requires bitwidth > 0
    ensures r.Ok? <==> |data| <= Width(bitwidth)
    ensures r.Ok? ==> |r.value| == Width(bitwidth) && BE(r.value) == BE(data)
  {
    if |data| > Width(bitwidth) then Err(EncodingError)
    else
      PaddingKeepsValue(Width(bitwidth) - |data|, data);
      Ok(if |data| == Width(bitwidth) then data else Zeros(Width(bitwidth) - |data|) + data)
  }

  /** The widths that have a literal form of their own. */
  predicate WholeBytes(bitwidth: int) {
    bitwidth == 32 || bitwidth == 48 || bitwidth == 128
  }

  function FormatExact(ip6: Ipv6, data: ByteString, bitwidth: int): Result<string, Error> {
    if WholeBytes(bitwidth) then
      var padded := ZeroExtend(data, bitwidth);
      if padded.Err? then Err(padded.error)
      else if bitwidth == 32 then Ok(PrintQuad(padded.value))
      else if bitwidth == 48 then Ok(PrintMac(padded.value))
      else Ok(ip6.print6(padded.value))
    else
      var n := DecodeInt(data, bitwidth);
      if n.Err? then Err(n.error) else Ok(Dec(n.value))
  }

  function FormatLpm(ip6: Ipv6, data: ByteString, prefixLen: int, bitwidth: int): Result<string, Error> {
    var text := FormatExact(ip6, data, bitwidth);
    if text.Err? then text else Ok(text.value + "/" + DecInt(prefixLen))
  }

  function FormatPair(ip6: Ipv6, a: ByteString, b: ByteString, bitwidth: int, left: string, sep: string, right: string):
    Result<string, Error>
  {
    var s, t := FormatExact(ip6, a, bitwidth), FormatExact(ip6, b, bitwidth);
    if s.Err? then s else if t.Err? then t else Ok(left + s.value + sep + t.value + right)
  }

  function FormatTernary(ip6: Ipv6, value: ByteString, mask: ByteString, bitwidth: int): Result<string, Error> {
    FormatPair(ip6, value, mask, bitwidth, "", "&", "")
  }

  function FormatRange(ip6: Ipv6, low: ByteString, high: ByteString, bitwidth: int): Result<string, Error> {
    FormatPair(ip6, low, high, bitwidth, "[", ",", "]")
  }

  /******* What encoding accepts and yields *******/

  lemma {:induction false} ParsesFit(ip6: Ipv6, value: Value, bitwidth: int)
    requires EncodeValue(ip6, value, bitwidth).Ok?
    ensures var r := EncodeValue(ip6, value, bitwidth).value;
      bitwidth > 0 && |r| <= Width(bitwidth) && BE(r) < Pow2(bitwidth)
  {
    var r := EncodeValue(ip6, value, bitwidth).value;
    BitLengthFits(BE(r), bitwidth);
    BEBound(r);
  }

  /** What every encoded value satisfies. */
  predicate FitsIn(data: ByteString, bitwidth: int) {
    bitwidth > 0 && |data| <= Width(bitwidth) && BE(data) < Pow2(bitwidth)
  }

  lemma {:induction false} LpmFits(ip6: Ipv6, value: Value, bitwidth: int)
    requires ParseLpm(ip6, value, bitwidth).Ok?
    ensures var k := ParseLpm(ip6, value, bitwidth).value;
      FitsIn(k.0, bitwidth) && k.1 <= bitwidth && WithinPrefix(BE(k.0), k.1, bitwidth)
  {
    if value.StrV? {
      var parts := SplitLpm(value.text).value;
      LpmOfFits(ip6, StrV(parts.0), parts.1, bitwidth);
    } else {
      LpmOfFits(ip6, value.items[0], value.items[1].i, bitwidth);
    }
  }

  lemma {:induction false} LpmOfFits(ip6: Ipv6, addr: Value, prefixLen: int, bitwidth: int)
    requires LpmOf(ip6, addr, prefixLen, bitwidth).Ok?
    ensures var k := LpmOf(ip6, addr, prefixLen, bitwidth).value;
      FitsIn(k.0, bitwidth) && k.1 <= bitwidth && WithinPrefix(BE(k.0), k.1, bitwidth)
  {
    ParsesFit(ip6, addr, bitwidth);
  }

  lemma {:induction false} PairFits(ip6: Ipv6, value: Value, bitwidth: int)
    requires value.TupleV? && |value.items| == 2
    requires EncodeValue(ip6, value.items[0], bitwidth).Ok? && EncodeValue(ip6, value.items[1], bitwidth).Ok?
    ensures FitsIn(EncodeValue(ip6, value.items[0], bitwidth).value, bitwidth)
    ensures FitsIn(EncodeValue(ip6, value.items[1], bitwidth).value, bitwidth)
  {
    ParsesFit(ip6, value.items[0], bitwidth);
    ParsesFit(ip6, value.items[1], bitwidth);
  }

  /** An integer is encoded exactly if it is representable, at the full width of the field. */
  lemma {:induction false} EncodeIntAccepts(v: int, bitwidth: int)
    ensures EncodeInt(IntV(v), bitwidth).Ok? <==> bitwidth > 0 && 0 <= v < Pow2(bitwidth)
    ensures EncodeInt(IntV(v), bitwidth).Ok? ==> BE(EncodeInt(IntV(v), bitwidth).value) == v
  {
    if bitwidth > 0 && v >= 0 {
      BitLengthFits(v, bitwidth);
    }
  }

  lemma {:induction false} DecodeIntAccepts(data: ByteString, bitwidth: int)
    ensures DecodeInt(data, bitwidth).Ok? <==> bitwidth > 0 && |data| <= Width(bitwidth) && BE(data) < Pow2(bitwidth)
  {
    if bitwidth > 0 {
      BitLengthFits(BE(data), bitwidth);
    }
  }

  /** Decoding undoes encoding, from the full-width form and from the canonical one. */
  lemma {:induction false} IntRoundTrip(v: int, bitwidth: int)
    requires bitwidth > 0 && 0 <= v < Pow2(bitwidth)
    ensures EncodeInt(IntV(v), bitwidth).Ok?
    ensures DecodeInt(EncodeInt(IntV(v), bitwidth).value, bitwidth) == Ok(v)
    ensures DecodeInt(Canonicalize(EncodeInt(IntV(v), bitwidth).value), bitwidth) == Ok(v)
  {
    EncodeIntAccepts(v, bitwidth);
    var r := EncodeInt(IntV(v), bitwidth).value;
    CanonicalKeepsValue(r);
    DecodeIntAccepts(r, bitwidth);
    DecodeIntAccepts(Canonicalize(r), bitwidth);
  }

  lemma {:induction false} PrefixIsAlignment(v: nat, prefixLen: nat, bitwidth: int)
    requires prefixLen <= bitwidth
    ensures WithinPrefix(v, prefixLen, bitwidth) <==> prefixLen == 0 || v % Pow2(bitwidth - prefixLen) == 0
  {
    AndLowMask(v, bitwidth - prefixLen);
  }

  /******* Printing and reading back *******/

  lemma {:induction false} FormatAccepts(ip6: Ipv6, data: ByteString, bitwidth: int)
    ensures FormatExact(ip6, data, bitwidth).Ok? <==> DecodeInt(data, bitwidth).Ok?
  {
    if WholeBytes(bitwidth) && |data| <= Width(bitwidth) {
      WholeBytesFit(data, bitwidth);
    }
    DecodeIntAccepts(data, bitwidth);
  }

  lemma {:induction false} WholeBytesFit(data: ByteString, bitwidth: nat)
    requires bitwidth % 8 == 0 && 8 * |data| <= bitwidth
    ensures BE(data) < Pow2(bitwidth)
  {
    BEBound(data);
    Pow2Grows(8 * |data|, bitwidth);
  }

  /** Which literal a printed value is. */
  predicate RightLiteral(text: string, bitwidth: int) {
    if bitwidth == 32 then Count(text, '.') == 3
    else if bitwidth == 48 then Count(text, '.') == 0 && Count(text, ':') == 5 && MacShape(text)
    else Count(text, '.') == 0 && ':' !in text
  }

  /** At every width but 128, the printed value is read through the right literal branch, and is the value. */
  lemma {:induction false} PrintedValueReadsBack(ip6: Ipv6, data: ByteString, bitwidth: int)
    requires DecodeInt(data, bitwidth).Ok? && bitwidth != 128
    ensures FormatExact(ip6, data, bitwidth).Ok?
    ensures var text := FormatExact(ip6, data, bitwidth).value;
      && RightLiteral(text, bitwidth)
      && var r := EncodeValue(ip6, StrV(text), bitwidth);
         r.Ok? && |r.value| == Width(bitwidth) && BE(r.value) == BE(data)
  {
    FormatAccepts(ip6, data, bitwidth);
    var text := FormatExact(ip6, data, bitwidth).value;
    if bitwidth == 32 {
      QuadTextEncodes(ip6, ZeroExtend(data, bitwidth).value);
    } else if bitwidth == 48 {
      MacTextEncodes(ip6, ZeroExtend(data, bitwidth).value);
    } else {
      DecodeIntAccepts(data, bitwidth);
      DecTextEncodes(ip6, BE(data), bitwidth);
    }
  }

  lemma {:induction false} QuadTextEncodes(ip6: Ipv6, octets: ByteString)
    requires |octets| == 4
    ensures RightLiteral(PrintQuad(octets), 32) && EncodeText(ip6, PrintQuad(octets), 32) == Ok(octets)
  {
    QuadReadsBack(octets);
    QuadCounts(octets, '.');
  }

  lemma {:induction false} MacTextEncodes(ip6: Ipv6, octets: ByteString)
    requires |octets| == 6
    ensures RightLiteral(PrintMac(octets), 48) && EncodeText(ip6, PrintMac(octets), 48) == Ok(octets)
  {
    MacReadsBack(octets);
    MacCounts(PrintMac(octets));
  }

  lemma {:induction false} DecTextEncodes(ip6: Ipv6, n: nat, bitwidth: int)
    requires bitwidth > 0 && n < Pow2(bitwidth)
    ensures Count(Dec(n), '.') == 0 && ':' !in Dec(n)
    ensures EncodeText(ip6, Dec(n), bitwidth).Ok? && BE(EncodeText(ip6, Dec(n), bitwidth).value) == n
  {
    DecHasNo(n, '.');
    DecHasNo(n, ':');
    CountNone(Dec(n), '.');
    CountNone(Dec(n), ':');
    IntReadsDec(n, true);
    EncodeIntAccepts(n, bitwidth);
  }

  /**
    At width 128 the library prints and parses.  Where it reads back what it printed, the codec does so
    exactly if the text does not have three dots: those are taken for an IPv4 literal and refused.
   */
  lemma {:induction false} Ipv6ReadsBack(ip6: Ipv6, data: ByteString)
    requires |data| <= 16
    requires var padded: Ipv6Bytes := ZeroExtend(data, 128).value;
      ip6.parse(ip6.print6(padded)) == Some(padded) && ':' in ip6.print6(padded) && !MacShape(ip6.print6(padded))
    ensures var text := FormatExact(ip6, data, 128);
      && text.Ok?
      && var r := EncodeValue(ip6, StrV(text.value), 128);
         if Count(text.value, '.') == 3 then r == Err(EncodingError)
         else r.Ok? && |r.value| == 16 && BE(r.value) == BE(data)
  {
    var padded := ZeroExtend(data, 128).value;
    assert FormatExact(ip6, data, 128) == Ok(ip6.print6(padded));
  }

  /** An IPv4-mapped address, and a text for it with three dots. */
  const MAPPED: Ipv6Bytes := [0, 0, 0, 0, 0, 0, 0, 0, 0, 0, 255, 255, 1, 2, 3, 4]
  const MAPPED_TEXT := "::ffff:1.2.3.4"

  /** A library that prints the mapped address with dots, and reads it back. */
  function MixedNotation(): Ipv6 {
    Ipv6((text: string) => if text == MAPPED_TEXT then Some(MAPPED) else None,
         (address: Ipv6Bytes) => if address == MAPPED then MAPPED_TEXT else "::")
  }

  /** Such a library meets every assumption above, and what it prints is refused. */
  lemma {:induction false} MappedAddressIsRefused()
    ensures var ip6 := MixedNotation();
      && ZeroExtend(MAPPED, 128) == Ok(MAPPED) && ip6.parse(ip6.print6(MAPPED)) == Some(MAPPED)
      && ':' in ip6.print6(MAPPED) && !MacShape(ip6.print6(MAPPED))
      && FormatExact(ip6, MAPPED, 128) == Ok(MAPPED_TEXT)
      && EncodeValue(ip6, StrV(MAPPED_TEXT), 128) == Err(EncodingError)
  {
    var ip6, parts := MixedNotation(), ["::ffff:1", "2", "3", "4"];
    assert MAPPED_TEXT[0] == ':';
    assert parts[1..] == ["2", "3", "4"] && parts[1..][1..] == ["3", "4"] && parts[1..][1..][1..] == ["4"];
    assert Join(["4"], '.') == "4" && Join(["3", "4"], '.') == "3.4" && Join(["2", "3", "4"], '.') == "2.3.4";
    assert Join(parts, '.') == MAPPED_TEXT;
    JoinCounts(parts, '.', '.');
    Ipv6ReadsBack(ip6, MAPPED);
  }

  /** An LPM text is split at its last slash. */
  lemma {:induction false} LpmTextSplits(text: string, prefixLen: nat)
    ensures SplitLpm(text + "/" + Dec(prefixLen)) == Some((text, prefixLen))
  {
    var whole := text + "/" + Dec(prefixLen);
    DecHasNo(prefixLen, '/');
    LastIndexAfter(text, '/', Dec(prefixLen));
    assert whole[..|text|] == text && whole[|text| + 1..] == Dec(prefixLen);
    IntReadsDec(prefixLen, false);
  }

  /** A printed LPM key parses back to its value and length exactly if it has no bit outside a nonzero prefix. */
  lemma {:induction false} PrintedLpmParsesBack(ip6: Ipv6, data: ByteString, prefixLen: nat, bitwidth: int)
    requires DecodeInt(data, bitwidth).Ok? && bitwidth != 128 && prefixLen <= bitwidth
    ensures FormatLpm(ip6, data, prefixLen, bitwidth).Ok?
    ensures var r := ParseLpm(ip6, StrV(FormatLpm(ip6, data, prefixLen, bitwidth).value), bitwidth);
      if prefixLen == 0 || BE(data) % Pow2(bitwidth - prefixLen) == 0
      then r.Ok? && BE(r.value.0) == BE(data) && r.value.1 == prefixLen
      else r == Err(EncodingError)
  {
    PrintedValueReadsBack(ip6, data, bitwidth);
    var text := FormatExact(ip6, data, bitwidth).value;
    LpmTextSplits(text, prefixLen);
    PrefixIsAlignment(BE(data), prefixLen, bitwidth);
  }
}
