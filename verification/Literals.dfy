/** The textual literals that fields accept: integers, dotted quads and MAC addresses (ASCII text). */
module Literals {
  import opened Wrappers
  import opened Bytes

  /******* Integers: Python's `int(text, base)` for base 10 and 0 *******/

  predicate IsSpace(c: char) {
    c == ' ' || 9 <= c as int <= 13
  }

  function Trim(s: string): string {
    if |s| > 0 && IsSpace(s[0]) then Trim(s[1..])
    else if |s| > 0 && IsSpace(s[|s| - 1]) then Trim(s[..|s| - 1])
    else s
  }

  function CharDigit(c: char): Option<nat> {
    if '0' <= c <= '9' then Some((c - '0') as nat)
    else if 'a' <= c <= 'z' then Some(10 + (c - 'a') as nat)
    else if 'A' <= c <= 'Z' then Some(10 + (c - 'A') as nat)
    else None
  }

  predicate IsBaseDigit(base: nat, c: char) {
    CharDigit(c).Some? && CharDigit(c).value < base
  }

  /** One or more digits, with single underscores allowed between them. */
  function Digits(base: nat, s: string): Option<nat>
    decreases |s|
  {
    if |s| == 0 || !IsBaseDigit(base, s[|s| - 1]) then None
    else
      var d := CharDigit(s[|s| - 1]).value;
      if |s| == 1 then Some(d)
      else
        var rest := if s[|s| - 2] == '_' then s[..|s| - 2] else s[..|s| - 1];
        var high := Digits(base, rest);
        if high.None? then None else Some(base * high.value + d)
  }

  /** The base that a prefix asks for, if there is one. */
  function PrefixBase(s: string): Option<nat> {
    if |s| < 2 || s[0] != '0' then None
    else if s[1] == 'x' || s[1] == 'X' then Some(16)
    else if s[1] == 'o' || s[1] == 'O' then Some(8)
    else if s[1] == 'b' || s[1] == 'B' then Some(2)
    else None
  }

  /** An unsigned literal; without a base of its own it is decimal, and then only zero may start with 0. */
  function Unsigned(s: string, anyBase: bool): Option<nat> {
    if !anyBase then Digits(10, s)
    else if PrefixBase(s).Some? then
      Digits(PrefixBase(s).value, if |s| > 2 && s[2] == '_' then s[3..] else s[2..])
    else
      var v := Digits(10, s);
      if |s| > 0 && s[0] == '0' && v != Some(0) then None else v
  }

  /** `int(text, 0)` if anyBase, else `int(text)`. */
  function IntLiteral(text: string, anyBase: bool): Option<int> {
    var s := Trim(text);
    if |s| > 0 && (s[0] == '+' || s[0] == '-') then
      var v := Unsigned(s[1..], anyBase);
      if v.None? then None else if s[0] == '-' then Some(-(v.value as int)) else Some(v.value)
    else
      var v := Unsigned(s, anyBase);
      if v.None? then None else Some(v.value)
  }

  lemma {:induction false} DigitsReadDec(n: nat)
    ensures Digits(10, Dec(n)) == Some(n)
  {
    if n >= 10 {
      var s := Dec(n);
      assert s[..|s| - 1] == Dec(n / 10);
      assert IsDigit(s[|s| - 2]);
      DigitsReadDec(n / 10);
    }
  }

  /** The decimal numeral of a number reads back, in base 10 and with the base left open. */
  lemma {:induction false} IntReadsDec(n: nat, anyBase: bool)
    ensures IntLiteral(Dec(n), anyBase) == Some(n)
  {
    var s := Dec(n);
    DigitsReadDec(n);
    assert IsDigit(s[0]) && IsDigit(s[|s| - 1]);
    assert |s| > 1 ==> IsDigit(s[1]);
    assert n == 0 ==> s == "0";
  }

  /** How an integer prints. */
  function DecInt(i: int): string {
    if i < 0 then "-" + Dec(-i) else Dec(i)
  }

  /******* Splitting *******/

  function Count(s: string, c: char): nat {
    if |s| == 0 then 0 else Count(s[..|s| - 1], c) + if s[|s| - 1] == c then 1 else 0
  }

  lemma {:induction false} CountAdds(a: string, b: string, c: char)
    ensures Count(a + b, c) == Count(a, c) + Count(b, c)
  {
    if |b| == 0 {
      assert a + b == a;
    } else {
      assert (a + b)[..|a + b| - 1] == a + b[..|b| - 1];
      CountAdds(a, b[..|b| - 1], c);
    }
  }

  lemma {:induction false} CountNone(s: string, c: char)
    ensures Count(s, c) == 0 <==> c !in s
  {
    if |s| > 0 {
      CountNone(s[..|s| - 1], c);
      assert s == s[..|s| - 1] + [s[|s| - 1]];
    }
  }

  function Split(s: string, sep: char): (parts: seq<string>)
    ensures |parts| > 0
  {
    if |s| == 0 then [""]
    else if s[0] == sep then [""] + Split(s[1..], sep)
    else
      var parts := Split(s[1..], sep);
      [[s[0]] + parts[0]] + parts[1..]
  }

  lemma {:induction false} SplitHead(a: string, sep: char, rest: string)
    requires sep !in a
    ensures Split(a + [sep] + rest, sep) == [a] + Split(rest, sep)
  {
    var s := a + [sep] + rest;
    if |a| == 0 {
      assert s[1..] == rest;
    } else {
      assert s[1..] == a[1..] + [sep] + rest;
      SplitHead(a[1..], sep, rest);
      assert a == [a[0]] + a[1..];
    }
  }

  lemma {:induction false} SplitLast(a: string, sep: char)
    requires sep !in a
    ensures Split(a, sep) == [a]
  {
    if |a| > 0 {
      SplitLast(a[1..], sep);
      assert a == [a[0]] + a[1..];
    }
  }

  function Join(parts: seq<string>, sep: char): string
    requires |parts| > 0
  {
    if |parts| == 1 then parts[0] else parts[0] + [sep] + Join(parts[1..], sep)
  }

  /** Splitting undoes joining of parts that do not contain the separator. */
  lemma {:induction false} SplitUndoesJoin(parts: seq<string>, sep: char)
    requires |parts| > 0 && forall p <- parts :: sep !in p
    ensures Split(Join(parts, sep), sep) == parts
  {
    if |parts| == 1 {
      SplitLast(parts[0], sep);
    } else {
      SplitHead(parts[0], sep, Join(parts[1..], sep));
      SplitUndoesJoin(parts[1..], sep);
      assert parts == [parts[0]] + parts[1..];
    }
  }

  lemma {:induction false} JoinCounts(parts: seq<string>, sep: char, c: char)
    requires |parts| > 0 && forall p <- parts :: c !in p
    ensures Count(Join(parts, sep), c) == if c == sep then |parts| - 1 else 0
  {
    CountNone(parts[0], c);
    if |parts| > 1 {
      JoinCounts(parts[1..], sep, c);
      CountAdds(parts[0], [sep], c);
      CountAdds(parts[0] + [sep], Join(parts[1..], sep), c);
    }
  }

  /** Where the last occurrence of c starts, as `rsplit` finds it. */
  function LastIndex(s: string, c: char): (i: nat)
    requires c in s
    ensures i < |s| && s[i] == c && c !in s[i + 1..]
  {
    if s[|s| - 1] == c then |s| - 1 else
      assert s == s[..|s| - 1] + [s[|s| - 1]];
      var i := LastIndex(s[..|s| - 1], c);
      assert s[i + 1..] == s[..|s| - 1][i + 1..] + [s[|s| - 1]];
      i
  }

  lemma {:induction false} LastIndexAfter(a: string, c: char, b: string)
    requires c !in b
    ensures c in a + [c] + b && LastIndex(a + [c] + b, c) == |a|
  {
    var s := a + [c] + b;
    assert s[|a|] == c;
    if |b| > 0 {
      var n := |b| - 1;
      assert s[..|s| - 1] == a + [c] + b[..n];
      assert s[|s| - 1] == b[n];
      LastIndexAfter(a, c, b[..n]);
    }
  }

  /******* IPv4 *******/

  /** A decimal octet: one to three digits, no leading zero, at most 255. */
  function Octet(s: string): Option<Byte> {
    if 1 <= |s| <= 3 && AllDigits(s) && !(|s| > 1 && s[0] == '0') && DecValue(s) < 256 then Some(DecValue(s)) else None
  }

  function ParseQuad(s: string): Option<ByteString> {
    var parts := Split(s, '.');
    if |parts| != 4 then None
    else
      var a, b, c, d := Octet(parts[0]), Octet(parts[1]), Octet(parts[2]), Octet(parts[3]);
      if a.None? || b.None? || c.None? || d.None? then None else Some([a.value, b.value, c.value, d.value])
  }

  function Octets(data: ByteString): seq<string> {
    seq(|data|, i requires 0 <= i < |data| => Dec(data[i]))
  }

  function PrintQuad(data: ByteString): string
    requires |data| == 4
  {
    Join(Octets(data), '.')
  }

  lemma {:induction false} OctetReadsDec(b: Byte)
    ensures Octet(Dec(b)) == Some(b)
  {
    DecRoundTrip(b);
    assert b < 10 ==> |Dec(b)| == 1;
    assert 10 <= b < 100 ==> |Dec(b)| == |Dec(b / 10)| + 1 == 2;
    assert b >= 100 ==> |Dec(b)| == |Dec(b / 10)| + 1 == |Dec(b / 10 / 10)| + 2 == 3;
  }

  lemma {:induction false} OctetsHaveNo(data: ByteString, c: char)
    requires !IsDigit(c)
    ensures forall p <- Octets(data) :: c !in p
  {
    forall i | 0 <= i < |data|
      ensures c !in Octets(data)[i]
    {
      DecHasNo(data[i], c);
    }
  }

  lemma {:induction false} DecHasNo(n: nat, c: char)
    requires !IsDigit(c)
    ensures c !in Dec(n)
  {
    assert forall i | 0 <= i < |Dec(n)| :: IsDigit(Dec(n)[i]);
  }

  /** Dotted quads read back. */
  lemma {:induction false} QuadReadsBack(data: ByteString)
    requires |data| == 4
    ensures ParseQuad(PrintQuad(data)) == Some(data)
  {
    OctetsHaveNo(data, '.');
    SplitUndoesJoin(Octets(data), '.');
    forall i | 0 <= i < 4
      ensures Octet(Octets(data)[i]) == Some(data[i])
    {
      OctetReadsDec(data[i]);
    }
    assert Octet(Octets(data)[0]).Some? && Octet(Octets(data)[1]).Some?;
    assert Octet(Octets(data)[2]).Some? && Octet(Octets(data)[3]).Some?;
    assert data == [data[0], data[1], data[2], data[3]];
  }

  lemma {:induction false} QuadCounts(data: ByteString, c: char)
    requires |data| == 4 && !IsDigit(c)
    ensures Count(PrintQuad(data), c) == if c == '.' then 3 else 0
  {
    OctetsHaveNo(data, c);
    JoinCounts(Octets(data), '.', c);
  }

  /******* MAC addresses *******/

  predicate IsHex(c: char) {
    IsBaseDigit(16, c)
  }

  /** The pattern for MAC addresses; its end anchor also matches before a final newline. */
  predicate MacShape(s: string) {
    && (|s| == 17 || (|s| == 18 && s[17] == '\n'))
    && forall i | 0 <= i < 17 :: if i % 3 == 2 then s[i] == ':' else IsHex(s[i])
  }

  function ParseMac(s: string): (r: ByteString)
    requires MacShape(s)
    ensures |r| == 6
  {
    seq(6, k requires 0 <= k < 6 => HexPair(s[3 * k], s[3 * k + 1]))
  }

  function HexPair(hi: char, lo: char): Byte
    requires IsHex(hi) && IsHex(lo)
  {
    16 * CharDigit(hi).value + CharDigit(lo).value
  }

  function HexDigit(d: nat): char
    requires d < 16
  {
    if d < 10 then '0' + d as char else 'a' + (d - 10) as char
  }

  function PrintMac(data: ByteString): (s: string)
    requires |data| == 6
    ensures |s| == 17
  {
    seq(17, i requires 0 <= i < 17 =>
      if i % 3 == 2 then ':' else if i % 3 == 0 then HexDigit(data[i / 3] / 16) else HexDigit(data[i / 3] % 16))
  }

  /** MAC addresses read back. */
  lemma {:induction false} MacReadsBack(data: ByteString)
    requires |data| == 6
    ensures MacShape(PrintMac(data)) && ParseMac(PrintMac(data)) == data
  {
    var s := PrintMac(data);
    forall k | 0 <= k < 6
      ensures s[3 * k] == HexDigit(data[k] / 16) && s[3 * k + 1] == HexDigit(data[k] % 16)
      ensures IsHex(s[3 * k]) && IsHex(s[3 * k + 1]) && HexPair(s[3 * k], s[3 * k + 1]) == data[k]
    {
      HexDigitReads(data[k] / 16);
      HexDigitReads(data[k] % 16);
    }
    forall i | 0 <= i < 17
      ensures if i % 3 == 2 then s[i] == ':' else IsHex(s[i])
    {
      var k := i / 3;
      assert i == 3 * k || i == 3 * k + 1 || i == 3 * k + 2;
    }
  }

  lemma {:induction false} HexDigitReads(d: nat)
    requires d < 16
    ensures IsHex(HexDigit(d)) && CharDigit(HexDigit(d)).value == d
  {
  }

  lemma {:induction false} MacColons(s: string, k: nat)
    requires MacShape(s) && k <= 17
    ensures Count(s[..k], ':') == k / 3
  {
    if k > 0 {
      MacColons(s, k - 1);
      assert s[..k][..k - 1] == s[..k - 1];
    }
  }

  lemma {:induction false} MacCounts(s: string)
    requires MacShape(s)
    ensures Count(s, ':') == 5 && Count(s, '.') == 0
  {
    MacColons(s, 17);
    assert |s| == 17 ==> s[..17] == s;
    assert |s| == 18 ==> s[..|s| - 1] == s[..17];
    CountNone(s, '.');
  }
}
