/** The key of the compile cache: length-prefixed frames fed to a hasher. */
module CompileKey {
  import opened Bytes

  /** Everything the key depends on, each part already encoded as bytes. */
  datatype Inputs = Inputs(
    path: ByteString, source: ByteString, preprocessed: ByteString,
    arch: ByteString, version: ByteString, args: ByteString)

  const BAR: ByteString := [124]
  const COLON: ByteString := [58]

  function Frame(tag: string, value: ByteString): ByteString
    requires IsAscii(tag)
  {
    BAR + Ascii(tag) + COLON + Ascii(Dec(|value|)) + COLON + value + BAR
  }

  function CacheInput(i: Inputs): ByteString {
    Frame("source_path", i.path) + Frame("source", i.source) + Frame("preprocessed", i.preprocessed)
  }

  /** The byte string that is hashed. */
  function KeyBytes(i: Inputs): ByteString {
    CacheInput(i) + Frame("arch", i.arch) + Frame("version", i.version) + Frame("extra_args", i.args)
  }

  class Hasher {
    var data: ByteString

    constructor ()
      ensures data == []
    {
      data := [];
    }

    method Update(more: ByteString)
      modifies this
      ensures data == old(data) + more
    {
      data := data + more;
    }
  }

  /** `_compute_hash`, for any digest function. */
  method ComputeHash<Key>(digest: ByteString -> Key, source: ByteString, arch: ByteString, version: ByteString,
                          args: ByteString)
    returns (key: Key)
    ensures forall i: Inputs ::
      source == CacheInput(i) && arch == i.arch && version == i.version && args == i.args ==> key == digest(KeyBytes(i))
  {
    var hasher := new Hasher();
    hasher.Update(source);
    hasher.Update(Frame("arch", arch));
    hasher.Update(Frame("version", version));
    hasher.Update(Frame("extra_args", args));
    assert hasher.data == source + Frame("arch", arch) + Frame("version", version) + Frame("extra_args", args);
    key := digest(hasher.data);
  }

  /** A frame with a known label can be read back off the front of any byte string. */
  lemma {:induction false} FrameReadsBack(tag: string, v: ByteString, rest: ByteString, v': ByteString,
                                          rest': ByteString)
    requires IsAscii(tag)
    requires Frame(tag, v) + rest == Frame(tag, v') + rest'
    ensures v == v' && rest == rest'
  {
    var head := BAR + Ascii(tag) + COLON;
    var n, n' := Ascii(Dec(|v|)), Ascii(Dec(|v'|));
    var tail, tail' := v + (BAR + rest), v' + (BAR + rest');
    NoColon(Dec(|v|));
    NoColon(Dec(|v'|));
    assert Frame(tag, v) + rest == head + (n + COLON + tail);
    assert Frame(tag, v') + rest' == head + (n' + COLON + tail');
    SamePrefix(head, n + COLON + tail, n' + COLON + tail');
    DigitsEndAtColon(n, tail, n', tail');
    AsciiInjective(Dec(|v|), Dec(|v'|));
    DecInjective(|v|, |v'|);
    SameLengthParts(v, BAR + rest, v', BAR + rest');
    SamePrefix(BAR, rest, rest');
  }

  lemma {:induction false} SamePrefix(head: ByteString, a: ByteString, b: ByteString)
    requires head + a == head + b
    ensures a == b
  {
    assert a == (head + a)[|head|..];
    assert b == (head + b)[|head|..];
  }

  lemma {:induction false} SameLengthParts(a: ByteString, x: ByteString, b: ByteString, y: ByteString)
    requires |a| == |b|
    requires a + x == b + y
    ensures a == b && x == y
  {
    assert a == (a + x)[..|a|] && b == (b + y)[..|b|];
    assert x == (a + x)[|a|..] && y == (b + y)[|b|..];
  }

  /** Two strings of digits followed by a colon agree up to the colon. */
  lemma {:induction false} DigitsEndAtColon(a: ByteString, x: ByteString, b: ByteString, y: ByteString)
    requires 58 !in a && 58 !in b
    requires a + COLON + x == b + COLON + y
    ensures a == b && x == y
  {
    var s := a + COLON + x;
    assert s[|a|] == 58 && s[|b|] == 58;
    assert forall k | 0 <= k < |a| :: s[k] == a[k] != 58;
    assert forall k | 0 <= k < |b| :: s[k] == b[k] != 58;
    assert a == s[..|a|] && b == s[..|b|];
    assert x == s[|a| + 1..] && y == s[|b| + 1..];
  }

  lemma {:induction false} AsciiInjective(s: string, t: string)
    requires IsAscii(s) && IsAscii(t) && Ascii(s) == Ascii(t)
    ensures s == t
  {
    forall i | 0 <= i < |s|
      ensures s[i] == t[i]
    {
      assert Ascii(s)[i] == Ascii(t)[i];
    }
  }

  lemma {:induction false} NoColon(s: string)
    requires AllDigits(s)
    ensures IsAscii(s) && 58 !in Ascii(s)
  {
    assert forall i | 0 <= i < |s| :: IsDigit(s[i]);
  }

  /** Frames one after the other, as the inputs of a hasher. */
  function Frames(tags: seq<string>, values: seq<ByteString>): ByteString
    requires |tags| == |values| && forall i | 0 <= i < |tags| :: IsAscii(tags[i])
  {
    if |tags| == 0 then [] else Frame(tags[0], values[0]) + Frames(tags[1..], values[1..])
  }

  lemma {:induction false} FramesReadBack(tags: seq<string>, values: seq<ByteString>, values': seq<ByteString>)
    requires |tags| == |values| == |values'| && forall i | 0 <= i < |tags| :: IsAscii(tags[i])
    requires Frames(tags, values) == Frames(tags, values')
    ensures values == values'
  {
    if |tags| > 0 {
      FrameReadsBack(tags[0], values[0], Frames(tags[1..], values[1..]), values'[0], Frames(tags[1..], values'[1..]));
      FramesReadBack(tags[1..], values[1..], values'[1..]);
      assert values == [values[0]] + values[1..] && values' == [values'[0]] + values'[1..];
    }
  }

  const TAGS := ["source_path", "source", "preprocessed", "arch", "version", "extra_args"]

  function Parts(i: Inputs): seq<ByteString> {
    [i.path, i.source, i.preprocessed, i.arch, i.version, i.args]
  }

  /** Concatenation of six parts, built from the right, equals the same built from the left. */
  lemma {:induction false} Associates(a: ByteString, b: ByteString, c: ByteString, d: ByteString, e: ByteString,
                                      f: ByteString, rest: seq<ByteString>)
    requires |rest| == 7 && rest[6] == [] && rest[5] == f + rest[6] && rest[4] == e + rest[5]
    requires rest[3] == d + rest[4] && rest[2] == c + rest[3] && rest[1] == b + rest[2] && rest[0] == a + rest[1]
    ensures rest[0] == a + b + c + d + e + f
  {
    assert rest[5] == f;
    assert a + b + c + d + e + f == a + b + c + d + rest[4];
    assert a + b + c + d + rest[4] == a + b + c + rest[3];
    assert a + b + c + rest[3] == a + b + rest[2];
    assert a + b + rest[2] == a + rest[1];
  }

  lemma {:induction false} FramesFrom(tags: seq<string>, values: seq<ByteString>, k: nat)
    requires |tags| == |values| && k < |tags| && forall i | 0 <= i < |tags| :: IsAscii(tags[i])
    ensures Frames(tags[k..], values[k..]) == Frame(tags[k], values[k]) + Frames(tags[k + 1..], values[k + 1..])
  {
    assert tags[k..][1..] == tags[k + 1..] && values[k..][1..] == values[k + 1..];
  }

  lemma {:induction false} SixFrames(tags: seq<string>, values: seq<ByteString>)
    requires |tags| == |values| == 6 && forall i | 0 <= i < 6 :: IsAscii(tags[i])
    ensures Frames(tags, values) ==
      Frame(tags[0], values[0]) + Frame(tags[1], values[1]) + Frame(tags[2], values[2]) +
      Frame(tags[3], values[3]) + Frame(tags[4], values[4]) + Frame(tags[5], values[5])
  {
    assert tags[0..] == tags && values[0..] == values;
    var rest := seq(7, k requires 0 <= k < 7 => Frames(tags[k..], values[k..]));
    forall k | 0 <= k < 6
      ensures rest[k] == Frame(tags[k], values[k]) + rest[k + 1]
    {
      FramesFrom(tags, values, k);
    }
    Associates(Frame(tags[0], values[0]), Frame(tags[1], values[1]), Frame(tags[2], values[2]),
               Frame(tags[3], values[3]), Frame(tags[4], values[4]), Frame(tags[5], values[5]), rest);
  }

  lemma {:induction false} TagsAreAscii()
    ensures forall k | 0 <= k < 6 :: IsAscii(TAGS[k])
  {
    assert IsAscii(TAGS[0]) && IsAscii(TAGS[1]) && IsAscii(TAGS[2]);
    assert IsAscii(TAGS[3]) && IsAscii(TAGS[4]) && IsAscii(TAGS[5]);
  }

  lemma {:induction false} KeyIsFrames(i: Inputs)
    ensures forall k | 0 <= k < 6 :: IsAscii(TAGS[k])
    ensures KeyBytes(i) == Frames(TAGS, Parts(i))
  {
    TagsAreAscii();
    SixFrames(TAGS, Parts(i));
  }

  /** The hashed bytes determine every part, whatever bytes the parts contain. */
  lemma {:induction false} KeyDeterminesInputs(i: Inputs, j: Inputs)
    requires KeyBytes(i) == KeyBytes(j)
    ensures i == j
  {
    KeyIsFrames(i);
    KeyIsFrames(j);
    FramesReadBack(TAGS, Parts(i), Parts(j));
    assert forall k | 0 <= k < 6 :: Parts(i)[k] == Parts(j)[k];
    assert Parts(i)[0] == i.path && Parts(j)[0] == j.path;
  }
}
