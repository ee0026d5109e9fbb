/** Byte strings as big-endian numbers, and their canonical form (section 8.4 of the P4Runtime specification). */
module BigEndian {
  import opened Bits
  import opened Bytes

  function BE(data: ByteString): nat {
    if |data| == 0 then 0 else 256 * BE(data[..|data| - 1]) + data[|data| - 1]
  }

  lemma {:induction false} Pow2Byte(n: nat)
    ensures Pow2(8 * (n + 1)) == 256 * Pow2(8 * n)
  {
    assert Pow2(8) == 256 by {
      assert Pow2(4) == 16;
    }
    Pow2Adds(8, 8 * n);
  }

  lemma {:induction false} BEBound(data: ByteString)
    ensures BE(data) < Pow2(8 * |data|)
  {
    if |data| > 0 {
      BEBound(data[..|data| - 1]);
      Pow2Byte(|data| - 1);
    }
  }

  /** `int.to_bytes` with n bytes. */
  function ToBytes(v: nat, n: nat): (r: ByteString)
    requires v < Pow2(8 * n)
    ensures |r| == n && BE(r) == v
  {
    if n == 0 then [] else
      Pow2Byte(n - 1);
      ToBytes(v / 256, n - 1) + [v % 256]
  }

  /** A byte string is determined by its length and its value. */
  lemma {:induction false} SameValueSameBytes(a: ByteString, b: ByteString)
    requires |a| == |b| && BE(a) == BE(b)
    ensures a == b
  {
    if |a| > 0 {
      var n := |a| - 1;
      SameValueSameBytes(a[..n], b[..n]);
      assert a == a[..n] + [a[n]] && b == b[..n] + [b[n]];
    }
  }

  /** A leading byte weighs 256 to the number of bytes after it. */
  lemma {:induction false} LeadingByte(x: Byte, data: ByteString)
    ensures BE([x] + data) == x * Pow2(8 * |data|) + BE(data)
  {
    var all := [x] + data;
    if |data| == 0 {
      assert all[..|all| - 1] == [];
    } else {
      var n := |data| - 1;
      assert all[..|all| - 1] == [x] + data[..n];
      LeadingByte(x, data[..n]);
      Pow2Byte(n);
      assert 256 * (x * Pow2(8 * n)) == x * (256 * Pow2(8 * n));
    }
  }

  function Zeros(n: nat): ByteString {
    seq(n, _ => 0)
  }

  lemma {:induction false} PaddingKeepsValue(n: nat, data: ByteString)
    ensures BE(Zeros(n) + data) == BE(data)
  {
    if n == 0 {
      assert Zeros(0) + data == data;
    } else {
      assert Zeros(n) + data == [0] + (Zeros(n - 1) + data);
      LeadingByte(0, Zeros(n - 1) + data);
      PaddingKeepsValue(n - 1, data);
    }
  }

  function Strip(data: ByteString): (r: ByteString)
    ensures |r| <= |data| && (|r| > 0 ==> r[0] != 0)
  {
    if |data| > 0 && data[0] == 0 then Strip(data[1..]) else data
  }

  function Canonicalize(data: ByteString): (r: ByteString)
    ensures 0 < |r| <= if |data| == 0 then 1 else |data|
    ensures |r| > 1 ==> r[0] != 0
  {
    var s := Strip(data);
    if s == [] then [0] else s
  }

  lemma {:induction false} StripKeepsValue(data: ByteString)
    ensures BE(Strip(data)) == BE(data)
  {
    if |data| > 0 && data[0] == 0 {
      assert data == [0] + data[1..];
      LeadingByte(0, data[1..]);
      StripKeepsValue(data[1..]);
    }
  }

  lemma {:induction false} CanonicalKeepsValue(data: ByteString)
    ensures BE(Canonicalize(data)) == BE(data)
  {
    StripKeepsValue(data);
    assert BE([0]) == 0 by {
      assert [0 as Byte][..0] == [];
    }
  }

  lemma {:induction false} LeadingByteBound(a: ByteString)
    requires |a| > 0 && a[0] != 0
    ensures BE(a) >= Pow2(8 * (|a| - 1))
  {
    var rest := a[1..];
    assert a == [a[0]] + rest;
    LeadingByte(a[0], rest);
    WeighsAtLeast(a[0], Pow2(8 * |rest|), BE(rest));
  }

  lemma {:induction false} WeighsAtLeast(x: nat, p: nat, r: nat)
    requires x > 0
    ensures x * p + r >= p
  {
    AtLeast(p, x);
  }

  /** A byte string without leading zero byte is no longer than any other of the same value. */
  lemma {:induction false} NoLeadingZeroIsShort(a: ByteString, b: ByteString)
    requires |a| > 0 ==> a[0] != 0
    requires BE(a) == BE(b)
    ensures |a| <= |b|
  {
    if |a| > 0 {
      LeadingByteBound(a);
      BEBound(b);
      Pow2Orders(8 * (|a| - 1), 8 * |b|);
    }
  }

  lemma {:induction false} CanonicalIsShortest(a: ByteString, b: ByteString)
    requires BE(a) == BE(b) && |b| > 0
    ensures |Canonicalize(a)| <= |b|
  {
    StripKeepsValue(a);
    NoLeadingZeroIsShort(Strip(a), b);
  }

  /** Canonical forms are equal exactly when values are. */
  lemma {:induction false} CanonicalEqualIffSameValue(a: ByteString, b: ByteString)
    ensures Canonicalize(a) == Canonicalize(b) <==> BE(a) == BE(b)
  {
    CanonicalKeepsValue(a);
    CanonicalKeepsValue(b);
    if BE(a) == BE(b) {
      StripKeepsValue(a);
      StripKeepsValue(b);
      NoLeadingZeroIsShort(Strip(a), Strip(b));
      NoLeadingZeroIsShort(Strip(b), Strip(a));
      SameValueSameBytes(Strip(a), Strip(b));
    }
  }
}
