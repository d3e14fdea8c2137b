/** Integers as big-endian bytes, unsigned and in two's complement. */
module BigEndian {
  import opened Common

  /** `n` in `k` bytes, most significant first. */
  function Unsigned(n: nat, k: nat): (b: Bytes)
    ensures |b| == k
  {
    if k == 0 then [] else Unsigned(n / 256, k - 1) + [(n % 256) as byte]
  }

  function ValueOf(b: Bytes): nat {
    if b == [] then 0 else ValueOf(b[..|b| - 1]) * 256 + b[|b| - 1] as nat
  }

  function Pow256(k: nat): nat {
    if k == 0 then 1 else 256 * Pow256(k - 1)
  }

  lemma {:induction false} UnsignedRoundTrip(n: nat, k: nat)
    requires n < Pow256(k)
    ensures ValueOf(Unsigned(n, k)) == n
    decreases k
  {
    if k > 0 {
      UnsignedRoundTrip(n / 256, k - 1);
      var b := Unsigned(n, k);
      assert b[..k - 1] == Unsigned(n / 256, k - 1);
    }
  }

  lemma {:induction false} EightBytesHoldU64(n: nat)
    requires n <= U64_MAX
    ensures ValueOf(Unsigned(n, 8)) == n
  {
    assert Pow256(4) == 0x1_0000_0000;
    assert Pow256(6) == 0x1_0000_0000_0000;
    assert Pow256(8) == 0x1_0000_0000_0000_0000;
    UnsignedRoundTrip(n, 8);
  }

  lemma {:induction false} Pow256Positive(k: nat)
    ensures Pow256(k) >= 1
  {
    if k > 0 { Pow256Positive(k - 1); }
  }

  /** A leading byte counts once for every power below it. */
  lemma {:induction false} ValueCons(x: byte, b: Bytes)
    ensures ValueOf([x] + b) == x as nat * Pow256(|b|) + ValueOf(b)
    decreases |b|
  {
    var all := [x] + b;
    if b == [] {
      assert all[..0] == [];
    } else {
      var init, last := b[..|b| - 1], b[|b| - 1];
      assert all[..|all| - 1] == [x] + init && all[|all| - 1] == last;
      ValueCons(x, init);
      assert (x as nat * Pow256(|init|) + ValueOf(init)) * 256 ==
        x as nat * (256 * Pow256(|init|)) + ValueOf(init) * 256;
    }
  }

  /** The integer that bytes denote in two's complement. */
  function Signed(b: Bytes): int {
    if b == [] then 0 else if b[0] >= 128 then ValueOf(b) - Pow256(|b|) else ValueOf(b)
  }

  /** Extending by the sign byte does not change the integer. */
  lemma {:induction false} SignExtends(b: Bytes, pad: byte)
    requires b != [] && pad == (if b[0] >= 128 then 255 else 0)
    ensures Signed([pad] + b) == Signed(b)
  {
    ValueCons(pad, b);
    assert |[pad] + b| == |b| + 1;
    assert Pow256(|b| + 1) == 256 * Pow256(|b|);
  }

  function Repeat(x: byte, n: nat): (b: Bytes)
    ensures |b| == n
    ensures forall i :: 0 <= i < n ==> b[i] == x
  {
    if n == 0 then [] else [x] + Repeat(x, n - 1)
  }

  lemma {:induction false} SignExtendsBy(b: Bytes, pad: byte, n: nat)
    requires b != [] && pad == (if b[0] >= 128 then 255 else 0)
    ensures Signed(Repeat(pad, n) + b) == Signed(b)
    decreases n
  {
    if n == 0 {
      assert [] + b == b;
    } else {
      var rest := Repeat(pad, n - 1) + b;
      SignExtendsBy(b, pad, n - 1);
      assert Repeat(pad, n) + b == [pad] + rest;
      SignExtends(rest, pad);
    }
  }

  /** The shortest two's complement form. */
  function ToSigned(n: int): (b: Bytes)
    ensures b != []
    decreases if n < 0 then -n else n
  {
    if -128 <= n < 128 then [(n % 256) as byte] else ToSigned(n / 256) + [(n % 256) as byte]
  }

  lemma {:induction false} SignedSnoc(b: Bytes, x: byte)
    requires b != []
    ensures Signed(b + [x]) == Signed(b) * 256 + x as int
  {
    var all := b + [x];
    assert all[..|all| - 1] == b && all[0] == b[0];
    assert Pow256(|b| + 1) == 256 * Pow256(|b|);
  }

  lemma {:induction false} SignedOne(x: byte)
    ensures Signed([x]) == if x < 128 then x as int else x as int - 256
  {
    var b := [x];
    assert b[..|b| - 1] == [] && b[|b| - 1] == x;
    assert ValueOf([]) == 0 && ValueOf(b) == x as nat;
    assert Pow256(0) == 1 && Pow256(1) == 256 * Pow256(0);
  }

  lemma {:induction false} SignedRoundTrip(n: int)
    ensures Signed(ToSigned(n)) == n && (ToSigned(n)[0] >= 128 <==> n < 0)
    decreases if n < 0 then -n else n
  {
    if -128 <= n < 128 {
      SignedOne((n % 256) as byte);
    } else {
      SignedRoundTrip(n / 256);
      SignedSnoc(ToSigned(n / 256), (n % 256) as byte);
    }
  }

  /** The range of `k` bytes in two's complement. */
  predicate InRange(n: int, k: nat) {
    k > 0 && -128 * Pow256(k - 1) <= n < 128 * Pow256(k - 1)
  }

  /** No fewer bytes would hold the integer. */
  lemma {:induction false} ToSignedIsShortest(n: int, k: nat)
    ensures InRange(n, k) <==> k >= |ToSigned(n)|
    decreases k
  {
    if k == 1 {
      assert Pow256(0) == 1;
    } else if k > 1 {
      ToSignedIsShortest(n / 256, k - 1);
      assert Pow256(k - 1) == 256 * Pow256(k - 2);
      Pow256Positive(k - 2);
      var p := Pow256(k - 2);
      assert n == 256 * (n / 256) + n % 256;
      assert -128 * (256 * p) <= n < 128 * (256 * p) <==> -128 * p <= n / 256 < 128 * p;
      if -128 <= n < 128 { assert |ToSigned(n / 256)| == 1; }
    }
  }
}
