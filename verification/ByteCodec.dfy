/** Big- and little-endian byte strings, and the big-integer conversions of crates/number/src/conversions.rs. */
module ByteCodec {
  import opened Prelude
  import opened Uint256

  type Byte = n: nat | n < 256

  type Bytes = seq<Byte>

  /** `H256`, `[u8; 32]` and the 32-byte slots of an ABI encoding. */
  type Word = b: Bytes | |b| == 32 witness Zeros(32)

  /** `H160`. */
  type Address = b: Bytes | |b| == 20 witness Zeros(20)

  type U32 = n: nat | n < 0x1_0000_0000

  function Zeros(n: nat): (r: Bytes)
    ensures |r| == n && forall i :: 0 <= i < n ==> r[i] == 0
  {
    seq(n, i => 0)
  }

  /** The last `n` bytes of `v`, most significant first. */
  function ToBigEndian(v: nat, n: nat): (r: Bytes)
    ensures |r| == n
  {
    if n == 0 then [] else ToBigEndian(v / 256, n - 1) + [v % 256]
  }

  function FromBigEndian(b: Bytes): nat {
    if b == [] then 0 else 256 * FromBigEndian(b[..|b| - 1]) + b[|b| - 1]
  }

  function FromLittleEndian(b: Bytes): nat {
    if b == [] then 0 else b[0] + 256 * FromLittleEndian(b[1..])
  }

  lemma {:induction false} DecodeEncode(v: nat, n: nat)
    requires v < Pow256(n)
    ensures FromBigEndian(ToBigEndian(v, n)) == v
  {
    if n == 0 {
    } else {
      var head := ToBigEndian(v / 256, n - 1);
      DecodeEncode(v / 256, n - 1);
      assert (head + [v % 256])[..n - 1] == head;
    }
  }

  lemma {:induction false} EncodeDecode(b: Bytes)
    ensures FromBigEndian(b) < Pow256(|b|) && ToBigEndian(FromBigEndian(b), |b|) == b
  {
    if b == [] {
    } else {
      var n := |b| - 1;
      EncodeDecode(b[..n]);
      DivMod(FromBigEndian(b[..n]), b[n]);
      assert b == b[..n] + [b[n]];
    }
  }

  lemma DivMod(q: nat, r: nat)
    requires r < 256
    ensures (256 * q + r) / 256 == q && (256 * q + r) % 256 == r
  {
  }

  lemma EncodingInjective(v: nat, w: nat, n: nat)
    requires v < Pow256(n) && w < Pow256(n)
    ensures ToBigEndian(v, n) == ToBigEndian(w, n) <==> v == w
  {
    DecodeEncode(v, n);
    DecodeEncode(w, n);
  }

  lemma {:induction false} ZeroBytes(n: nat)
    ensures ToBigEndian(0, n) == Zeros(n)
  {
    if n == 0 {
    } else {
      ZeroBytes(n - 1);
      assert Zeros(n) == Zeros(n - 1) + [0];
    }
  }

  /** Extending an integer to more bytes puts zeros in front of it. */
  lemma {:induction false} LeftPadded(v: nat, pad: nat, n: nat)
    requires v < Pow256(n)
    ensures ToBigEndian(v, pad + n) == Zeros(pad) + ToBigEndian(v, n)
  {
    if n == 0 {
      ZeroBytes(pad);
    } else {
      LeftPadded(v / 256, pad, n - 1);
      assert pad + n - 1 == pad + (n - 1);
      assert Zeros(pad) + (ToBigEndian(v / 256, n - 1) + [v % 256]) == (Zeros(pad) + ToBigEndian(v / 256, n - 1)) + [v % 256];
    }
  }

  lemma {:induction false} PowSum(m: nat, n: nat)
    ensures Pow256(m + n) == Pow256(m) * Pow256(n)
  {
    if m == 0 {
    } else {
      PowSum(m - 1, n);
      assert m - 1 + n == m + n - 1;
      Associate(256, Pow256(m - 1), Pow256(n));
    }
  }

  lemma Associate(a: nat, b: nat, c: nat)
    ensures a * (b * c) == (a * b) * c
  {
  }

  lemma PowBounds()
    ensures Pow256(4) == 0x1_0000_0000 <= Pow256(32) == U256_MAX + 1
  {
    assert |U256_BYTES| == 32;
    PowSum(28, 4);
  }

  // ---- Big integers ---------------------------------------------------------------------------

  /** The bytes of a big integer without leading zeros; a single zero byte for 0. */
  function MinimalBytes(v: nat): (r: Bytes)
    ensures r != []
  {
    if v < 256 then [v] else MinimalBytes(v / 256) + [v % 256]
  }

  function BigUintToU256(v: nat): Option<nat> {
    var bytes := MinimalBytes(v);
    if |bytes| <= 32 then Some(FromBigEndian(bytes)) else None
  }

  function U256ToBigUint(v: U256): nat {
    FromBigEndian(ToBigEndian(v, 32))
  }

  lemma {:induction false} MinimalBytesValue(v: nat)
    ensures FromBigEndian(MinimalBytes(v)) == v
  {
    if v < 256 {
      assert [v][..0] == [];
      assert FromBigEndian([v][..0]) == 0;
    } else {
      var head := MinimalBytes(v / 256);
      MinimalBytesValue(v / 256);
      assert (head + [v % 256])[..|head|] == head;
    }
  }

  lemma {:induction false} MinimalBytesLength(v: nat, n: nat)
    requires n > 0
    ensures |MinimalBytes(v)| <= n <==> v < Pow256(n)
    decreases n
  {
    assert Pow256(1) == 256;
    if n == 1 {
    } else if v < 256 {
      Pow256AtLeast(n);
    } else {
      MinimalBytesLength(v / 256, n - 1);
    }
  }

  lemma {:induction false} Pow256AtLeast(n: nat)
    requires n > 0
    ensures Pow256(n) >= 256
  {
    if n > 1 { Pow256AtLeast(n - 1); } else { assert Pow256(0) == 1; }
  }

  /** The conversion succeeds on exactly the 256-bit values, and keeps them. */
  lemma BigUintToU256Exact(v: nat)
    ensures BigUintToU256(v) == if v <= U256_MAX then Some(v) else None
  {
    MinimalBytesValue(v);
    MinimalBytesLength(v, 32);
    PowBounds();
  }

  lemma U256RoundTrip(v: U256)
    ensures U256ToBigUint(v) == v && BigUintToU256(U256ToBigUint(v)) == Some(v)
  {
    PowBounds();
    DecodeEncode(v, 32);
    BigUintToU256Exact(v);
  }
}
