/** Fixed-width big-endian byte order and two's complement, the integer
    layout of every scalar on the wire (`to_be_bytes` / `from_be_bytes`). */
module BigEndian {
  import opened Types

  function Pow256(n: nat): (r: nat)
    ensures r > 0
  {
    if n == 0 then 1 else 256 * Pow256(n - 1)
  }

  lemma Pow256Values()
    ensures Pow256(1) == 0x100 && Pow256(2) == 0x1_0000
    ensures Pow256(4) == 0x1_0000_0000 && Pow256(8) == 0x1_0000_0000_0000_0000
  {
  }

  /** The low `n` bytes of `u`, most significant first. */
  function ToBE(u: nat, n: nat): (r: seq<byte>)
    ensures |r| == n
  {
    if n == 0 then [] else ToBE(u / 256, n - 1) + [u % 256]
  }

  /** The unsigned value of a big-endian byte string. */
  function FromBE(s: seq<byte>): nat
  {
    if s == [] then 0 else FromBE(s[..|s| - 1]) * 256 + s[|s| - 1]
  }

  lemma {:induction false} FromBEBound(s: seq<byte>)
    ensures FromBE(s) < Pow256(|s|)
  {
    if s != [] {
      FromBEBound(s[..|s| - 1]);
    }
  }

  /** Reading back `n` big-endian bytes gives the value, when it fits. */
  lemma {:induction false} FromToBE(u: nat, n: nat)
    requires u < Pow256(n)
    ensures FromBE(ToBE(u, n)) == u
  {
    if n > 0 {
      FromToBE(u / 256, n - 1);
      assert ToBE(u, n)[..n - 1] == ToBE(u / 256, n - 1);
    }
  }

  /** Re-encoding a big-endian byte string gives the same bytes. */
  lemma {:induction false} ToFromBE(s: seq<byte>)
    ensures ToBE(FromBE(s), |s|) == s
  {
    if s != [] {
      var init := s[..|s| - 1];
      ToFromBE(init);
      assert (FromBE(init) * 256 + s[|s| - 1]) / 256 == FromBE(init);
      assert s == init + [s[|s| - 1]];
    }
  }

  lemma EvenPow256(n: nat)
    requires n > 0
    ensures Pow256(n) == 2 * (Pow256(n) / 2)
  {
  }

  /** `x` is representable in `n` bytes of two's complement. */
  predicate InRange(x: int, n: nat) {
    -(Pow256(n) / 2) as int <= x < Pow256(n) / 2
  }

  /** The `n`-byte two's complement bit pattern of a representable `x`. */
  function Wrap(x: int, n: nat): (u: nat)
    requires InRange(x, n)
    ensures u < Pow256(n)
  {
    if x < 0 then x + Pow256(n) else x
  }

  /** The signed value of an `n`-byte bit pattern (an `as iN` cast). */
  function Signed(u: nat, n: nat): (x: int)
    requires u < Pow256(n)
    ensures n > 0 ==> InRange(x, n)
    ensures n > 0 ==> Wrap(x, n) == u
  {
    if n == 0 then u
    else
      EvenPow256(n);
      if u >= Pow256(n) / 2 then u - Pow256(n) else u
  }

  /** `x.to_be_bytes()` for an `n`-byte signed integer. */
  function EncodeInt(x: int, n: nat): (r: seq<byte>)
    requires InRange(x, n)
    ensures |r| == n
  {
    ToBE(Wrap(x, n), n)
  }

  /** `iN::from_be_bytes(s)` with N = 8 * |s|. */
  function DecodeInt(s: seq<byte>): (x: int)
    requires |s| > 0
    ensures InRange(x, |s|)
  {
    FromBEBound(s);
    Signed(FromBE(s), |s|)
  }

  /** Scalar round trip: decoding the big-endian bytes of `x` gives `x` back. */
  lemma DecodeEncodeInt(x: int, n: nat)
    requires n > 0 && InRange(x, n)
    ensures DecodeInt(EncodeInt(x, n)) == x
  {
    FromToBE(Wrap(x, n), n);
    assert Pow256(n) == 256 * Pow256(n - 1);
  }

  /** Every byte string of width n is the encoding of the integer it decodes to. */
  lemma EncodeDecodeInt(s: seq<byte>)
    requires |s| > 0
    ensures EncodeInt(DecodeInt(s), |s|) == s
  {
    FromBEBound(s);
    ToFromBE(s);
  }

  /** `as i32` applied to a `usize` length: keep the low 32 bits, read them signed. */
  function UsizeAsI32(n: nat): (r: int32)
    ensures n < 0x8000_0000 ==> r == n
  {
    Pow256Values();
    Signed(n % 0x1_0000_0000, 4)
  }

  /** `as usize` applied to an `i32` on a 64-bit target: sign-extend. */
  function I32AsUsize(x: int32): (r: nat)
    ensures 0 <= x ==> r == x
    ensures x < 0 ==> r >= 0x8000_0000_0000_0000
  {
    if x < 0 then x + 0x1_0000_0000_0000_0000 else x
  }
}
