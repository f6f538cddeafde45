/**
 * The identifier resolver: a name is hashed with SHA-1 and the first eight
 * bytes of the digest, read as a big-endian unsigned 64-bit integer, are
 * reduced modulo the catalogue size into `1..m`.
 *
 * The SHA-1 computation itself is not part of this model; the digest is an
 * uninterpreted 20-byte input.
 */
module Identifier {
  import opened GoTypes

  /** Size in bytes of a SHA-1 digest (FIPS 180-4, section 6.1). */
  const DIGEST_SIZE: nat := 20

  /** Number of creatures in the catalogue, as the page handler passes it. */
  const CATALOG_SIZE: uint64 := 151

  type Sha1Digest = d: seq<byte> | |d| == DIGEST_SIZE
    witness [0, 0, 0, 0, 0, 0, 0, 0, 0, 0, 0, 0, 0, 0, 0, 0, 0, 0, 0, 0]

  function Pow256(k: nat): (p: nat)
    ensures p >= 1
  {
    if k == 0 then 1 else TWO_TO_THE_8 * Pow256(k - 1)
  }

  /**
   * Reference reading of a big-endian byte string: byte `k` weighs
   * `256^(|b| - 1 - k)`, so the first byte is the most significant.
   */
  function WeightedSum(b: seq<byte>): nat
  {
    if b == [] then 0 else b[0] as int * Pow256(|b| - 1) + WeightedSum(b[1..])
  }

  /**
   * The fold `binary.BigEndian` performs: shift the value so far left by one
   * byte and or-in the next byte.  On bytes, or-ing into the cleared low
   * byte is addition, so the fold is Horner's rule.
   */
  function BigEndianFold(b: seq<byte>): (v: nat)
    ensures v < Pow256(|b|)
  {
    if b == [] then 0
    else
      var v := BigEndianFold(b[..|b| - 1]);
      assert v * TWO_TO_THE_8 + b[|b| - 1] < Pow256(|b|) by {
        MulLeq(v, Pow256(|b| - 1) - 1, TWO_TO_THE_8);
      }
      v * TWO_TO_THE_8 + b[|b| - 1]
  }

  lemma MulAssoc(h: int, k: int, p: int)
    ensures h * (k * p) == h * p * k
  {}

  lemma MulLeq(x: int, y: int, k: nat)
    requires x <= y
    ensures x * k <= y * k
  {}

  /** Appending a byte shifts the earlier bytes up by one place. */
  lemma {:induction false} WeightedSumSnoc(b: seq<byte>, x: byte)
    ensures WeightedSum(b + [x]) == WeightedSum(b) * TWO_TO_THE_8 + x
  {
    if b != [] {
      var h, t, p := b[0] as int, WeightedSum(b[1..]), Pow256(|b| - 1);
      assert (b + [x])[1..] == b[1..] + [x];
      WeightedSumSnoc(b[1..], x);
      calc {
        WeightedSum(b + [x]);
        h * Pow256(|b|) + WeightedSum(b[1..] + [x]);
        h * (TWO_TO_THE_8 * p) + (t * TWO_TO_THE_8 + x);
        { MulAssoc(h, TWO_TO_THE_8, p); }
        (h * p + t) * TWO_TO_THE_8 + x;
      }
    }
  }

  /** The Horner fold and the weighted sum agree on every byte string. */
  lemma {:induction false} FoldIsWeightedSum(b: seq<byte>)
    ensures BigEndianFold(b) == WeightedSum(b)
  {
    if b != [] {
      var init, last := b[..|b| - 1], b[|b| - 1];
      assert b == init + [last];
      FoldIsWeightedSum(init);
      WeightedSumSnoc(init, last);
    }
  }

  /** `binary.BigEndian.Uint64`: the first eight bytes, most significant first. */
  function ReadUint64BE(b: seq<byte>): (v: uint64)
    requires |b| >= 8
    ensures v == WeightedSum(b[..8])
    ensures v == b[0] as int * 0x100_0000_0000_0000 + b[1] as int * 0x1_0000_0000_0000
               + b[2] as int * 0x100_0000_0000 + b[3] as int * 0x1_0000_0000 + b[4] as int * 0x100_0000
               + b[5] as int * 0x1_0000 + b[6] as int * 0x100 + b[7]
  {
    var head := b[..8];
    FoldIsWeightedSum(head);
    assert Pow256(8) == TWO_TO_THE_64;
    WeightedSumOfEight(head);
    BigEndianFold(head)
  }

  lemma WeightedSumOfEight(h: seq<byte>)
    requires |h| == 8
    ensures WeightedSum(h) == h[0] as int * 0x100_0000_0000_0000 + h[1] as int * 0x1_0000_0000_0000
               + h[2] as int * 0x100_0000_0000 + h[3] as int * 0x1_0000_0000 + h[4] as int * 0x100_0000
               + h[5] as int * 0x1_0000 + h[6] as int * 0x100 + h[7]
  {
    assert Pow256(1) == 0x100 && Pow256(2) == 0x1_0000 && Pow256(3) == 0x100_0000;
    assert Pow256(4) == 0x1_0000_0000 && Pow256(5) == 0x100_0000_0000;
    assert Pow256(6) == 0x1_0000_0000_0000 && Pow256(7) == 0x100_0000_0000_0000;
    assert h[8..] == [];
    assert WeightedSum(h[8..]) == 0;
    assert h[7..][1..] == h[8..];
    assert WeightedSum(h[7..]) == h[7] as int * Pow256(0) + WeightedSum(h[8..]);
    assert h[6..][1..] == h[7..];
    assert WeightedSum(h[6..]) == h[6] as int * Pow256(1) + WeightedSum(h[7..]);
    assert h[5..][1..] == h[6..];
    assert WeightedSum(h[5..]) == h[5] as int * Pow256(2) + WeightedSum(h[6..]);
    assert h[4..][1..] == h[5..];
    assert WeightedSum(h[4..]) == h[4] as int * Pow256(3) + WeightedSum(h[5..]);
    assert h[3..][1..] == h[4..];
    assert WeightedSum(h[3..]) == h[3] as int * Pow256(4) + WeightedSum(h[4..]);
    assert h[2..][1..] == h[3..];
    assert WeightedSum(h[2..]) == h[2] as int * Pow256(5) + WeightedSum(h[3..]);
    assert h[1..][1..] == h[2..];
    assert WeightedSum(h[1..]) == h[1] as int * Pow256(6) + WeightedSum(h[2..]);
    assert h[0..][1..] == h[1..];
    assert WeightedSum(h[0..]) == h[0] as int * Pow256(7) + WeightedSum(h[1..]);
    assert h[0..] == h;
  }

  /**
   * `pokemonID`: the big-endian value of the digest's first eight bytes,
   * reduced modulo `m`, plus one.  Go faults on `% 0`, so `m >= 1`.
   */
  function PokemonId(digest: Sha1Digest, m: uint64): (id: uint64)
    requires m >= 1
    ensures 1 <= id <= m
    ensures id - 1 == WeightedSum(digest[..8]) % m
  {
    ReadUint64BE(digest) % m + 1
  }

  /** Only the first eight digest bytes decide the identifier. */
  lemma OnlyPrefixMatters(d1: Sha1Digest, d2: Sha1Digest, m: uint64)
    requires m >= 1
    requires d1[..8] == d2[..8]
    ensures PokemonId(d1, m) == PokemonId(d2, m)
  {}

  /**
   * With the catalogue size the page handler passes, every identifier in
   * `1..151` is drawn by some digest: no catalogue entry is unreachable.
   */
  lemma EveryCatalogIdReachable(id: uint64)
    requires 1 <= id <= CATALOG_SIZE
    ensures exists d: Sha1Digest :: PokemonId(d, CATALOG_SIZE) == id
  {
    var d: Sha1Digest := [0, 0, 0, 0, 0, 0, 0, (id - 1) as byte, 0, 0, 0, 0, 0, 0, 0, 0, 0, 0, 0, 0];
    WeightedSumOfEight(d[..8]);
    assert PokemonId(d, CATALOG_SIZE) == id;
  }
}
