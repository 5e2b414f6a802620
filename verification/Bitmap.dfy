/** Bit sets stored in bytes, as the slot validation (nvme_uring_cmd_smoke.c) and the page
    de-duplication (pagemon_viz_v2.c) keep them: member x is bit x % 8 of byte x / 8. */
module Bitmap {

  function Mask(bit: nat): bv8
    requires bit < 8
  {
    (1 as bv8) << bit
  }

  predicate Bit(b: bv8, bit: nat)
    requires bit < 8
  {
    b & Mask(bit) != 0
  }

  predicate Test(bytes: seq<bv8>, x: nat)
    requires x / 8 < |bytes|
  {
    Bit(bytes[x / 8], x % 8)
  }

  function WithBit(bytes: seq<bv8>, x: nat): (r: seq<bv8>)
    requires x / 8 < |bytes|
    ensures |r| == |bytes|
  {
    bytes[x / 8 := bytes[x / 8] | Mask(x % 8)]
  }

  lemma SetBit(b: bv8, i: nat, j: nat)
    requires i < 8 && j < 8
    ensures Bit(b | Mask(i), j) <==> i == j || Bit(b, j)
  {
  }

  /** Setting one member changes no other. */
  lemma WithBitMeans(bytes: seq<bv8>, x: nat, y: nat)
    requires x / 8 < |bytes| && y / 8 < |bytes|
    ensures Test(WithBit(bytes, x), y) <==> x == y || Test(bytes, y)
  {
    if x / 8 == y / 8 {
      SetBit(bytes[x / 8], x % 8, y % 8);
    }
  }

  /** The bytes hold exactly the members of s below n. */
  ghost predicate Holds(bytes: seq<bv8>, n: nat, s: set<nat>) {
    && |bytes| == (n + 7) / 8
    && forall x: nat | x < n :: Test(bytes, x) <==> x in s
  }

  lemma HoldsWithBit(bytes: seq<bv8>, n: nat, s: set<nat>, x: nat)
    requires Holds(bytes, n, s) && x < n
    ensures Holds(WithBit(bytes, x), n, s + {x})
  {
    forall y: nat | y < n ensures Test(WithBit(bytes, x), y) <==> y in s + {x} {
      WithBitMeans(bytes, x, y);
    }
  }

  lemma HoldsNothing(bytes: seq<bv8>, n: nat)
    requires |bytes| == (n + 7) / 8 && forall i | 0 <= i < |bytes| :: bytes[i] == 0
    ensures Holds(bytes, n, {})
  {
    forall y: nat | y < n ensures !Test(bytes, y) {
      assert bytes[y / 8] == 0;
    }
  }
}
