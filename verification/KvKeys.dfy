/** Key-value keys on the wire: nvme_kv_smoke.c packs a key into four command dwords and its
    length into the low byte of a fifth; the tracer prints the key back as hex. */
module KvKeys {
  import opened Bits
  import opened Scaling

  type Byte = x: nat | x < 256

  datatype KvCommand = KvCommand(cdw2: nat, cdw3: nat, cdw10: nat, cdw11: nat, cdw14: nat, cdw15: nat)

  /** What the tracer's event carries: cdw11 above cdw10, and the key dwords. */
  datatype KvEvent = KvEvent(slba: nat, cdw2: nat, cdw3: nat, cdw14: nat, cdw15: nat)

  // ---- dwords as bytes in memory order, low byte first ----

  function Join4(a: nat, b: nat, c: nat, d: nat): nat {
    a + 0x100 * b + 0x1_0000 * c + 0x100_0000 * d
  }

  function Dword(b: seq<Byte>): (d: nat)
    requires |b| == 4
    ensures d < TWO32
  {
    Join4(b[0], b[1], b[2], b[3])
  }

  function DwordBytes(d: nat): (b: seq<Byte>)
    requires d < TWO32
    ensures |b| == 4
  {
    [d % 0x100, d / 0x100 % 0x100, d / 0x1_0000 % 0x100, d / 0x100_0000]
  }

  lemma DwordRoundTrip(b: seq<Byte>)
    requires |b| == 4
    ensures DwordBytes(Dword(b)) == b
  {
    Split4(b[0], b[1], b[2], b[3]);
  }

  lemma Split4(a: nat, b: nat, c: nat, d: nat)
    requires a < 0x100 && b < 0x100 && c < 0x100 && d < 0x100
    ensures var x := Join4(a, b, c, d);
            x % 0x100 == a && x / 0x100 % 0x100 == b && x / 0x1_0000 % 0x100 == c && x / 0x100_0000 == d
  {
    var x := Join4(a, b, c, d);
    QuotientIs(x, b + 0x100 * c + 0x1_0000 * d, 0x100);
    QuotientIs(b + 0x100 * c + 0x1_0000 * d, c + 0x100 * d, 0x100);
    QuotientIs(x, c + 0x100 * d, 0x1_0000);
    QuotientIs(c + 0x100 * d, d, 0x100);
    QuotientIs(x, d, 0x100_0000);
  }

  // ---- encoding ----

  /** The first 16 bytes, padded with zeros. */
  function Padded(key: seq<Byte>): (kb: seq<Byte>)
    ensures |kb| == 16 && forall i | 0 <= i < 16 :: kb[i] == if i < |key| then key[i] else 0
  {
    seq(16, i => if 0 <= i < |key| then key[i] else 0)
  }

  function SetKey(key: seq<Byte>, valueLen: nat): KvCommand {
    var kb := Padded(key);
    KvCommand(Dword(kb[..4]), Dword(kb[4..8]), valueLen, And(|key|, 0xff), Dword(kb[8..12]), Dword(kb[12..]))
  }

  /** The tracer copies the dwords; the two halves of the address field are cdw10 and cdw11. */
  function Capture(c: KvCommand): KvEvent {
    KvEvent(Or(c.cdw10, c.cdw11 * TWO32 % TWO64), c.cdw2, c.cdw3, c.cdw14, c.cdw15)
  }

  predicate WellFormed(e: KvEvent) {
    e.slba < TWO64 && e.cdw2 < TWO32 && e.cdw3 < TWO32 && e.cdw14 < TWO32 && e.cdw15 < TWO32
  }

  function KeyBytes(e: KvEvent): (kb: seq<Byte>)
    requires WellFormed(e)
    ensures |kb| == 16
  {
    DwordBytes(e.cdw2) + DwordBytes(e.cdw3) + DwordBytes(e.cdw14) + DwordBytes(e.cdw15)
  }

  function KeyLen(e: KvEvent): nat { And(e.slba / TWO32, 0xff) }
  function ValueLen(e: KvEvent): nat { And(e.slba, 0xffff_ffff) }

  // ---- hex ----

  function Digit(n: nat): char
    requires n < 16
  {
    "0123456789abcdef"[n]
  }

  function HexByte(b: Byte): (h: string)
    ensures |h| == 2
  {
    [Digit(b / 16), Digit(b % 16)]
  }

  function Hex(b: seq<Byte>): (h: string)
    ensures |h| == 2 * |b|
  {
    if b == [] then "" else Hex(b[..|b| - 1]) + HexByte(b[|b| - 1])
  }

  lemma HexGrows(b: seq<Byte>, i: nat)
    requires i < |b|
    ensures Hex(b[..i + 1]) == Hex(b[..i]) + HexByte(b[i])
  {
    assert b[..i + 1][..i] == b[..i];
  }

  /** Two digits per byte, in order, the high one first. */
  lemma {:induction false} HexAt(b: seq<Byte>, i: nat)
    requires i < |b|
    ensures Hex(b)[2 * i] == "0123456789abcdef"[b[i] / 16] && Hex(b)[2 * i + 1] == "0123456789abcdef"[b[i] % 16]
    decreases |b|
  {
    if i < |b| - 1 {
      HexAt(b[..|b| - 1], i);
    }
  }

  /** The generator's hex of a key. */
  method HexOf(b: seq<Byte>) returns (hex: string)
    ensures hex == Hex(b)
  {
    hex := "";
    for i := 0 to |b|
      invariant hex == Hex(b[..i])
    {
      HexGrows(b, i);
      hex := hex + HexByte(b[i]);
    }
    assert b[..|b|] == b;
  }

  function Least(a: nat, b: nat): nat { if a < b then a else b }

  /** The hex of the first kl bytes, or of as many as a buffer of `cap` characters holds with its
      terminator. */
  method HexPrefix(kb: seq<Byte>, kl: nat, cap: nat) returns (hex: string)
    requires kl <= |kb| && cap >= 1
    ensures hex == Hex(kb[..Least(kl, (cap - 1) / 2)]) && |hex| < cap
  {
    hex := "";
    var i := 0;
    while i < kl && |hex| + 3 <= cap
      invariant i <= kl && hex == Hex(kb[..i]) && 2 * i + 1 <= cap
    {
      HexGrows(kb, i);
      hex := hex + HexByte(kb[i]);
      i := i + 1;
    }
    assert i == Least(kl, (cap - 1) / 2);
  }

  /** The tracer's hex: as many bytes as the length field says, at most 16, into a buffer of 36
      characters, which always suffices. */
  method KvKeyHex(e: KvEvent) returns (hex: string)
    requires WellFormed(e)
    ensures hex == Hex(KeyBytes(e)[..Least(KeyLen(e), 16)])
  {
    var kl := KeyLen(e);
    if kl > 16 {
      kl := 16;
    }
    hex := HexPrefix(KeyBytes(e), kl, 36);
  }

  // ---- round trips ----

  lemma KeyBytesRoundTrip(key: seq<Byte>, valueLen: nat)
    ensures var c := SetKey(key, valueLen);
            DwordBytes(c.cdw2) + DwordBytes(c.cdw3) + DwordBytes(c.cdw14) + DwordBytes(c.cdw15) == Padded(key)
  {
    var kb := Padded(key);
    DwordRoundTrip(kb[..4]);
    DwordRoundTrip(kb[4..8]);
    DwordRoundTrip(kb[8..12]);
    DwordRoundTrip(kb[12..]);
    assert kb[..4] + kb[4..8] + kb[8..12] + kb[12..] == kb;
  }

  /** The address field of the event holds both lengths. */
  lemma LengthsPacked(key: seq<Byte>, valueLen: nat)
    requires valueLen < TWO32
    ensures Capture(SetKey(key, valueLen)).slba == |key| % 256 * TWO32 + valueLen
  {
    var kl := |key| % 256;
    And8(|key|);
    OrHighLow(kl, valueLen);
    assert kl * TWO32 % TWO64 == kl * TWO32;
  }

  /** The length byte and the value length come back, the former modulo 256. */
  lemma LengthsRoundTrip(key: seq<Byte>, valueLen: nat)
    requires valueLen < TWO32
    ensures var e := Capture(SetKey(key, valueLen));
            WellFormed(e) && KeyLen(e) == |key| % 256 && ValueLen(e) == valueLen
  {
    LengthsPacked(key, valueLen);
    Unpacked(|key| % 256, valueLen);
  }

  lemma Unpacked(kl: nat, valueLen: nat)
    requires kl < 256 && valueLen < TWO32
    ensures var x := kl * TWO32 + valueLen;
            x < TWO64 && And(x / TWO32, 0xff) == kl && And(x, 0xffff_ffff) == valueLen
  {
    SplitAt32(kl, valueLen);
    And8(kl);
    And32(kl * TWO32 + valueLen);
  }

  /** The key as the tracer prints it. */
  function TracedHex(key: seq<Byte>, valueLen: nat): string
    requires valueLen < TWO32
  {
    LengthsRoundTrip(key, valueLen);
    var e := Capture(SetKey(key, valueLen));
    Hex(KeyBytes(e)[..Least(KeyLen(e), 16)])
  }

  /** The bytes of the key that the tracer sees. */
  function Kept(key: seq<Byte>): seq<Byte> {
    Padded(key)[..Least(|key| % 256, 16)]
  }

  lemma KeptIff(key: seq<Byte>)
    ensures Kept(key) == key <==> |key| <= 16
  {
    if |key| <= 16 {
      assert |key| % 256 == |key|;
    }
  }

  lemma TracedHexIs(key: seq<Byte>, valueLen: nat)
    requires valueLen < TWO32
    ensures TracedHex(key, valueLen) == Hex(Kept(key))
  {
    LengthsRoundTrip(key, valueLen);
    KeyBytesRoundTrip(key, valueLen);
  }

  /** KEY ROUND TRIP: the tracer's hex is the generator's hex exactly for keys of at most 16 bytes. */
  lemma KeyHexMatchesIff(key: seq<Byte>, valueLen: nat)
    requires valueLen < TWO32
    ensures TracedHex(key, valueLen) == Hex(key) <==> |key| <= 16
  {
    TracedHexIs(key, valueLen);
    KeptIff(key);
    HexEqualIff(Kept(key), key);
  }

  lemma HexByteInjective(a: Byte, b: Byte)
    requires HexByte(a) == HexByte(b)
    ensures a == b
  {
    DigitInjective(a / 16, b / 16);
    DigitInjective(a % 16, b % 16);
  }

  lemma DigitInjective(m: nat, n: nat)
    requires m < 16 && n < 16
    ensures Digit(m) == Digit(n) <==> m == n
  {
  }

  /** The hex form loses nothing. */
  lemma {:induction false} HexInjective(a: seq<Byte>, b: seq<Byte>)
    requires Hex(a) == Hex(b)
    ensures a == b
    decreases |a|
  {
    assert |a| == |b|;
    if a != [] {
      var a', b' := a[..|a| - 1], b[..|b| - 1];
      var x, y := HexByte(a[|a| - 1]), HexByte(b[|b| - 1]);
      assert Hex(a') == Hex(a)[..2 * |a'|] && Hex(b') == Hex(b)[..2 * |b'|];
      assert x == Hex(a)[2 * |a'|..] && y == Hex(b)[2 * |b'|..];
      HexInjective(a', b');
      HexByteInjective(a[|a| - 1], b[|b| - 1]);
      assert a == a' + [a[|a| - 1]] && b == b' + [b[|b| - 1]];
    }
  }

  lemma HexEqualIff(a: seq<Byte>, b: seq<Byte>)
    ensures Hex(a) == Hex(b) <==> a == b
  {
    if Hex(a) == Hex(b) {
      HexInjective(a, b);
    }
  }

  /** JOIN KEY: on keys of at most 16 bytes the printed form identifies the key. */
  lemma JoinKeysIdentify(key: seq<Byte>, other: seq<Byte>, valueLen: nat, otherLen: nat)
    requires |key| <= 16 && |other| <= 16 && valueLen < TWO32 && otherLen < TWO32
    ensures TracedHex(key, valueLen) == TracedHex(other, otherLen) <==> key == other
  {
    KeyHexMatchesIff(key, valueLen);
    KeyHexMatchesIff(other, otherLen);
    HexEqualIff(key, other);
  }
}
