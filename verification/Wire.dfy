/** Bitwise operators on unsigned numbers, and when they are plain arithmetic. */
module Bits {
  import opened Scaling

  /** Bitwise or, bit by bit. */
  function Or(a: nat, b: nat): nat {
    if a == 0 && b == 0 then 0
    else 2 * Or(a / 2, b / 2) + if a % 2 == 1 || b % 2 == 1 then 1 else 0
  }

  /** Bitwise and, bit by bit. */
  function And(a: nat, b: nat): nat {
    if a == 0 || b == 0 then 0
    else 2 * And(a / 2, b / 2) + if a % 2 == 1 && b % 2 == 1 then 1 else 0
  }

  function Pow2(k: nat): (p: nat)
    ensures p > 0
  {
    if k == 0 then 1 else 2 * Pow2(k - 1)
  }

  /** Or of numbers without common bits is their sum. */
  lemma {:induction false} OrIsSum(high: nat, low: nat, k: nat)
    requires low < Pow2(k)
    ensures Or(high * Pow2(k), low) == high * Pow2(k) + low
    decreases k
  {
    if k == 0 {
      OrZero(high);
    } else {
      var p := Pow2(k - 1);
      assert high * Pow2(k) == 2 * (high * p);
      OrIsSum(high, low / 2, k - 1);
    }
  }

  lemma {:induction false} OrZero(a: nat)
    ensures Or(a, 0) == a
  {
    if a > 0 {
      OrZero(a / 2);
    }
  }

  lemma {:induction false} OrCommutes(a: nat, b: nat)
    ensures Or(a, b) == Or(b, a)
  {
    if a != 0 || b != 0 {
      OrCommutes(a / 2, b / 2);
    }
  }

  /** And with k ones is the remainder modulo 2^k. */
  lemma {:induction false} AndIsRemainder(a: nat, k: nat)
    ensures And(a, Pow2(k) - 1) == a % Pow2(k)
    decreases k
  {
    if k > 0 {
      AndIsRemainder(a / 2, k - 1);
      AndOdd(a, Pow2(k - 1));
      HalfRemainder(a, Pow2(k - 1));
    }
  }

  lemma AndOdd(a: nat, p: nat)
    requires p > 0
    ensures And(a, 2 * p - 1) == 2 * And(a / 2, p - 1) + a % 2
  {
    assert (2 * p - 1) / 2 == p - 1 && (2 * p - 1) % 2 == 1;
  }

  lemma HalfRemainder(a: nat, p: nat)
    requires p > 0
    ensures a % (2 * p) == 2 * ((a / 2) % p) + a % 2
  {
    var h := a / 2;
    var q, r := h / p, h % p;
    assert h == q * p + r;
    assert a == 2 * h + a % 2;
    assert a == q * (2 * p) + (2 * r + a % 2);
    QuotientIs(a, q, 2 * p);
  }

  const TWO8 := 0x100
  const TWO16 := 0x1_0000
  const TWO32 := 0x1_0000_0000
  const TWO64 := 0x1_0000_0000_0000_0000

  lemma {:induction false} Powers()
    ensures Pow2(8) == TWO8 && Pow2(16) == TWO16 && Pow2(32) == TWO32
  {
    assert Pow2(8) == TWO8;
    assert Pow2(16) == TWO16;
    assert Pow2(24) == TWO8 * TWO16;
    assert Pow2(32) == TWO32;
  }

  /** (high << 32) | low, for a low part of 32 bits. */
  lemma OrHighLow(high: nat, low: nat)
    requires low < TWO32
    ensures Or(high * TWO32, low) == high * TWO32 + low && Or(low, high * TWO32) == high * TWO32 + low
  {
    Powers();
    OrIsSum(high, low, 32);
    OrCommutes(low, high * TWO32);
  }

  lemma And8(a: nat)
    ensures And(a, 0xff) == a % TWO8
  {
    Powers();
    AndIsRemainder(a, 8);
  }

  lemma And16(a: nat)
    ensures And(a, 0xffff) == a % TWO16
  {
    Powers();
    AndIsRemainder(a, 16);
  }

  lemma And32(a: nat)
    ensures And(a, 0xffff_ffff) == a % TWO32
  {
    Powers();
    AndIsRemainder(a, 32);
  }

  /** Splitting a number at bit 32. */
  lemma SplitAt32(high: nat, low: nat)
    requires low < TWO32
    ensures (high * TWO32 + low) / TWO32 == high && (high * TWO32 + low) % TWO32 == low
  {
    QuotientIs(high * TWO32 + low, high, TWO32);
  }
}

/** The read generator's command encoding (nvme_uring_cmd_smoke.c) and what the tracer
    (nvme_uring_cmd_monitor) and the trace reader make of it. */
module Wire {
  import OffsetJoin
  import opened Bits
  import opened Scaling

  const MAX_COMMANDS := 0x800_0000
  const UINT16_MAX := 0xffff
  const UINT32_MAX := 0xffff_ffff
  const STDOUT := 1

  datatype Options = Options(count: nat, qd: nat, slots: nat, ioLen: nat, bufferLen: nat, lbaSize: nat, cmdsPerObj: nat,
                             traceBase: nat, readyFd: int, startFd: int, fixedBuffers: bool, premap: bool,
                             hugepage: bool)

  datatype Geometry = Geometry(blocksPerIo: nat, allocatedBytes: nat, requestedBytes: nat, lastLba: nat, traceLast: nat)

  datatype Error = TooBig | Range | Invalid | Overflow

  datatype Result = Ok(geometry: Geometry) | Err(error: Error)

  /** What the option parser lets through: 32-bit fields that are not zero, and a 32-bit trace base. */
  predicate Parsed(o: Options) {
    && 0 < o.count < TWO32 && 0 < o.qd < TWO32 && 0 < o.slots < TWO32 && 0 < o.ioLen < TWO32
    && 0 < o.bufferLen < TWO32 && 0 < o.lbaSize < TWO32 && 0 < o.cmdsPerObj < TWO32 && o.traceBase < TWO32
  }

  /** The trace id range check alone. */
  predicate TraceFits(o: Options)
    requires Parsed(o)
  {
    (o.count - 1) / o.cmdsPerObj <= UINT32_MAX - o.traceBase
  }

  function Validate(o: Options, page: int): Result
    requires Parsed(o)
  {
    if o.count > MAX_COMMANDS then Err(TooBig)
    else if o.qd > UINT16_MAX || o.slots > UINT16_MAX then Err(Range)
    else if o.slots < o.qd then Err(Invalid)
    else if o.ioLen > o.bufferLen then Err(Invalid)
    else if page <= 0 || page > UINT32_MAX then Err(Invalid)
    else if !o.premap && !o.hugepage && o.bufferLen % page != 0 then Err(Invalid)
    else if o.ioLen % o.lbaSize != 0 then Err(Invalid)
    else
      var blocks := o.ioLen / o.lbaSize;
      if blocks == 0 || blocks > UINT16_MAX + 1 then Err(Range)
      else if o.fixedBuffers && o.premap then Err(Invalid)
      else if o.hugepage && o.premap then Err(Invalid)
      else if (o.readyFd < 0) != (o.startFd < 0) then Err(Invalid)
      else if o.readyFd == STDOUT || o.startFd == STDOUT then Err(Invalid)
      else if o.slots * o.bufferLen >= TWO64 then Err(Overflow)
      else if o.count * o.ioLen >= TWO64 then Err(Overflow)
      else if o.count * blocks >= TWO64 then Err(Overflow)
      else if !TraceFits(o) then Err(Range)
      else Ok(Geometry(blocks, o.slots * o.bufferLen, o.count * o.ioLen, o.count * blocks,
                       o.traceBase + (o.count - 1) / o.cmdsPerObj))
  }

  /** The earlier bounds make all three 64-bit overflow checks unreachable. */
  lemma NeverOverflows(o: Options, page: int)
    requires Parsed(o)
    ensures Validate(o, page) != Err(Overflow)
  {
    if o.count <= MAX_COMMANDS && o.slots <= UINT16_MAX && o.ioLen / o.lbaSize <= UINT16_MAX + 1 {
      ProductBelow(o.slots, UINT16_MAX, o.bufferLen, TWO32);
      ProductBelow(o.count, MAX_COMMANDS, o.ioLen, TWO32);
      ProductBelow(o.count, MAX_COMMANDS, o.ioLen / o.lbaSize, UINT16_MAX + 1);
    }
  }

  lemma ProductBelow(a: nat, a': nat, b: nat, b': nat)
    requires a <= a' && b <= b'
    ensures a * b <= a' * b'
  {
    Scale(a, a', b);
    Scale(b, b', a');
  }

  // ---- user_data: trace id above the sequence number ----

  function TraceId(o: Options, sequence: nat): nat
    requires Parsed(o)
  {
    o.traceBase + sequence / o.cmdsPerObj
  }

  /** The 64-bit word the generator stores. */
  function UserData(o: Options, sequence: nat): nat
    requires Parsed(o)
  {
    Or(TraceId(o, sequence) * TWO32 % TWO64, sequence)
  }

  /** What a completion gives back, and what the trace reader groups by. */
  function SequenceOf(userData: nat): nat { userData % TWO32 }
  function TidOf(userData: nat): nat { userData / TWO32 }

  lemma ShiftWraps(traceId: nat)
    ensures traceId * TWO32 % TWO64 == traceId % TWO32 * TWO32
  {
    var q, r := traceId / TWO32, traceId % TWO32;
    assert traceId == q * TWO32 + r;
    assert traceId * TWO32 == q * TWO64 + r * TWO32;
    QuotientIs(traceId * TWO32, q, TWO64);
  }

  /** Decoding gives the sequence always, and the trace id modulo 2^32. */
  lemma UserDataDecodes(o: Options, sequence: nat)
    requires Parsed(o) && sequence < TWO32
    ensures SequenceOf(UserData(o, sequence)) == sequence
    ensures TidOf(UserData(o, sequence)) == TraceId(o, sequence) % TWO32
  {
    var high := TraceId(o, sequence) % TWO32;
    ShiftWraps(TraceId(o, sequence));
    OrHighLow(high, sequence);
    SplitAt32(high, sequence);
  }

  lemma TraceInRange(o: Options, sequence: nat)
    requires Parsed(o) && TraceFits(o) && sequence < o.count
    ensures TraceId(o, sequence) % TWO32 == TraceId(o, sequence) <= TraceId(o, o.count - 1) <= UINT32_MAX
  {
    QuotientGrows(sequence, o.count - 1, o.cmdsPerObj);
  }

  /** The trace id check of the validation is exactly what the round trip needs. */
  lemma TraceRoundTripIff(o: Options)
    requires Parsed(o)
    ensures TraceFits(o) <==> forall sequence: nat | sequence < o.count ::
            TidOf(UserData(o, sequence)) == TraceId(o, sequence)
  {
    if TraceFits(o) {
      forall sequence: nat | sequence < o.count ensures TidOf(UserData(o, sequence)) == TraceId(o, sequence) {
        TraceInRange(o, sequence);
        UserDataDecodes(o, sequence);
      }
    } else {
      var last := o.count - 1;
      UserDataDecodes(o, last);
      assert TraceId(o, last) >= TWO32;
      assert TidOf(UserData(o, last)) != TraceId(o, last);
    }
  }

  // ---- the command dwords ----

  datatype Command = Command(cdw10: nat, cdw11: nat, cdw12: nat, dataLen: nat)

  /** A 64-bit start address and a 32-bit block count, as the generator stores them. */
  function EncodeRead(slba: nat, blocks: nat, ioLen: nat): Command {
    Command(slba % TWO32, slba / TWO32 % TWO32, (blocks + TWO32 - 1) % TWO32, ioLen)
  }

  /** The tracer's view. */
  function SlbaOf(c: Command): nat { Or(c.cdw10, c.cdw11 * TWO32 % TWO64) }
  function NlbOf(c: Command): nat { And(c.cdw12, 0xffff) + 1 }
  function BytesOf(c: Command, lbaSize: nat): nat { NlbOf(c) * lbaSize % TWO64 }

  lemma SlbaRoundTrip(slba: nat, blocks: nat, ioLen: nat)
    requires slba < TWO64
    ensures SlbaOf(EncodeRead(slba, blocks, ioLen)) == slba
  {
    var high, low := slba / TWO32, slba % TWO32;
    assert slba == high * TWO32 + low && high < TWO32;
    HalvesJoin(high, low);
  }

  lemma HalvesJoin(high: nat, low: nat)
    requires high < TWO32 && low < TWO32
    ensures high % TWO32 == high && Or(low, high * TWO32 % TWO64) == high * TWO32 + low
  {
    ShiftWraps(high);
    OrHighLow(high, low);
  }

  lemma NlbIs(c: Command)
    ensures NlbOf(c) == c.cdw12 % TWO16 + 1
  {
    And16(c.cdw12);
  }

  lemma LessOne(blocks: nat)
    requires blocks < TWO32
    ensures (blocks + TWO32 - 1) % TWO32 == if blocks == 0 then TWO32 - 1 else blocks - 1
  {
  }

  /** The block count survives exactly for 1 .. 65536 blocks. */
  lemma NlbRoundTripIff(slba: nat, blocks: nat, ioLen: nat)
    requires blocks < TWO32
    ensures NlbOf(EncodeRead(slba, blocks, ioLen)) == blocks <==> 1 <= blocks <= UINT16_MAX + 1
  {
    NlbIs(EncodeRead(slba, blocks, ioLen));
    LessOne(blocks);
  }

  lemma WholeBlocks(ioLen: nat, lbaSize: nat)
    requires lbaSize > 0 && ioLen % lbaSize == 0
    ensures ioLen / lbaSize * lbaSize == ioLen
  {
  }

  /** One validated command. */
  lemma CommandRoundTrip(slba: nat, ioLen: nat, lbaSize: nat)
    requires 0 < lbaSize && ioLen < TWO32 && ioLen % lbaSize == 0 && 1 <= ioLen / lbaSize <= UINT16_MAX + 1
    requires slba < TWO64
    ensures var c := EncodeRead(slba, ioLen / lbaSize, ioLen);
            SlbaOf(c) == slba && NlbOf(c) == ioLen / lbaSize && BytesOf(c, lbaSize) == ioLen == c.dataLen
  {
    SlbaRoundTrip(slba, ioLen / lbaSize, ioLen);
    NlbRoundTripIff(slba, ioLen / lbaSize, ioLen);
    assert ioLen / lbaSize * lbaSize == ioLen;
  }

  lemma UserDataRoundTrip(o: Options, sequence: nat)
    requires Parsed(o) && TraceFits(o) && sequence < o.count
    ensures SequenceOf(UserData(o, sequence)) == sequence
    ensures TidOf(UserData(o, sequence)) == TraceId(o, sequence) <= TraceId(o, o.count - 1) <= UINT32_MAX
  {
    TraceInRange(o, sequence);
    UserDataDecodes(o, sequence);
  }

  /** The cookie that the offset join takes as ground truth for a command of the run is the trace id
      that the generator gave it. */
  lemma CookieIsTraceId(o: Options, sequence: nat, c: OffsetJoin.Cmd)
    requires Parsed(o) && TraceFits(o) && sequence < o.count && c.userData == UserData(o, sequence)
    ensures OffsetJoin.Cookie(c) == TraceId(o, sequence)
  {
    UserDataRoundTrip(o, sequence);
  }

  /** WIRE ROUND TRIP: whatever the validation accepts is decoded as it was encoded, for every
      command of the run. */
  lemma RoundTrip(o: Options, page: int, sequence: nat, slba: nat, g: Geometry)
    requires Parsed(o) && Validate(o, page) == Ok(g) && sequence < o.count && slba < TWO64
    ensures g.blocksPerIo * o.lbaSize == o.ioLen && g.lastLba == o.count * g.blocksPerIo < TWO64
    ensures SequenceOf(UserData(o, sequence)) == sequence
    ensures TidOf(UserData(o, sequence)) == TraceId(o, sequence) <= TraceId(o, o.count - 1) == g.traceLast <= UINT32_MAX
    ensures var c := EncodeRead(slba, g.blocksPerIo, o.ioLen);
            SlbaOf(c) == slba && NlbOf(c) == g.blocksPerIo && BytesOf(c, o.lbaSize) == o.ioLen == c.dataLen
  {
    UserDataRoundTrip(o, sequence);
    CommandRoundTrip(slba, o.ioLen, o.lbaSize);
    WholeBlocks(o.ioLen, o.lbaSize);
  }

  lemma BlocksIff(ioLen: nat, lbaSize: nat, n: nat)
    requires lbaSize > 0
    ensures n * lbaSize == ioLen <==> ioLen % lbaSize == 0 && ioLen / lbaSize == n
  {
    if n * lbaSize == ioLen {
      QuotientIs(ioLen, n, lbaSize);
    }
  }

  lemma SmallProduct(n: nat, lbaSize: nat)
    requires n <= TWO16 && lbaSize < TWO32
    ensures n * lbaSize % TWO64 == n * lbaSize
  {
    ProductBelow(n, TWO16, lbaSize, TWO32);
    QuotientIs(n * lbaSize, 0, TWO64);
  }

  /** The length survives exactly when it is 1 .. 65536 whole blocks. */
  lemma LengthSurvivesIff(slba: nat, ioLen: nat, lbaSize: nat)
    requires 0 < ioLen < TWO32 && 0 < lbaSize < TWO32
    ensures BytesOf(EncodeRead(slba, ioLen / lbaSize, ioLen), lbaSize) == ioLen <==>
            ioLen % lbaSize == 0 && 1 <= ioLen / lbaSize <= UINT16_MAX + 1
  {
    var c := EncodeRead(slba, ioLen / lbaSize, ioLen);
    NlbIs(c);
    SmallProduct(NlbOf(c), lbaSize);
    BlocksIff(ioLen, lbaSize, NlbOf(c));
    NlbRoundTripIff(slba, ioLen / lbaSize, ioLen);
  }

  /** What the buffers and the options demand, apart from the commands themselves. */
  ghost predicate Usable(o: Options, page: int) {
    && o.count <= 134217728 && o.qd <= o.slots <= 65535 && o.ioLen <= o.bufferLen && 0 < page <= 4294967295
    && (o.premap || o.hugepage || exists pages: nat :: pages * page == o.bufferLen)
    && (o.premap ==> !o.fixedBuffers && !o.hugepage)
    && (o.readyFd < 0 <==> o.startFd < 0) && o.readyFd != 1 && o.startFd != 1
  }

  /** Every command of the run is decoded to its trace id and its length. */
  ghost predicate Decodable(o: Options)
    requires Parsed(o)
  {
    && (forall sequence: nat | sequence < o.count :: TidOf(UserData(o, sequence)) == TraceId(o, sequence))
    && (forall slba: nat | slba < TWO64 ::
          BytesOf(EncodeRead(slba, o.ioLen / o.lbaSize, o.ioLen), o.lbaSize) == o.ioLen)
  }

  lemma WholePagesIff(bufferLen: nat, page: int)
    requires page > 0
    ensures bufferLen % page == 0 <==> exists pages: nat :: pages * page == bufferLen
  {
    if bufferLen % page == 0 {
      assert bufferLen / page * page == bufferLen;
    }
    forall pages: nat | pages * page == bufferLen ensures bufferLen % page == 0 {
      QuotientIs(bufferLen, pages, page);
    }
  }

  lemma DecodableIff(o: Options)
    requires Parsed(o)
    ensures Decodable(o) <==>
            TraceFits(o) && o.ioLen % o.lbaSize == 0 && 1 <= o.ioLen / o.lbaSize <= UINT16_MAX + 1
  {
    TraceRoundTripIff(o);
    forall slba: nat { LengthSurvivesIff(slba, o.ioLen, o.lbaSize); }
    assert Decodable(o) ==> BytesOf(EncodeRead(0, o.ioLen / o.lbaSize, o.ioLen), o.lbaSize) == o.ioLen;
  }

  /** VALIDATION accepts exactly the usable options under which no command of the run is misread. */
  lemma AcceptsIff(o: Options, page: int)
    requires Parsed(o)
    ensures Validate(o, page).Ok? <==> Usable(o, page) && Decodable(o)
  {
    NeverOverflows(o, page);
    DecodableIff(o);
    if page > 0 {
      WholePagesIff(o.bufferLen, page);
    }
  }

  /** Sequential addresses never wrap, and the commands tile the range without gap or overlap. */
  lemma SequentialTiles(o: Options, page: int, sequence: nat)
    requires Parsed(o) && Validate(o, page).Ok? && sequence < o.count
    ensures var g := Validate(o, page).geometry;
            var slba := sequence * g.blocksPerIo;
            && slba + g.blocksPerIo <= g.lastLba < TWO64
            && slba + g.blocksPerIo == (sequence + 1) * g.blocksPerIo
            && SlbaOf(EncodeRead(slba, g.blocksPerIo, o.ioLen)) == slba
  {
    var g := Validate(o, page).geometry;
    Scale(sequence + 1, o.count, g.blocksPerIo);
    assert sequence * g.blocksPerIo + g.blocksPerIo == (sequence + 1) * g.blocksPerIo;
    SlbaRoundTrip(sequence * g.blocksPerIo, g.blocksPerIo, o.ioLen);
  }
}
