/**
 * The physical-layer IR codec (libraries/blinklib/src/irdata.cpp).
 *
 * Once per timer tick every face contributes one sample bit ("did a pulse
 * discharge the LED?").  Each face keeps the last eight samples in a shift
 * register and matches its low bits against fixed patterns: one pulse is a
 * 0-bit, two pulses (adjacent or one sample apart) a 1-bit, three pulses in a
 * row a sync.  Bits are shifted into `inputBuffer` behind a sentinel 1-bit
 * planted by the sync; when the sentinel reaches bit 7 the next bit is the
 * parity bit and the byte is complete.
 *
 * The pure part (datatype Rx and the functions over it) states what one tick
 * does; the class RxState and IrData mutate the per-face records in place, as
 * the source does, and are proved against those functions.
 */
module IrData {
  import opened Common

  /** A bit position inside a byte, the argument of `_BV` and `SBI`. */
  type BitPos = x: bv8 | x < 8

  // Bit positions of the four error conditions.  Their values are defined in
  // irdata.h, which is not part of this model; no proof depends on them.
  const ERRORBIT_OVERFLOW: BitPos
  const ERRORBIT_PARITY: BitPos
  const ERRORBIT_DROPOUT: BitPos
  const ERRORBIT_NOISE: BitPos

  const IRLED_COUNT: nat := 6

  /** One bit per face, faces 0..5 (ir.h). */
  const ALL_IR_BITS: byte := 0x3F

  /** `_BV(face)` for a face or LED index. */
  function FaceBit(face: nat): byte
    requires face < 8
  {
    match face
    case 0 => 0x01
    case 1 => 0x02
    case 2 => 0x04
    case 3 => 0x08
    case 4 => 0x10
    case 5 => 0x20
    case 6 => 0x40
    case _ => 0x80
  }

  /** Bit `face` of a mask of faces. */
  predicate SampleBit(bits: byte, face: nat)
    requires face < 8
  {
    bits & FaceBit(face) != 0
  }

  /** Testing the bit walker against a mask is reading that face's bit. */
  lemma WalkerSample(bits: byte, face: nat)
    requires face < 8
    ensures (bits & FaceBit(face) != 0) == SampleBit(bits, face)
  {
  }

  /** The bit walker moves down one face per step, and falls off after face 0. */
  lemma WalkerStep(face: nat)
    requires face < 8
    ensures FaceBit(face) >> 1 == if face > 0 then FaceBit(face - 1) else 0
  {
  }

  /** Setting one face's bit in a mask leaves the other faces' bits as they were. */
  lemma MaskAdd(mask: byte, face: nat, k: nat)
    requires face < 8 && k < 8
    ensures SampleBit(mask | FaceBit(face), k) <==> SampleBit(mask, k) || k == face
  {
  }

  /** Setting a face's bit keeps a mask within the six IR bits. */
  lemma MaskAddInRange(mask: byte, face: nat)
    requires face < IRLED_COUNT && mask & !ALL_IR_BITS == 0
    ensures (mask | FaceBit(face)) & !ALL_IR_BITS == 0
  {
  }

  /** `_BV(pos)`. */
  function BV(pos: BitPos): byte
  {
    1 << pos
  }

  /** `SBI(reg, pos)`: set one bit of a register. */
  function SetBit(reg: byte, pos: BitPos): byte
  {
    reg | BV(pos)
  }

  /** A sample as the 0/1 value the source ORs into a register. */
  function B(bit: bool): byte
  {
    if bit then 1 else 0
  }

  // ---------------------------------------------------------------------
  // Parity

  /** The value (0 or 1) of bit `i` of `p`. */
  function BitVal(p: byte, i: nat): nat
    requires i < 8
  {
    if (p >> i) & 1 == 1 then 1 else 0
  }

  /** Number of 1-bits in a byte: the reference definition for parity. */
  function OnesIn(p: byte): nat
  {
    BitVal(p, 0) + BitVal(p, 1) + BitVal(p, 2) + BitVal(p, 3) +
    BitVal(p, 4) + BitVal(p, 5) + BitVal(p, 6) + BitVal(p, 7)
  }

  /** `oddParity`: folds the byte onto itself; the result is the XOR of all eight bits. */
  function OddParity(p: byte): (r: byte)
    ensures r <= 1
  {
    FoldParity(p ^ ((p >> 4) | (p << 4)), 2)
  }

  /** The last two folds of `oddParity`: xor with the byte shifted by 2, then by 1, and keep bit 0. */
  function FoldParity(p: byte, shift: nat): byte
    requires shift <= 2
    decreases shift
  {
    if shift == 0 then p & 1 else FoldParity(p ^ (p >> shift), shift / 2)
  }

  /** The folding trick of `oddParity` computes whether the byte has an odd number of ones. */
  lemma OddParityCounts(p: byte)
    ensures OddParity(p) == if OnesIn(p) % 2 == 1 then 1 else 0
  {
  }

  /** Number of true entries of a bit sequence. */
  function CountTrue(bs: seq<bool>): nat
  {
    if bs == [] then 0 else (if bs[0] then 1 else 0) + CountTrue(bs[1..])
  }

  /** XOR of a bit sequence, accumulated front to back as the transmitter does. */
  function ParityOf(bs: seq<bool>): bool
  {
    if bs == [] then false else bs[0] != ParityOf(bs[1..])
  }

  /** The running XOR is the "odd number of ones" parity. */
  lemma {:induction false} ParityOfCounts(bs: seq<bool>)
    ensures ParityOf(bs) <==> CountTrue(bs) % 2 == 1
  {
    if bs != [] {
      ParityOfCounts(bs[1..]);
    }
  }

  // ---------------------------------------------------------------------
  // Receive state of one face and the four helpers of the decoder

  datatype Rx = Rx(bitstream: byte, inputBuffer: byte, lastValue: byte, errorBits: byte)

  /** `gotByte`: store a decoded byte, flagging an overflow if the previous one was unread. */
  function GotByteStep(s: Rx, b: byte): Rx
  {
    var errors := if s.lastValue != 0 then SetBit(s.errorBits, ERRORBIT_OVERFLOW) else s.errorBits;
    s.(lastValue := b, errorBits := errors)
  }

  /** `gotBit`: shift a decoded bit behind the sentinel, or check parity once the sentinel is at bit 7. */
  function GotBitStep(s: Rx, bit: bool): Rx
  {
    var buffer := s.inputBuffer;
    if buffer == 0 then s
    else if buffer & 0x80 != 0 then
      var t := if OddParity(buffer) != B(bit) then GotByteStep(s, buffer)
               else s.(errorBits := SetBit(s.errorBits, ERRORBIT_PARITY));
      t.(inputBuffer := 0)
    else
      s.(inputBuffer := Shift(buffer, bit))
  }

  /** `sync`: plant the sentinel bit. */
  function SyncStep(s: Rx): Rx
  {
    s.(inputBuffer := 1)
  }

  /** `reset`: drop the frame in progress and record why. */
  function ResetStep(s: Rx, reason: BitPos): Rx
  {
    s.(inputBuffer := 0, errorBits := SetBit(s.errorBits, reason))
  }

  /** A register after `reg <<= 1; reg |= bit`: the new sample or bit enters at bit 0. */
  function Shift(bitstream: byte, bit: bool): byte
  {
    (bitstream << 1) | B(bit)
  }

  /** What the low bits of the sample register say about the newest samples. */
  datatype Pattern = ZeroBit | OneBit | SyncMark | Dropout | Noise | NoPattern

  /** The pattern match of `updateIRComs`, in the source's order of tests. */
  function Classify(bitstream: byte): Pattern
  {
    if bitstream & 0x1F == 0x04 then ZeroBit
    else if bitstream & 0x3F == 0x0C then OneBit
    else if bitstream & 0x7F == 0x14 then OneBit
    else if bitstream & 0x07 == 0x07 then SyncMark
    else if bitstream & 0x1F == 0x00 then Dropout
    else if bitstream & 0x1F == 0x15 then Noise
    else NoPattern
  }

  /** One tick of `updateIRComs` on one face, given that face's sample bit. */
  function Tick(s: Rx, bit: bool): Rx
  {
    var bitstream := Shift(s.bitstream, bit);
    Act(s, Classify(bitstream)).(bitstream := bitstream)
  }

  /** What `updateIRComs` does about a pattern; errors are only checked while a frame is in progress. */
  function Act(s: Rx, pattern: Pattern): Rx
  {
    match pattern
    case ZeroBit => GotBitStep(s, false)
    case OneBit => GotBitStep(s, true)
    case SyncMark => SyncStep(s)
    case Dropout => if s.inputBuffer != 0 then ResetStep(s, ERRORBIT_DROPOUT) else s
    case Noise => if s.inputBuffer != 0 then ResetStep(s, ERRORBIT_NOISE) else s
    case NoPattern => s
  }

  /** A run of ticks on one face. */
  function Feed(s: Rx, samples: seq<bool>): Rx
    decreases samples
  {
    if samples == [] then s else Feed(Tick(s, samples[0]), samples[1..])
  }

  // ---------------------------------------------------------------------
  // Properties of the helpers

  /** `gotByte` flags an overflow exactly when an unread byte is overwritten, and always keeps the new byte. */
  lemma GotByteOverwrites(s: Rx, b: byte)
    ensures GotByteStep(s, b).lastValue == b
    ensures GotByteStep(s, b).errorBits == if s.lastValue != 0 then s.errorBits | BV(ERRORBIT_OVERFLOW) else s.errorBits
    ensures GotByteStep(s, b).inputBuffer == s.inputBuffer
  {
  }

  /** While not synchronised, decoded bits are ignored. */
  lemma UnsyncedBitIgnored(s: Rx, bit: bool)
    requires s.inputBuffer == 0
    ensures GotBitStep(s, bit) == s
  {
  }

  /** The parity bit is accepted iff it equals the XOR of the seven data bits behind the sentinel. */
  lemma {:induction false} ParityCheck(s: Rx, bit: bool)
    requires s.inputBuffer & 0x80 != 0
    ensures GotBitStep(s, bit).inputBuffer == 0
    ensures bit == (OnesIn(s.inputBuffer & 0x7F) % 2 == 1) ==>
      GotBitStep(s, bit) == GotByteStep(s, s.inputBuffer).(inputBuffer := 0)
    ensures bit != (OnesIn(s.inputBuffer & 0x7F) % 2 == 1) ==>
      GotBitStep(s, bit) == s.(inputBuffer := 0, errorBits := s.errorBits | BV(ERRORBIT_PARITY))
  {
    var p := s.inputBuffer;
    ParityBitMatches(p, bit);
    ParityOutcome(s, bit);
  }

  /** Before the sentinel reaches bit 7, `gotBit` only shifts the bit in. */
  lemma DataBitShifted(s: Rx, bit: bool)
    requires s.inputBuffer != 0 && s.inputBuffer & 0x80 == 0
    ensures GotBitStep(s, bit) == s.(inputBuffer := Shift(s.inputBuffer, bit))
  {
  }

  /** What `gotBit` does with the parity bit, in terms of `oddParity`. */
  lemma ParityOutcome(s: Rx, bit: bool)
    requires s.inputBuffer & 0x80 != 0
    ensures OddParity(s.inputBuffer) != B(bit) ==>
      GotBitStep(s, bit) == GotByteStep(s, s.inputBuffer).(inputBuffer := 0)
    ensures OddParity(s.inputBuffer) == B(bit) ==>
      GotBitStep(s, bit) == s.(inputBuffer := 0, errorBits := s.errorBits | BV(ERRORBIT_PARITY))
  {
    if OddParity(s.inputBuffer) != B(bit) {
    } else {
    }
  }

  /** The test `gotBit` applies to the parity bit, in terms of the seven data bits. */
  lemma ParityBitMatches(p: byte, bit: bool)
    requires p & 0x80 != 0
    ensures OddParity(p) != B(bit) <==> bit == (OnesIn(p & 0x7F) % 2 == 1)
  {
    TopBitParity(p);
  }

  /** Bit 7 contributes one to the count of ones. */
  lemma TopBitOnes(p: byte)
    requires p & 0x80 != 0
    ensures OnesIn(p) == OnesIn(p & 0x7F) + 1
  {
  }

  /** With the sentinel in bit 7, `oddParity` is the complement of the data bits' parity. */
  lemma TopBitParity(p: byte)
    requires p & 0x80 != 0
    ensures OddParity(p) == if OnesIn(p & 0x7F) % 2 == 1 then 0 else 1
  {
    OddParityCounts(p);
    TopBitOnes(p);
  }

  /** The four symbol patterns never overlap, so the order in which they are tested never decides. */
  lemma PatternsExclusive(bitstream: byte)
    ensures !(bitstream & 0x1F == 0x04 && bitstream & 0x3F == 0x0C)
    ensures !(bitstream & 0x1F == 0x04 && bitstream & 0x7F == 0x14)
    ensures !(bitstream & 0x3F == 0x0C && bitstream & 0x7F == 0x14)
    ensures bitstream & 0x07 == 0x07 ==>
      !(bitstream & 0x1F == 0x04 || bitstream & 0x3F == 0x0C || bitstream & 0x7F == 0x14)
  {
  }

  /** Dropout and noise only abort a frame in progress; while searching for sync they change nothing but the register. */
  lemma ErrorsOnlyMidFrame(s: Rx, bit: bool)
    ensures var bitstream := Shift(s.bitstream, bit);
      Classify(bitstream) in {Dropout, Noise} ==>
        Tick(s, bit) == (if s.inputBuffer != 0 then Tick(s, bit).(inputBuffer := 0) else s.(bitstream := bitstream))
    ensures Tick(s, bit).bitstream == Shift(s.bitstream, bit)
  {
  }

  // ---------------------------------------------------------------------
  // Transmission, as the sequence of symbols the transmitter emits

  /** A transmitted symbol: the 4-pulse sync, or one data bit (one pulse for 0, two for 1). */
  datatype Symbol = SyncPulses | DataBit(one: bool)

  /** Bits 6..0 of a byte, most significant first: the order `irBitmaskSendData` sends them. */
  function DataBits(data: byte): (bs: seq<bool>)
    ensures |bs| == 7
  {
    seq(7, i requires 0 <= i < 7 => TestBit(data, 6 - i))
  }

  /** Whether bit `pos` of a byte is set. */
  function TestBit(data: byte, pos: nat): bool
    requires pos < 8
  {
    (data >> pos) & 1 == 1
  }

  /** Data bit symbols for a bit sequence. */
  function DataSymbols(bs: seq<bool>): (syms: seq<Symbol>)
    ensures |syms| == |bs|
  {
    seq(|bs|, i requires 0 <= i < |bs| => DataBit(bs[i]))
  }

  /** A whole frame: sync, the data bits, and a parity bit. */
  function FrameOf(bs: seq<bool>, parity: bool): seq<Symbol>
  {
    [SyncPulses] + DataSymbols(bs) + [DataBit(parity)]
  }

  /** The frame sent for `data`: its parity bit is the XOR of its seven data bits. */
  function Frame(data: byte): seq<Symbol>
  {
    FrameOf(DataBits(data), ParityOf(DataBits(data)))
  }

  /**
   * The samples a receiver sees for one symbol in the idealised channel: the
   * pulses followed by two empty samples.  A 1-bit's two pulses land in
   * adjacent samples or, when the clocks are skewed, one sample apart (`wide`).
   */
  function SymbolSamples(sym: Symbol, wide: bool): seq<bool>
  {
    match sym
    case SyncPulses => [true, true, true, true, false, false]
    case DataBit(one) =>
      if !one then [true, false, false]
      else if wide then [true, false, true, false, false]
      else [true, true, false, false]
  }

  /** The samples for a run of symbols, one skew choice per symbol. */
  function Samples(syms: seq<Symbol>, wide: seq<bool>): seq<bool>
    requires |wide| == |syms|
  {
    if syms == [] then [] else SymbolSamples(syms[0], wide[0]) + Samples(syms[1..], wide[1..])
  }

  /** `irBitmaskSendData`: the symbols sent for one byte, with the parity accumulated along the way. */
  method BitmaskSendData(data: byte) returns (syms: seq<Symbol>)
    ensures syms == Frame(data)
  {
    ghost var bits := DataBits(data);
    syms := [SyncPulses];
    var bitwalker: byte := 0x40;
    var parityBit := false;
    ghost var k := 0;
    while bitwalker != 0
      invariant 0 <= k <= 7
      invariant bitwalker == if k < 7 then FaceBit(6 - k) else 0
      invariant syms == [SyncPulses] + DataSymbols(bits[..k])
      invariant parityBit == ParityOf(bits[..k])
      decreases 7 - k
    {
      WalkerSample(data, 6 - k);
      TestBitIsSampleBit(data, 6 - k);
      var bit := data & bitwalker != 0;
      syms := syms + [DataBit(bit)];
      ParityAppend(bits[..k], bit);
      parityBit := parityBit != bit;
      DataSymbolsAppend(bits, k);
      WalkerStep(6 - k);
      bitwalker := bitwalker >> 1;
      k := k + 1;
    }
    assert bits[..k] == bits;
    syms := syms + [DataBit(parityBit)];
  }

  /** One more data bit adds one more data symbol. */
  lemma DataSymbolsAppend(bs: seq<bool>, k: nat)
    requires k < |bs|
    ensures bs[..k + 1] == bs[..k] + [bs[k]]
    ensures DataSymbols(bs[..k + 1]) == DataSymbols(bs[..k]) + [DataBit(bs[k])]
  {
    assert bs[..k + 1] == bs[..k] + [bs[k]];
  }

  /** Reading bit `pos` by shifting down is reading it with its mask. */
  lemma TestBitIsSampleBit(data: byte, pos: nat)
    requires pos < 8
    ensures TestBit(data, pos) == SampleBit(data, pos)
  {
    if pos == 0 {
    } else if pos == 1 {
    } else if pos == 2 {
    } else if pos == 3 {
    } else if pos == 4 {
    } else if pos == 5 {
    } else if pos == 6 {
    }
  }

  /** Appending a bit to the running XOR flips it when the bit is 1. */
  lemma {:induction false} ParityAppend(bs: seq<bool>, b: bool)
    ensures ParityOf(bs + [b]) == (ParityOf(bs) != b)
  {
    if bs != [] {
      assert (bs + [b])[1..] == bs[1..] + [b];
      ParityAppend(bs[1..], b);
    }
  }

  // ---------------------------------------------------------------------
  // Reception of a frame

  /** Bits shifted into a buffer one at a time, front first, as `gotBit` does before the parity bit. */
  function ShiftIn(buffer: byte, bs: seq<bool>): byte
    decreases bs
  {
    if bs == [] then buffer else ShiftIn(Shift(buffer, bs[0]), bs[1..])
  }

  lemma {:induction false} FeedAppend(s: Rx, a: seq<bool>, b: seq<bool>)
    ensures Feed(s, a + b) == Feed(Feed(s, a), b)
    decreases a
  {
    if a == [] {
      assert a + b == b;
    } else {
      assert (a + b)[1..] == a[1..] + b;
      FeedAppend(Tick(s, a[0]), a[1..], b);
    }
  }

  lemma {:induction false} SamplesAppend(x: seq<Symbol>, wx: seq<bool>, y: seq<Symbol>, wy: seq<bool>)
    requires |wx| == |x| && |wy| == |y|
    ensures Samples(x + y, wx + wy) == Samples(x, wx) + Samples(y, wy)
  {
    if x == [] {
      assert x + y == y && wx + wy == wy;
    } else {
      assert (x + y)[1..] == x[1..] + y;
      assert (wx + wy)[1..] == wx[1..] + wy;
      SamplesAppend(x[1..], wx[1..], y, wy);
    }
  }

  /** A tick that matches no pattern only records the sample. */
  lemma TickQuiet(s: Rx, bit: bool)
    requires Classify(Shift(s.bitstream, bit)) == NoPattern
    ensures Tick(s, bit) == s.(bitstream := Shift(s.bitstream, bit))
  {
  }

  /**
   * One tick, read off the previous samples and the new one rather than the
   * pattern names: a 0-bit is one pulse followed by two empty samples, a
   * 1-bit two pulses (adjacent or one apart) followed by two empty samples,
   * a sync the third pulse in a row; while a frame is in progress, five
   * empty samples are a dropout and pulse, gap, pulse, gap, pulse is noise.
   * Any other sample only enters the register.
   */
  lemma TickBySamples(s: Rx, bit: bool)
    ensures var x := Shift(s.bitstream, bit);
      && (!bit && s.bitstream & 0x0F == 0x02 ==> Tick(s, bit) == GotBitStep(s, false).(bitstream := x))
      && (!bit && (s.bitstream & 0x1F == 0x06 || s.bitstream & 0x3F == 0x0A) ==> Tick(s, bit) == GotBitStep(s, true).(bitstream := x))
      && (bit && s.bitstream & 0x03 == 0x03 ==> Tick(s, bit) == SyncStep(s).(bitstream := x))
      && (!bit && s.bitstream & 0x0F == 0 && s.inputBuffer != 0 ==> Tick(s, bit) == ResetStep(s, ERRORBIT_DROPOUT).(bitstream := x))
      && (bit && s.bitstream & 0x0F == 0x0A && s.inputBuffer != 0 ==> Tick(s, bit) == ResetStep(s, ERRORBIT_NOISE).(bitstream := x))
    ensures (!(!bit && s.bitstream & 0x0F == 0x02) &&
      !(!bit && (s.bitstream & 0x1F == 0x06 || s.bitstream & 0x3F == 0x0A)) &&
      !(bit && s.bitstream & 0x03 == 0x03) &&
      !(!bit && s.bitstream & 0x0F == 0 && s.inputBuffer != 0) &&
      !(bit && s.bitstream & 0x0F == 0x0A && s.inputBuffer != 0)) ==>
        Tick(s, bit) == s.(bitstream := Shift(s.bitstream, bit))
  {
  }

  /** A tick that completes a data-bit symbol is one `gotBit`. */
  lemma TickBit(s: Rx, bit: bool, value: bool)
    requires Classify(Shift(s.bitstream, bit)) == (if value then OneBit else ZeroBit)
    ensures Tick(s, bit) == GotBitStep(s, value).(bitstream := Shift(s.bitstream, bit))
  {
  }

  /** The sample register through a 0-bit symbol that follows two empty samples. */
  lemma ZeroBitPatterns(b: byte)
    requires b & 3 == 0
    ensures var b1 := Shift(b, true); var b2 := Shift(b1, false); var b3 := Shift(b2, false);
      Classify(b1) == NoPattern && Classify(b2) == NoPattern && Classify(b3) == ZeroBit && b3 & 3 == 0
  {
  }

  /** The sample register through a 1-bit symbol whose two pulses are adjacent. */
  lemma OneBitPatterns(b: byte)
    requires b & 3 == 0
    ensures var b1 := Shift(b, true); var b2 := Shift(b1, true);
      var b3 := Shift(b2, false); var b4 := Shift(b3, false);
      && Classify(b1) == NoPattern && Classify(b2) == NoPattern && Classify(b3) == NoPattern
      && Classify(b4) == OneBit && b4 & 3 == 0
  {
  }

  /** The sample register through a 1-bit symbol whose pulses are one sample apart. */
  lemma WideOneBitPatterns(b: byte)
    requires b & 3 == 0
    ensures var b1 := Shift(b, true); var b2 := Shift(b1, false); var b3 := Shift(b2, true);
      var b4 := Shift(b3, false); var b5 := Shift(b4, false);
      && Classify(b1) == NoPattern && Classify(b2) == NoPattern && Classify(b3) == NoPattern
      && Classify(b4) == NoPattern && Classify(b5) == OneBit && b5 & 3 == 0
  {
  }

  /** The sample register through the sync symbol, from any history. */
  lemma SyncPatterns(b: byte)
    ensures var b1 := Shift(b, true); var b2 := Shift(b1, true); var b3 := Shift(b2, true);
      var b4 := Shift(b3, true); var b5 := Shift(b4, false); var b6 := Shift(b5, false);
      && Classify(b1) in {SyncMark, Noise, NoPattern}
      && Classify(b2) in {SyncMark, Noise, NoPattern}
      && Classify(b3) == SyncMark && Classify(b4) == SyncMark
      && Classify(b5) == NoPattern && Classify(b6) == NoPattern && b6 & 3 == 0
  {
  }

  /** A pulse sample can only restart the sync, abort on noise, or be recorded. */
  lemma PulseTick(s: Rx)
    requires Classify(Shift(s.bitstream, true)) in {SyncMark, Noise, NoPattern}
    ensures var t := Tick(s, true);
      && t.lastValue == s.lastValue
      && (t.errorBits == s.errorBits || t.errorBits == s.errorBits | BV(ERRORBIT_NOISE))
      && t.bitstream == Shift(s.bitstream, true)
  {
  }

  lemma Feed2(s: Rx, a: bool, b: bool)
    ensures Feed(s, [a, b]) == Tick(Tick(s, a), b)
  {
    assert [a, b][1..] == [b];
    assert [b][1..] == [];
    assert Feed(s, [a, b]) == Feed(Tick(s, a), [b]);
    assert Feed(Tick(s, a), [b]) == Feed(Tick(Tick(s, a), b), []);
  }

  lemma Feed3(s: Rx, a: bool, b: bool, c: bool)
    ensures Feed(s, [a, b, c]) == Tick(Tick(Tick(s, a), b), c)
  {
    assert [a, b, c][1..] == [b, c];
    Feed2(Tick(s, a), b, c);
  }

  /** `gotBit` never looks at or changes the sample register. */
  lemma GotBitIgnoresSamples(s: Rx, bit: bool, x: byte)
    ensures GotBitStep(s.(bitstream := x), bit) == GotBitStep(s, bit).(bitstream := x)
    ensures GotBitStep(s, bit).bitstream == s.bitstream
  {
    if OddParity(s.inputBuffer) != B(bit) {
    } else {
    }
  }

  /**
   * One data-bit symbol, received after two empty samples, has exactly the
   * effect of one `gotBit`, and again leaves two empty samples at the bottom
   * of the register.
   */
  lemma {:induction false} DataSymbolDecodes(s: Rx, bit: bool, wide: bool)
    requires s.bitstream & 3 == 0
    ensures var r := Feed(s, SymbolSamples(DataBit(bit), wide));
      r == GotBitStep(s, bit).(bitstream := r.bitstream) && r.bitstream & 3 == 0
  {
    var b := s.bitstream;
    if !bit {
      ZeroBitPatterns(b);
      var b1 := Shift(b, true); var b2 := Shift(b1, false);
      TickQuiet(s, true);
      var s1 := s.(bitstream := b1);
      TickQuiet(s1, false);
      var s2 := s.(bitstream := b2);
      TickBit(s2, false, false);
      GotBitIgnoresSamples(s, false, b2);
      Feed3(s, true, false, false);
    } else if wide {
      WideOneBitPatterns(b);
      var b1 := Shift(b, true); var b2 := Shift(b1, false); var b3 := Shift(b2, true);
      var b4 := Shift(b3, false);
      TickQuiet(s, true);
      TickQuiet(s.(bitstream := b1), false);
      TickQuiet(s.(bitstream := b2), true);
      TickQuiet(s.(bitstream := b3), false);
      var s4 := s.(bitstream := b4);
      TickBit(s4, false, true);
      GotBitIgnoresSamples(s, true, b4);
      assert [true, false, true, false, false] == [true, false] + [true, false, false];
      FeedAppend(s, [true, false], [true, false, false]);
      Feed2(s, true, false);
      Feed3(s.(bitstream := b2), true, false, false);
    } else {
      OneBitPatterns(b);
      var b1 := Shift(b, true); var b2 := Shift(b1, true); var b3 := Shift(b2, false);
      TickQuiet(s, true);
      TickQuiet(s.(bitstream := b1), true);
      TickQuiet(s.(bitstream := b2), false);
      var s3 := s.(bitstream := b3);
      TickBit(s3, false, true);
      GotBitIgnoresSamples(s, true, b3);
      assert [true, true, false, false] == [true, true] + [false, false];
      FeedAppend(s, [true, true], [false, false]);
      Feed2(s, true, true);
      Feed2(s.(bitstream := b2), false, false);
    }
  }

  /** The sync preamble plants the sentinel whatever came before; the stored byte is untouched. */
  lemma SyncDecodes(s: Rx)
    ensures var r := Feed(s, SymbolSamples(SyncPulses, false));
      && r.inputBuffer == 1
      && r.lastValue == s.lastValue
      && (r.errorBits == s.errorBits || r.errorBits == s.errorBits | BV(ERRORBIT_NOISE))
      && r.bitstream & 3 == 0
  {
    SyncPatterns(s.bitstream);
    var s1 := Tick(s, true);
    PulseTick(s);
    var s2 := Tick(s1, true);
    PulseTick(s1);
    var s3 := Tick(s2, true);
    assert s3 == s2.(inputBuffer := 1, bitstream := Shift(s2.bitstream, true));
    var s4 := Tick(s3, true);
    assert s4 == s3.(bitstream := Shift(s3.bitstream, true));
    TickQuiet(s4, false);
    var s5 := Tick(s4, false);
    TickQuiet(s5, false);
    assert [true, true, true, true, false, false] == [true, true, true] + [true, false, false];
    FeedAppend(s, [true, true, true], [true, false, false]);
    Feed3(s, true, true, true);
    Feed3(s3, true, false, false);
  }

  /** Data bits arriving while the sentinel is still below bit 7 are shifted in, front first. */
  lemma {:induction false} DataBitsDecode(s: Rx, bs: seq<bool>, wide: seq<bool>)
    requires |wide| == |bs| <= 7
    requires s.bitstream & 3 == 0
    requires SentinelAt(s.inputBuffer, 7 - |bs|)
    ensures var r := Feed(s, Samples(DataSymbols(bs), wide));
      && r.inputBuffer == ShiftIn(s.inputBuffer, bs)
      && r.lastValue == s.lastValue
      && r.errorBits == s.errorBits
      && r.bitstream & 3 == 0
    decreases bs
  {
    if bs == [] {
      assert Samples(DataSymbols(bs), wide) == [];
    } else {
      var sym := SymbolSamples(DataBit(bs[0]), wide[0]);
      var rest := Samples(DataSymbols(bs[1..]), wide[1..]);
      DataSamplesCons(bs, wide);
      FeedAppend(s, sym, rest);
      DataBitStep(s, bs[0], wide[0], |bs|);
      DataBitsDecode(Feed(s, sym), bs[1..], wide[1..]);
    }
  }

  lemma DataSamplesCons(bs: seq<bool>, wide: seq<bool>)
    requires |wide| == |bs| > 0
    ensures Samples(DataSymbols(bs), wide) ==
      SymbolSamples(DataBit(bs[0]), wide[0]) + Samples(DataSymbols(bs[1..]), wide[1..])
  {
    assert DataSymbols(bs)[0] == DataBit(bs[0]);
    assert DataSymbols(bs)[1..] == DataSymbols(bs[1..]);
  }

  /** One data bit while `n` bits are still to come before the parity bit. */
  lemma DataBitStep(s: Rx, bit: bool, wide: bool, n: nat)
    requires 1 <= n <= 7 && s.bitstream & 3 == 0 && SentinelAt(s.inputBuffer, 7 - n)
    ensures var t := Feed(s, SymbolSamples(DataBit(bit), wide));
      && t.inputBuffer == Shift(s.inputBuffer, bit)
      && SentinelAt(t.inputBuffer, 8 - n)
      && t.lastValue == s.lastValue
      && t.errorBits == s.errorBits
      && t.bitstream & 3 == 0
  {
    var t := Feed(s, SymbolSamples(DataBit(bit), wide));
    DataSymbolDecodes(s, bit, wide);
    DataBitShifted(s, bit);
    assert t == s.(inputBuffer := Shift(s.inputBuffer, bit), bitstream := t.bitstream);
    SentinelStep(s.inputBuffer, n, bit);
  }

  /** The highest set bit of `x` is bit `pos`: where the sentinel planted by the sync has got to. */
  predicate SentinelAt(x: byte, pos: nat)
  {
    match pos
    case 0 => x == 1
    case 1 => x >> 1 == 1
    case 2 => x >> 2 == 1
    case 3 => x >> 3 == 1
    case 4 => x >> 4 == 1
    case 5 => x >> 5 == 1
    case 6 => x >> 6 == 1
    case 7 => x >> 7 == 1
    case _ => false
  }

  /** Below bit 7 the sentinel moves up one place per data bit, and no bit is lost. */
  lemma SentinelStep(x: byte, n: nat, b: bool)
    requires 1 <= n <= 7 && SentinelAt(x, 7 - n)
    ensures x & 0x80 == 0 && x != 0
    ensures SentinelAt(Shift(x, b), 8 - n)
    ensures OnesIn(Shift(x, b)) == OnesIn(x) + (if b then 1 else 0)
  {
  }

  /** Shifting bits behind the sentinel adds their ones to its own and brings the sentinel to bit 7. */
  lemma {:induction false} ShiftInOnes(x: byte, bs: seq<bool>)
    requires |bs| <= 7 && SentinelAt(x, 7 - |bs|)
    ensures OnesIn(ShiftIn(x, bs)) == OnesIn(x) + CountTrue(bs)
    ensures ShiftIn(x, bs) & 0x80 != 0
    decreases bs
  {
    if bs != [] {
      SentinelStep(x, |bs|, bs[0]);
      ShiftInOnes(Shift(x, bs[0]), bs[1..]);
    }
  }

  /** The seven data bits of a byte, shifted in behind the sentinel, give back the byte with bit 7 set. */
  lemma ShiftInDataBits(data: byte)
    ensures ShiftIn(1, DataBits(data)) == 0x80 | (data & 0x7F)
  {
    var bs := DataBits(data);
    var x1 := Shift(1, bs[0]);
    var x2 := Shift(x1, bs[1]);
    var x3 := Shift(x2, bs[2]);
    var x4 := Shift(x3, bs[3]);
    var x5 := Shift(x4, bs[4]);
    var x6 := Shift(x5, bs[5]);
    var x7 := Shift(x6, bs[6]);
    assert ShiftIn(1, bs) == ShiftIn(x1, bs[1..]);
    assert ShiftIn(x1, bs[1..]) == ShiftIn(x2, bs[2..]) by { assert bs[1..][1..] == bs[2..]; }
    assert ShiftIn(x2, bs[2..]) == ShiftIn(x3, bs[3..]) by { assert bs[2..][1..] == bs[3..]; }
    assert ShiftIn(x3, bs[3..]) == ShiftIn(x4, bs[4..]) by { assert bs[3..][1..] == bs[4..]; }
    assert ShiftIn(x4, bs[4..]) == ShiftIn(x5, bs[5..]) by { assert bs[4..][1..] == bs[5..]; }
    assert ShiftIn(x5, bs[5..]) == ShiftIn(x6, bs[6..]) by { assert bs[5..][1..] == bs[6..]; }
    assert ShiftIn(x6, bs[6..]) == ShiftIn(x7, []) by { assert bs[6..][1..] == []; }
    assert x7 == 0x80 | (data & 0x7F) by {
      assert bs[0] == TestBit(data, 6) && bs[1] == TestBit(data, 5) && bs[2] == TestBit(data, 4);
      assert bs[3] == TestBit(data, 3) && bs[4] == TestBit(data, 2) && bs[5] == TestBit(data, 1);
      assert bs[6] == TestBit(data, 0);
      SevenBits(data);
    }
  }

  /** Bits 6..0 of a byte, shifted in behind a sentinel, reassemble the byte. */
  lemma SevenBits(data: byte)
    ensures Shift(Shift(Shift(Shift(Shift(Shift(Shift(1, TestBit(data, 6)), TestBit(data, 5)), TestBit(data, 4)),
      TestBit(data, 3)), TestBit(data, 2)), TestBit(data, 1)), TestBit(data, 0)) == 0x80 | (data & 0x7F)
  {
  }

  /** The samples of a frame: the sync, the seven data symbols, the parity symbol. */
  lemma FrameSamplesSplit(bs: seq<bool>, parity: bool, wide: seq<bool>)
    requires |bs| == 7 && |wide| == 9
    ensures Samples(FrameOf(bs, parity), wide) ==
      SymbolSamples(SyncPulses, false) + (Samples(DataSymbols(bs), wide[1..8]) + SymbolSamples(DataBit(parity), wide[8]))
  {
    var dataSyms := DataSymbols(bs);
    var tail := dataSyms + [DataBit(parity)];
    assert FrameOf(bs, parity) == [SyncPulses] + tail;
    assert wide == wide[..1] + wide[1..];
    SamplesAppend([SyncPulses], wide[..1], tail, wide[1..]);
    assert wide[1..] == wide[1..8] + wide[8..];
    SamplesAppend(dataSyms, wide[1..8], [DataBit(parity)], wide[8..]);
    assert Samples([SyncPulses], wide[..1]) == SymbolSamples(SyncPulses, false) by {
      assert [SyncPulses][1..] == [];
    }
    assert Samples([DataBit(parity)], wide[8..]) == SymbolSamples(DataBit(parity), wide[8]) by {
      assert [DataBit(parity)][1..] == [];
    }
  }

  /** The parity symbol, once the sentinel has reached bit 7. */
  lemma ParitySymbolDecodes(t: Rx, parity: bool, wide: bool)
    requires t.bitstream & 3 == 0 && t.inputBuffer & 0x80 != 0
    ensures var r := Feed(t, SymbolSamples(DataBit(parity), wide));
      && r.inputBuffer == 0
      && (parity == (OnesIn(t.inputBuffer & 0x7F) % 2 == 1) ==> r.lastValue == t.inputBuffer)
      && (parity != (OnesIn(t.inputBuffer & 0x7F) % 2 == 1) ==>
            r.lastValue == t.lastValue && r.errorBits & BV(ERRORBIT_PARITY) != 0)
  {
    DataSymbolDecodes(t, parity, wide);
    ParityCheck(t, parity);
    SetBitSets(t.errorBits, ERRORBIT_PARITY);
  }

  /** `SBI` sets the bit it names. */
  lemma SetBitSets(reg: byte, pos: BitPos)
    ensures (reg | BV(pos)) & BV(pos) != 0
  {
  }

  /**
   * Reception of any frame, from any starting state: the receiver ends
   * searching for sync again, and it stores the assembled byte exactly when
   * the parity bit matches the XOR of the seven data bits; otherwise it
   * flags a parity error and keeps the byte it had.
   */
  lemma FrameDecodes(s: Rx, bs: seq<bool>, parity: bool, wide: seq<bool>)
    requires |bs| == 7 && |wide| == 9
    ensures var r := Feed(s, Samples(FrameOf(bs, parity), wide));
      && r.inputBuffer == 0
      && (parity == ParityOf(bs) ==> r.lastValue == ShiftIn(1, bs))
      && (parity != ParityOf(bs) ==> r.lastValue == s.lastValue && r.errorBits & BV(ERRORBIT_PARITY) != 0)
  {
    var syncPart := SymbolSamples(SyncPulses, false);
    var dataPart := Samples(DataSymbols(bs), wide[1..8]);
    var parityPart := SymbolSamples(DataBit(parity), wide[8]);
    FrameSamplesSplit(bs, parity, wide);
    FeedAppend(s, syncPart, dataPart + parityPart);
    var s1 := Feed(s, syncPart);
    SyncDecodes(s);
    FeedAppend(s1, dataPart, parityPart);
    var s2 := Feed(s1, dataPart);
    assert Feed(s, Samples(FrameOf(bs, parity), wide)) == Feed(s2, parityPart);
    DataBitsDecode(s1, bs, wide[1..8]);
    assert s2.inputBuffer == ShiftIn(1, bs) && s2.lastValue == s.lastValue;
    SentinelReachesTop(bs);
    ParityOfCounts(bs);
    ParitySymbolDecodes(s2, parity, wide[8]);
  }

  /** After seven data bits the sentinel is in bit 7 and the data bits below it carry their ones. */
  lemma SentinelReachesTop(bs: seq<bool>)
    requires |bs| == 7
    ensures ShiftIn(1, bs) & 0x80 != 0
    ensures OnesIn(ShiftIn(1, bs) & 0x7F) == CountTrue(bs)
  {
    ShiftInOnes(1, bs);
    TopBitOnes(ShiftIn(1, bs));
  }

  /** Round trip: the frame the transmitter sends for `data`, received through the idealised channel with any skew, stores `0x80 | (data & 0x7F)`. */
  lemma RoundTrip(s: Rx, data: byte, wide: seq<bool>)
    requires |wide| == 9
    ensures var r := Feed(s, Samples(Frame(data), wide));
      r.lastValue == 0x80 | (data & 0x7F) && r.inputBuffer == 0
  {
    FrameDecodes(s, DataBits(data), ParityOf(DataBits(data)), wide);
    ShiftInDataBits(data);
  }

  /** A single flipped data bit is caught: the byte is not stored and a parity error is flagged. */
  lemma SingleBitErrorDetected(s: Rx, data: byte, i: nat, wide: seq<bool>)
    requires i < 7 && |wide| == 9
    ensures var bs := DataBits(data);
      var corrupted := bs[i := !bs[i]];
      var r := Feed(s, Samples(FrameOf(corrupted, ParityOf(bs)), wide));
      r.lastValue == s.lastValue && r.errorBits & BV(ERRORBIT_PARITY) != 0 && r.inputBuffer == 0
  {
    var bs := DataBits(data);
    var corrupted := bs[i := !bs[i]];
    FlipChangesParity(bs, i);
    FrameDecodes(s, corrupted, ParityOf(bs), wide);
  }

  /** Flipping one bit flips the XOR. */
  lemma {:induction false} FlipChangesParity(bs: seq<bool>, i: nat)
    requires i < |bs|
    ensures ParityOf(bs[i := !bs[i]]) == !ParityOf(bs)
  {
    if i > 0 {
      assert bs[i := !bs[i]][1..] == bs[1..][i - 1 := !bs[i]];
      FlipChangesParity(bs[1..], i - 1);
    } else {
      assert bs[i := !bs[i]][1..] == bs[1..];
    }
  }

  // ---------------------------------------------------------------------
  // The receive-state records, updated in place

  /** `ir_rx_state_t`: the receive state of one face. */
  class RxState {
    /** The face this record belongs to: its index in `ir_rx_states`. */
    ghost const face: nat

    var bitstream: byte
    var inputBuffer: byte
    var lastValue: byte
    var errorBits: byte

    function Value(): Rx
      reads this
    {
      Rx(bitstream, inputBuffer, lastValue, errorBits)
    }

    /** Records live in zero-initialised storage. */
    constructor (ghost face: nat)
      ensures Value() == Rx(0, 0, 0, 0) && this.face == face
    {
      this.face := face;
      bitstream, inputBuffer, lastValue, errorBits := 0, 0, 0, 0;
    }

    method GotByte(b: byte)
      modifies this
      ensures Value() == GotByteStep(old(Value()), b)
    {
      if lastValue != 0 {
        errorBits := SetBit(errorBits, ERRORBIT_OVERFLOW);
      }
      lastValue := b;
    }

    method GotBit(bit: bool)
      modifies this
      ensures Value() == GotBitStep(old(Value()), bit)
    {
      ghost var before := Value();
      var buffer := inputBuffer;
      if buffer != 0 {
        if buffer & 0x80 != 0 {
          ParityOutcome(before, bit);
          if OddParity(buffer) != B(bit) {
            GotByte(buffer);
          } else {
            errorBits := SetBit(errorBits, ERRORBIT_PARITY);
          }
          buffer := 0;
        } else {
          buffer := Shift(buffer, bit);
        }
        inputBuffer := buffer;
      }
    }

    /** The body of the `updateIRComs` loop for one face: shift in the sample and act on the pattern. */
    method Update(bit: bool)
      modifies this
      ensures Value() == Tick(old(Value()), bit)
    {
      var bitstream := this.bitstream;
      bitstream := Shift(bitstream, bit);
      Dispatch(bitstream);
      this.bitstream := bitstream;
    }

    /** The pattern tests of `updateIRComs`, in the source's order. */
    method Dispatch(bitstream: byte)
      modifies this
      ensures Value() == Act(old(Value()), Classify(bitstream))
    {
      if bitstream & 0x1F == 0x04 {
        GotBit(false);
      } else if bitstream & 0x3F == 0x0C {
        GotBit(true);
      } else if bitstream & 0x7F == 0x14 {
        GotBit(true);
      } else if bitstream & 0x07 == 0x07 {
        Sync();
      } else {
        if inputBuffer != 0 {
          if bitstream & 0x1F == 0x00 {
            Reset(ERRORBIT_DROPOUT);
          } else if bitstream & 0x1F == 0x15 {
            Reset(ERRORBIT_NOISE);
          }
        }
      }
    }

    method Sync()
      modifies this
      ensures Value() == SyncStep(old(Value()))
    {
      inputBuffer := 1;
    }

    method Reset(reason: BitPos)
      modifies this
      ensures Value() == ResetStep(old(Value()), reason)
    {
      inputBuffer := 0;
      errorBits := SetBit(errorBits, reason);
    }
  }

  /** `ir_rx_states[IRLED_COUNT]` and the functions of irdata.cpp that use it. */
  class Transceiver {
    const states: array<RxState>

    ghost predicate Valid()
      reads this, states
    {
      && states.Length == IRLED_COUNT
      && forall i :: 0 <= i < states.Length ==> states[i].face == i
    }

    ghost function Records(): set<object>
      reads this, states
    {
      set i | 0 <= i < states.Length :: states[i]
    }

    constructor ()
      ensures Valid() && fresh(states) && fresh(Records())
      ensures forall i :: 0 <= i < IRLED_COUNT ==> states[i].Value() == Rx(0, 0, 0, 0)
    {
      var r0 := new RxState(0);
      var r1 := new RxState(1);
      var r2 := new RxState(2);
      var r3 := new RxState(3);
      var r4 := new RxState(4);
      var r5 := new RxState(5);
      states := new RxState[6] [r0, r1, r2, r3, r4, r5];
    }

    /**
     * `updateIRComs`: one tick.  `bits` is the sample mask the transceiver
     * returned; faces are walked from 5 down to 0 with a bit walker.  Each
     * face steps exactly as `Tick` says, on its own sample bit only.
     */
    method UpdateIRComs(bits: byte)
      requires Valid()
      modifies Records()
      ensures forall k :: 0 <= k < IRLED_COUNT ==>
        states[k].Value() == Tick(old(states[k].Value()), SampleBit(bits, k))
    {
      var idx := 5;
      var bitwalker: byte := 0x20;
      while bitwalker != 0
        invariant -1 <= idx <= 5
        invariant bitwalker == if idx >= 0 then FaceBit(idx) else 0
        invariant forall k :: idx < k < IRLED_COUNT ==>
          states[k].Value() == Tick(old(states[k].Value()), SampleBit(bits, k))
        invariant forall k :: 0 <= k <= idx ==> states[k].Value() == old(states[k].Value())
        decreases idx + 1
      {
        WalkerSample(bits, idx);
        var bit := bits & bitwalker != 0;
        var face := states[idx];
        assert forall k :: 0 <= k < IRLED_COUNT && k != idx ==> states[k] != face;
        face.Update(bit);
        WalkerStep(idx);
        idx := idx - 1;
        bitwalker := bitwalker >> 1;
      }
    }

    /** `irGetErrorBits`: snapshot and clear one face's error bits. */
    method GetErrorBits(led: nat) returns (bits: byte)
      requires Valid() && led < IRLED_COUNT
      modifies states[led]
      ensures bits == old(states[led].errorBits)
      ensures states[led].Value() == old(states[led].Value()).(errorBits := 0)
    {
      var ptr := states[led];
      bits := ptr.errorBits;
      ptr.errorBits := 0;
    }

    /** `irIsReadyOnFace`: a decoded byte is waiting. */
    method IsReadyOnFace(led: nat) returns (ready: bool)
      requires Valid() && led < IRLED_COUNT
      ensures ready <==> states[led].lastValue != 0
    {
      ready := states[led].lastValue != 0;
    }

    /** `irGetData` once a byte is waiting: the seven data bits, and the slot is emptied. */
    method GetData(led: nat) returns (d: byte)
      requires Valid() && led < IRLED_COUNT
      requires states[led].lastValue != 0
      modifies states[led]
      ensures d == old(states[led].lastValue) & 0x7F && d < 0x80
      ensures states[led].Value() == old(states[led].Value()).(lastValue := 0)
    {
      var ptr := states[led];
      var value := ptr.lastValue;
      ptr.lastValue := 0;
      d := value & 0x7F;
    }

    /** `irSendData`: the frame for `data`, sent on one face only. */
    static method SendData(face: nat, data: byte) returns (mask: byte, frame: seq<Symbol>)
      requires face < IRLED_COUNT
      ensures mask == FaceBit(face)
      ensures forall k :: 0 <= k < 8 ==> (SampleBit(mask, k) <==> k == face)
      ensures frame == Frame(data)
    {
      mask := FaceBit(face);
      frame := BitmaskSendData(data);
    }

    /** The first mask of `irBroadcastData`: faces with a frame in progress. */
    method RxInProgressMask() returns (bitmask: byte)
      requires Valid()
      ensures bitmask & !ALL_IR_BITS == 0
      ensures forall k :: 0 <= k < IRLED_COUNT ==> (SampleBit(bitmask, k) <==> states[k].inputBuffer != 0)
    {
      bitmask := 0;
      var idx := 5;
      var bitwalker: byte := 0x20;
      while bitwalker != 0
        invariant -1 <= idx <= 5
        invariant bitwalker == if idx >= 0 then FaceBit(idx) else 0
        invariant bitmask & !ALL_IR_BITS == 0
        invariant forall k :: 0 <= k <= idx ==> !SampleBit(bitmask, k)
        invariant forall k :: idx < k < IRLED_COUNT ==> (SampleBit(bitmask, k) <==> states[k].inputBuffer != 0)
        decreases idx + 1
      {
        ghost var prev := bitmask;
        if states[idx].inputBuffer != 0 {
          MaskAddInRange(prev, idx);
          bitmask := bitmask | bitwalker;
          forall k | 0 <= k < 8
            ensures SampleBit(bitmask, k) <==> SampleBit(prev, k) || k == idx
          {
            MaskAdd(prev, idx, k);
          }
        }
        WalkerStep(idx);
        idx := idx - 1;
        bitwalker := bitwalker >> 1;
      }
    }

    /**
     * `irBroadcastData`: the byte is sent twice, first to the faces whose
     * receiver has a frame in progress, then to all the others; each face
     * is in exactly one of the two masks.
     */
    method BroadcastData(data: byte) returns (first: byte, second: byte, frame: seq<Symbol>)
      requires Valid()
      ensures frame == Frame(data)
      ensures first & second == 0 && first | second == ALL_IR_BITS
      ensures forall k :: 0 <= k < IRLED_COUNT ==>
        (SampleBit(first, k) <==> states[k].inputBuffer != 0) &&
        (SampleBit(second, k) <==> states[k].inputBuffer == 0)
    {
      first := RxInProgressMask();
      second := !first & ALL_IR_BITS;
      frame := BitmaskSendData(data);
    }
  }
}
