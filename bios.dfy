/**
 * The BlinkBIOS side of the core: the shared IR receive records, the millis
 * and button blocks, the pixel buffer and the BIOS vectors blinklib calls.
 * Their definitions live in BIOS headers outside this model, so the vectors
 * are methods that only record what was asked of them, and the work the BIOS
 * does in its interrupts is an explicit environment step.
 */
module Bios {
  import opened Common

  /** BIOS packet type byte of a user-data packet (value defined by the BIOS). */
  const IR_USER_DATA_HEADER_BYTE: byte

  /** Button flags the BIOS raises in the button block (values defined by the BIOS). */
  const BUTTON_BITFLAG_PRESSED: byte
  const BUTTON_BITFLAG_RELEASED: byte
  const BUTTON_BITFLAG_SINGLECLICKED: byte
  const BUTTON_BITFLAG_DOUBLECLICKED: byte
  const BUTTON_BITFLAG_MULITCLICKED: byte
  const BUTTON_BITFLAG_LONGPRESSED: byte
  const BUTTON_BITFLAG_3SECPRESSED: byte

  /** How the BIOS says the current game was loaded (values defined by the BIOS). */
  const BLINKBIOS_START_STATE_DOWNLOAD_SUCCESS: byte
  const BLINKBIOS_START_STATE_WE_ARE_ROOT: byte

  /** Size of the datagram slots (blinklib_ir.h). */
  const IR_DATAGRAM_LEN: nat := 16

  /**
   * Size of a BIOS receive buffer.  blinklib_ir.cpp refuses to build unless it
   * is at least IR_DATAGRAM_LEN; a received datagram (the buffer minus type,
   * value and header bytes) must also fit the 16-byte inbound slot.
   */
  type RxPacketSize = n: nat | IR_DATAGRAM_LEN <= n <= IR_DATAGRAM_LEN + 3 witness 19

  const IR_RX_PACKET_SIZE: RxPacketSize

  /** Number of LEDs in the pixel buffer (value defined by the BIOS). */
  const PIXEL_COUNT: nat

  /** A 16-bit packed pixel colour (`pixelColor_t`). */
  type Pixel = bv16

  /**
   * One face's receive record: `packetBufferReady`, `packetBuffer` (whose
   * byte 0 is the BIOS packet type) and `packetBufferLen`.
   */
  datatype RxRecord = RxRecord(ready: bool, buffer: seq<byte>, len: u8)

  /** A full-size buffer, and a ready packet is between 1 byte and the buffer size long. */
  predicate RecordOk(r: RxRecord)
  {
    |r.buffer| == IR_RX_PACKET_SIZE && (r.ready ==> 1 <= r.len <= IR_RX_PACKET_SIZE)
  }

  /**
   * What the core asks the BIOS to do, in order: packets handed to the IR send
   * vector, and the colours shown with `SetColorNow` during the warm-sleep
   * animations (only the brightness counter is kept).
   */
  datatype Event =
    | Sent(face: nat, data: seq<byte>)
    | ShowSleep(level: u8)
    | ShowOff
    | ShowWake(level: u8)

  /** A packet the BIOS receive interrupt places in a face's buffer. */
  datatype Delivery = Delivery(face: nat, buffer: seq<byte>, len: u8)

  /**
   * Everything the BIOS interrupts may do between two polls of the main
   * program: deliver packets, raise button flags, clear `wokeFlag` on a
   * hardware wake, and advance the millisecond counter.
   */
  datatype EnvStep = EnvStep(deliveries: seq<Delivery>, buttonBits: byte, woke: bool, elapsed: u32)

  predicate DeliveryOk(d: Delivery)
  {
    d.face < FACE_COUNT && RecordOk(RxRecord(true, d.buffer, d.len))
  }

  predicate StepOk(e: EnvStep)
  {
    forall i :: 0 <= i < |e.deliveries| ==> DeliveryOk(e.deliveries[i])
  }

  /** The BIOS-visible state, less the pixel buffer (kept in an array). */
  datatype BiosState = BiosState(
    rx: seq<RxRecord>,
    millis: u32,
    buttonFlags: byte,
    wokeFlag: byte,
    startState: byte,
    events: seq<Event>,
    postpones: nat)

  predicate RxOk(rx: seq<RxRecord>)
  {
    |rx| == FACE_COUNT && forall f :: 0 <= f < |rx| ==> RecordOk(rx[f])
  }

  /** The receive records with face `f`'s packet consumed. */
  function Consumed(rx: seq<RxRecord>, f: nat): (r: seq<RxRecord>)
    requires RxOk(rx) && f < FACE_COUNT
    ensures RxOk(r) && !r[f].ready
    ensures forall g :: 0 <= g < FACE_COUNT && g != f ==> r[g] == rx[g]
    ensures r[f].buffer == rx[f].buffer && r[f].len == rx[f].len
  {
    rx[f := rx[f].(ready := false)]
  }

  /** The receive records with every ready flag cleared (`clear_packet_buffers`). */
  function AllConsumed(rx: seq<RxRecord>): (r: seq<RxRecord>)
    requires RxOk(rx)
    ensures RxOk(r)
    ensures forall f :: 0 <= f < FACE_COUNT ==> !r[f].ready && r[f].buffer == rx[f].buffer && r[f].len == rx[f].len
  {
    seq(|rx|, f requires 0 <= f < |rx| => rx[f].(ready := false))
  }

  /** The receive records after a sequence of deliveries, later ones overwriting earlier ones. */
  function Deliver(rx: seq<RxRecord>, ds: seq<Delivery>): (r: seq<RxRecord>)
    requires RxOk(rx)
    requires forall i :: 0 <= i < |ds| ==> DeliveryOk(ds[i])
    ensures RxOk(r)
    decreases |ds|
  {
    if ds == [] then rx
    else
      var d := ds[0];
      assert DeliveryOk(d);
      var next := rx[d.face := RxRecord(true, d.buffer, d.len)];
      assert forall f :: 0 <= f < |next| ==> RecordOk(next[f]);
      Deliver(next, ds[1..])
  }

  /** The BIOS state after one environment step. */
  function Evolve(s: BiosState, e: EnvStep): (r: BiosState)
    requires RxOk(s.rx) && StepOk(e)
    ensures RxOk(r.rx)
    ensures r.buttonFlags == s.buttonFlags | e.buttonBits
    ensures r.wokeFlag == if e.woke then 0 else s.wokeFlag
    ensures r.events == s.events && r.postpones == s.postpones && r.startState == s.startState
  {
    s.(rx := Deliver(s.rx, e.deliveries),
       buttonFlags := s.buttonFlags | e.buttonBits,
       wokeFlag := if e.woke then 0 else s.wokeFlag,
       millis := Wrap32(s.millis + e.elapsed))
  }

  class Bios {
    var rx: seq<RxRecord>
    var millis: u32
    var buttonFlags: byte
    var wokeFlag: byte
    var startState: byte
    var events: seq<Event>
    var postpones: nat
    const pixels: array<Pixel>

    function State(): BiosState
      reads this
    {
      BiosState(rx, millis, buttonFlags, wokeFlag, startState, events, postpones)
    }

    predicate Valid()
      reads this
    {
      RxOk(rx) && pixels.Length == PIXEL_COUNT
    }

    constructor (initial: BiosState, screen: array<Pixel>)
      requires RxOk(initial.rx) && screen.Length == PIXEL_COUNT
      ensures Valid() && State() == initial && pixels == screen
    {
      rx, millis, buttonFlags, wokeFlag := initial.rx, initial.millis, initial.buttonFlags, initial.wokeFlag;
      startState, events, postpones := initial.startState, initial.events, initial.postpones;
      pixels := screen;
    }

    /**
     * BLINKBIOS_IRDATA_SEND_PACKET_VECTOR: the packet is recorded; whether the
     * BIOS took it (false while a receive is in progress on the face) is not
     * known to the core.
     */
    method SendPacket(face: nat, data: seq<byte>) returns (accepted: bool)
      modifies this
      ensures State() == old(State()).(events := old(events) + [Sent(face, data)])
    {
      events := events + [Sent(face, data)];
      accepted := *;
    }

    /** BLINKBIOS_POSTPONE_SLEEP_VECTOR: restarts the BIOS inactivity countdown. */
    method PostponeSleep()
      modifies this
      ensures State() == old(State()).(postpones := old(postpones) + 1)
    {
      postpones := postpones + 1;
    }

    /** `SetColorNow`: the colour is recorded and the pixel buffer is overwritten. */
    method ShowColor(shade: Event)
      requires shade.ShowSleep? || shade.ShowOff? || shade.ShowWake?
      modifies this, pixels
      ensures State() == old(State()).(events := old(events) + [shade])
    {
      events := events + [shade];
      for i := 0 to pixels.Length
        invariant State() == old(State()).(events := old(events) + [shade])
      {
        pixels[i] := *;
      }
    }

    /** Marks face `f`'s packet buffer as read. */
    method Consume(f: nat)
      requires Valid() && f < FACE_COUNT
      modifies this
      ensures Valid()
      ensures State() == old(State()).(rx := Consumed(old(rx), f))
    {
      rx := rx[f := rx[f].(ready := false)];
    }

    /** What the BIOS interrupts do while the main program waits. */
    method Environment(e: EnvStep)
      requires Valid() && StepOk(e)
      modifies this
      ensures Valid()
      ensures State() == Evolve(old(State()), e)
    {
      rx := Deliver(rx, e.deliveries);
      buttonFlags := buttonFlags | e.buttonBits;
      if e.woke {
        wokeFlag := 0;
      }
      millis := Wrap32(millis + e.elapsed);
    }
  }
}
