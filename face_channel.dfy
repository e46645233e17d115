/**
 * blinklib_ir.cpp: the per-face channel built on the BIOS IR packets.  Each
 * face keeps a `FaceData` record: the last value received, the value to
 * send, a 16-byte datagram slot each way, expiry and send deadlines, and a
 * one-byte `Header` through which datagrams are acknowledged by sequence
 * number.  `ReceiveFaceData` consumes the packet waiting on each face and
 * `SendFaceData` sends on each face whose send deadline has passed.
 */
module FaceChannel {
  import opened Common
  import opened Timers
  import opened Bios
  import opened LedState
  import opened WarmSleep
  import opened IrHeader

  /**
   * One face's channel state.  The two `Timer` members are kept as their
   * deadlines and updated with the same `Timers` functions.
   */
  datatype FaceData = FaceData(
    inValue: byte,
    inDatagramData: seq<byte>,
    inDatagramLen: u8,
    expireTime: u32,
    outValue: byte,
    header: Header,
    outDatagramData: seq<byte>,
    outDatagramLen: u8,
    sendTime: u32,
    sendHeader: bool)

  predicate FaceOk(fd: FaceData)
  {
    |fd.inDatagramData| == IR_DATAGRAM_LEN && |fd.outDatagramData| == IR_DATAGRAM_LEN &&
    fd.inDatagramLen <= IR_DATAGRAM_LEN && fd.outDatagramLen <= IR_DATAGRAM_LEN
  }

  predicate FacesOk(faces: seq<FaceData>)
  {
    |faces| == FACE_COUNT && forall f :: 0 <= f < FACE_COUNT ==> FaceOk(faces[f])
  }

  /**
   * A face as the zero-filled static table starts it: no value seen, empty
   * datagram slots, sequence numbers 0 and both deadlines 0.
   */
  const ZEROED_FACE: FaceData :=
    FaceData(0, seq(IR_DATAGRAM_LEN, _ => 0), 0, 0, 0, Header(0, 0, false, false), seq(IR_DATAGRAM_LEN, _ => 0), 0, 0, false)

  /**
   * A tile fresh from reset: every face reads 0, the value the source
   * promises until a neighbour is seen, and counts as expired, so the tile is
   * alone, as soon as the clock is past 0; the zero header byte reads back
   * as the zero header.
   */
  lemma ZeroedFaceAlone(now: u32)
    ensures FaceOk(ZEROED_FACE) && ZEROED_FACE.inValue == 0 && ZEROED_FACE.inDatagramLen == 0
    ensures ExpiredAt(ZEROED_FACE.expireTime, now) <==> now > 0
    ensures Decode(0) == ZEROED_FACE.header
  {
  }

  /** `valid_data_received`: the BIOS packet type byte says user data. */
  predicate ValidDataReceived(r: RxRecord)
    requires RecordOk(r)
  {
    r.buffer[0] == IR_USER_DATA_HEADER_BYTE
  }

  /**
   * A user-data packet arriving on a face: the neighbour counts as present
   * for RX_EXPIRE_TIME_MS more, the face is due to send, and byte 1 (the first
   * byte after the BIOS type byte) is the neighbour's face value.
   */
  function Arrive(fd: FaceData, r: RxRecord, now: u32): (res: FaceData)
    requires RecordOk(r) && r.ready
  {
    fd.(expireTime := SetAt(now, RX_EXPIRE_TIME_MS), sendTime := SetAt(now, 0), inValue := r.buffer[1])
  }

  /**
   * A non-special header in byte 2: its `ack_sequence` may free the outbound
   * slot, and a payload after it is either a new datagram or a resend of the
   * last one acknowledged.
   */
  function Acknowledge(fd: FaceData, incoming: Header, r: RxRecord): (res: FaceData)
    requires FaceOk(fd) && RecordOk(r) && r.ready && r.len >= 3
    ensures FaceOk(res)
  {
    var acked := if incoming.ackSequence == fd.header.sequence then fd.(outDatagramLen := 0) else fd;
    if r.len <= 3 then acked
    else if incoming.sequence != acked.header.ackSequence then
      var n := r.len - 3;
      acked.(header := acked.header.(ackSequence := incoming.sequence),
             inDatagramLen := n,
             inDatagramData := r.buffer[3..3 + n] + acked.inDatagramData[n..])
    else acked.(sendHeader := true)
  }

  /**
   * One face's share of `ReceiveFaceData` for a ready packet: the new face
   * record and the request the packet makes.  `packetData` starts after the
   * BIOS type byte, so `packetDataLen` is `len - 1`, the face value is byte 1
   * of the buffer and the header byte 2.
   */
  function ReceiveOnFace(fd: FaceData, r: RxRecord, now: u32): (res: (FaceData, Request))
    requires FaceOk(fd) && RecordOk(r) && r.ready
    ensures FaceOk(res.0)
  {
    if !ValidDataReceived(r) then (fd, Quiet)
    else
      var seen := Arrive(fd, r, now);
      if r.len - 1 <= 1 then (seen, Quiet)
      else
        var incoming := Decode(r.buffer[2]);
        if incoming.nonSpecial then
          (Acknowledge(seen, incoming, r), if incoming.postponeSleep then Postpone else Quiet)
        else
          (seen, if r.buffer[1] == TRIGGER_WARM_SLEEP_SPECIAL_VALUE && r.buffer[2] == TRIGGER_WARM_SLEEP_SPECIAL_VALUE
                 then Sleep else Quiet)
  }

  /**
   * Everything `ReceiveFaceData` can change: the faces, the postpone lockout
   * deadline, the warm-sleep deadline and flag, and the BIOS state.
   */
  datatype World = World(faces: seq<FaceData>, lockout: u32, sleepTimer: u32, warmWoken: byte, bios: BiosState)

  predicate WorldOk(w: World)
  {
    FacesOk(w.faces) && RxOk(w.bios.rx)
  }

  /** Every face with its `postpone_sleep` flag raised. */
  function AllPostponing(faces: seq<FaceData>): (r: seq<FaceData>)
    ensures |r| == |faces|
    ensures forall f :: 0 <= f < |faces| ==> r[f] == faces[f].(header := faces[f].header.(postponeSleep := true))
  {
    seq(|faces|, f requires 0 <= f < |faces| => faces[f].(header := faces[f].header.(postponeSleep := true)))
  }

  /**
   * `MaybeEnableSendPostponeWarmSleep`: once the lockout has expired, re-arm
   * it, raise `postpone_sleep` on every face and push the warm sleep back.
   */
  function MaybeEnable(w: World, now: u32): (r: World)
  {
    if ExpiredAt(w.lockout, now) then
      w.(lockout := SetAt(now, SEND_POSTPONE_WARM_SLEEP_LOCKOUT_MS),
         faces := AllPostponing(w.faces),
         sleepTimer := SetAt(now, WARM_SLEEP_TIMEOUT_MS))
    else w
  }

  /** What face `f`'s ready packet does to the world, before its buffer is marked read. */
  function Handle(w: World, f: nat, now: u32, script: seq<EnvStep>): (r: World)
    requires WorldOk(w) && f < FACE_COUNT && ScriptOk(script) && w.bios.rx[f].ready
    ensures WorldOk(r)
  {
    var (fd, request) := ReceiveOnFace(w.faces[f], w.bios.rx[f], now);
    var updated := w.(faces := w.faces[f := fd]);
    match request
    case Quiet => updated
    case Postpone =>
      var m := MaybeEnable(updated, now);
      m.(bios := m.bios.(postpones := m.bios.postpones + 1))
    case Sleep =>
      updated.(bios := EnterResult(updated.bios, script), warmWoken := 1,
               sleepTimer := SetAt(now, WARM_SLEEP_TIMEOUT_MS))
  }

  /** The world after a postpone request (if the header carries one) and the header's acknowledgement on face `f`. */
  function AfterNormalHeader(w: World, f: nat, r: RxRecord, now: u32): (res: World)
    requires WorldOk(w) && f < FACE_COUNT && RecordOk(r) && r.ready && r.len >= 3
    ensures WorldOk(res)
  {
    var m := if Decode(r.buffer[2]).postponeSleep
             then var e := MaybeEnable(w, now); e.(bios := e.bios.(postpones := e.bios.postpones + 1))
             else w;
    m.(faces := m.faces[f := Acknowledge(m.faces[f], Decode(r.buffer[2]), r)])
  }

  /** The face record after a user-data packet's arrival, before its header is looked at. */
  function Arrived(w: World, f: nat, now: u32): (u: World)
    requires WorldOk(w) && f < FACE_COUNT && w.bios.rx[f].ready
    ensures WorldOk(u)
  {
    w.(faces := w.faces[f := Arrive(w.faces[f], w.bios.rx[f], now)])
  }

  /** `Handle` on a packet that is not user data. */
  lemma HandleForeign(w: World, f: nat, now: u32, script: seq<EnvStep>)
    requires WorldOk(w) && f < FACE_COUNT && ScriptOk(script) && w.bios.rx[f].ready
    requires !ValidDataReceived(w.bios.rx[f])
    ensures Handle(w, f, now, script) == w
  {
    assert w.faces[f := w.faces[f]] == w.faces;
  }

  /** `Handle` on a user-data packet with a special header. */
  lemma HandleNotNormal(w: World, f: nat, now: u32, script: seq<EnvStep>)
    requires WorldOk(w) && f < FACE_COUNT && ScriptOk(script) && w.bios.rx[f].ready
    requires ValidDataReceived(w.bios.rx[f])
    requires w.bios.rx[f].len - 1 <= 1 || !Decode(w.bios.rx[f].buffer[2]).nonSpecial
    ensures var r := w.bios.rx[f];
      var u := Arrived(w, f, now);
      Handle(w, f, now, script) ==
        if r.len - 1 > 1 && r.buffer[1] == TRIGGER_WARM_SLEEP_SPECIAL_VALUE && r.buffer[2] == TRIGGER_WARM_SLEEP_SPECIAL_VALUE
        then u.(bios := EnterResult(u.bios, script), warmWoken := 1, sleepTimer := SetAt(now, WARM_SLEEP_TIMEOUT_MS))
        else u
  {
  }

  /** Acknowledging commutes with raising the postpone flag, which it never reads or writes. */
  lemma AcknowledgeRaised(fd: FaceData, incoming: Header, r: RxRecord)
    requires FaceOk(fd) && RecordOk(r) && r.ready && r.len >= 3
    ensures var raised := fd.(header := fd.header.(postponeSleep := true));
      var acked := Acknowledge(fd, incoming, r);
      Acknowledge(raised, incoming, r) == acked.(header := acked.header.(postponeSleep := true))
  {
    var raised := fd.(header := fd.header.(postponeSleep := true));
    var a := if incoming.ackSequence == fd.header.sequence then fd.(outDatagramLen := 0) else fd;
    var b := if incoming.ackSequence == raised.header.sequence then raised.(outDatagramLen := 0) else raised;
    assert b == a.(header := a.header.(postponeSleep := true));
  }

  /** `Handle` on a user-data packet with a non-special header. */
  lemma HandleNormal(w: World, f: nat, now: u32, script: seq<EnvStep>)
    requires WorldOk(w) && f < FACE_COUNT && ScriptOk(script) && w.bios.rx[f].ready
    requires ValidDataReceived(w.bios.rx[f]) && w.bios.rx[f].len - 1 > 1 && Decode(w.bios.rx[f].buffer[2]).nonSpecial
    ensures Handle(w, f, now, script) == AfterNormalHeader(Arrived(w, f, now), f, w.bios.rx[f], now)
  {
    var r := w.bios.rx[f];
    var incoming := Decode(r.buffer[2]);
    var u := Arrived(w, f, now);
    var fd := u.faces[f];
    if incoming.postponeSleep && ExpiredAt(w.lockout, now) {
      var raised := fd.(header := fd.header.(postponeSleep := true));
      AcknowledgeRaised(fd, incoming, r);
      assert AllPostponing(u.faces[f := Acknowledge(fd, incoming, r)]) == AllPostponing(u.faces)[f := Acknowledge(raised, incoming, r)];
    }
  }

  /** `ReceiveFaceData` for face `f`: act on its packet, if one is ready, and mark it read. */
  function ReceiveStep(w: World, f: nat, now: u32, script: seq<EnvStep>): (r: World)
    requires WorldOk(w) && f < FACE_COUNT && ScriptOk(script)
    ensures WorldOk(r)
  {
    if !w.bios.rx[f].ready then w
    else
      var acted := Handle(w, f, now, script);
      acted.(bios := acted.bios.(rx := Consumed(acted.bios.rx, f)))
  }

  /** `ReceiveFaceData` over faces 0 to n - 1. */
  function ReceiveUpTo(w: World, now: u32, script: seq<EnvStep>, n: nat): (r: World)
    requires WorldOk(w) && n <= FACE_COUNT && ScriptOk(script)
    ensures WorldOk(r)
  {
    if n == 0 then w else ReceiveStep(ReceiveUpTo(w, now, script, n - 1), n - 1, now, script)
  }

  /**
   * `SendFaceData` for one face: when its send deadline has passed, mark the
   * header non-special, send `[outValue, header, outDatagramData...]` cut to
   * `1 + [header needed] + outDatagramLen` bytes, clear the header requests
   * only if the BIOS `accepted` it, and probe again 150 ms after `current`,
   * the clock reading taken after the send.
   */
  function SendOnFace(fd: FaceData, now: u32, current: u32, accepted: bool): (r: (FaceData, Option<seq<byte>>))
    requires FaceOk(fd)
    ensures FaceOk(r.0)
  {
    if !ExpiredAt(fd.sendTime, now) then (fd, None)
    else
      var marked := fd.(header := fd.header.(nonSpecial := true));
      var withHeader := marked.sendHeader || marked.header.postponeSleep || marked.outDatagramLen != 0;
      var len := 1 + (if withHeader then 1 else 0) + marked.outDatagramLen;
      var packet := ([marked.outValue, Encode(marked.header)] + marked.outDatagramData)[..len];
      var cleared := if accepted then marked.(sendHeader := false, header := marked.header.(postponeSleep := false)) else marked;
      (cleared.(sendTime := SetAt(now, Wrap32(current - now + TX_PROBE_TIME_MS))), Some(packet))
  }

  /** `SendFaceData` over faces 0 to n - 1: the faces and the packets handed to the BIOS, in order. */
  function SendUpTo(faces: seq<FaceData>, now: u32, clock: seq<u32>, accepted: seq<bool>, n: nat): (r: (seq<FaceData>, seq<Event>))
    requires FacesOk(faces) && |clock| == FACE_COUNT && |accepted| == FACE_COUNT && n <= FACE_COUNT
    ensures FacesOk(r.0)
  {
    if n == 0 then (faces, [])
    else
      var (fs, log) := SendUpTo(faces, now, clock, accepted, n - 1);
      var (fd, packet) := SendOnFace(fs[n - 1], now, clock[n - 1], accepted[n - 1]);
      (fs[n - 1 := fd], log + if packet.Some? then [Sent(n - 1, packet.value)] else [])
  }

  // ----- Properties of one face's receive step

  /** A packet whose BIOS type byte is not user data changes nothing but its ready flag. */
  lemma ForeignPacketIgnored(w: World, f: nat, now: u32, script: seq<EnvStep>)
    requires WorldOk(w) && f < FACE_COUNT && ScriptOk(script)
    requires w.bios.rx[f].ready && !ValidDataReceived(w.bios.rx[f])
    ensures ReceiveStep(w, f, now, script) == w.(bios := w.bios.(rx := Consumed(w.bios.rx, f)))
  {
  }

  /** A face with nothing ready is left exactly as it was. */
  lemma IdleFaceUntouched(w: World, f: nat, now: u32, script: seq<EnvStep>)
    requires WorldOk(w) && f < FACE_COUNT && ScriptOk(script) && !w.bios.rx[f].ready
    ensures ReceiveStep(w, f, now, script) == w
  {
  }

  /**
   * A user-data packet marks the neighbour present for 200 ms, makes the face
   * due to send as soon as the clock moves past now, and records the face
   * value.
   */
  lemma UserPacketSeen(fd: FaceData, r: RxRecord, now: u32)
    requires FaceOk(fd) && RecordOk(r) && r.ready && ValidDataReceived(r)
    ensures ReceiveOnFace(fd, r, now).0.expireTime == Wrap32(now + 200)
    ensures ReceiveOnFace(fd, r, now).0.sendTime == now
    ensures !ExpiredAt(ReceiveOnFace(fd, r, now).0.sendTime, now)
    ensures ReceiveOnFace(fd, r, now).0.inValue == r.buffer[1]
    ensures ReceiveOnFace(fd, r, now).0.outValue == fd.outValue
    ensures ReceiveOnFace(fd, r, now).0.header.sequence == fd.header.sequence
    ensures ReceiveOnFace(fd, r, now).0.header.postponeSleep == fd.header.postponeSleep
  {
  }

  /**
   * A normal (non-special) header acknowledges: an `ack_sequence` equal to the
   * face's own `sequence` frees the outbound slot; any other leaves it.
   */
  lemma AckClearsOutbound(fd: FaceData, r: RxRecord, now: u32)
    requires FaceOk(fd) && RecordOk(r) && r.ready && ValidDataReceived(r) && r.len >= 3
    requires Decode(r.buffer[2]).nonSpecial
    ensures Decode(r.buffer[2]).ackSequence == fd.header.sequence ==> ReceiveOnFace(fd, r, now).0.outDatagramLen == 0
    ensures Decode(r.buffer[2]).ackSequence != fd.header.sequence ==>
      ReceiveOnFace(fd, r, now).0.outDatagramLen == fd.outDatagramLen &&
      ReceiveOnFace(fd, r, now).0.outDatagramData == fd.outDatagramData
  {
  }

  /**
   * A datagram with a sequence number other than the one last acknowledged is
   * taken, overwriting the inbound slot whether or not it was read, and is
   * acknowledged from now on; one with the same number is a resend: the slot
   * is kept and only the header is asked for.
   */
  lemma DatagramAccepted(fd: FaceData, r: RxRecord, now: u32)
    requires FaceOk(fd) && RecordOk(r) && r.ready && ValidDataReceived(r) && r.len > 3
    requires Decode(r.buffer[2]).nonSpecial
    ensures var (res, _) := ReceiveOnFace(fd, r, now);
      var n := r.len - 3;
      if Decode(r.buffer[2]).sequence != fd.header.ackSequence then
        res.header.ackSequence == Decode(r.buffer[2]).sequence &&
        res.inDatagramLen == n && res.inDatagramData[..n] == r.buffer[3..r.len] &&
        res.inDatagramData[n..] == fd.inDatagramData[n..] && res.sendHeader == fd.sendHeader
      else
        res.header.ackSequence == fd.header.ackSequence && res.sendHeader &&
        res.inDatagramLen == fd.inDatagramLen && res.inDatagramData == fd.inDatagramData
  {
  }

  /** Receiving the same datagram packet twice takes it once: the second copy only asks for the header. */
  lemma ResendIgnored(fd: FaceData, r: RxRecord, now: u32)
    requires FaceOk(fd) && RecordOk(r) && r.ready && ValidDataReceived(r) && r.len > 3
    requires Decode(r.buffer[2]).nonSpecial
    ensures var once := ReceiveOnFace(fd, r, now).0;
      var twice := ReceiveOnFace(once, r, now).0;
      twice == once.(sendHeader := true)
  {
  }

  /**
   * The header's top bit decides: a non-special header passes a
   * postpone-sleep request on, a special one with both bytes
   * TRIGGER_WARM_SLEEP_SPECIAL_VALUE puts the tile to sleep.  The trigger
   * value has bit 7 clear, so a force-sleep packet always parses as special.
   */
  lemma RequestFromHeader(fd: FaceData, r: RxRecord, now: u32)
    requires FaceOk(fd) && RecordOk(r) && r.ready
    ensures ReceiveOnFace(fd, r, now).1 == Postpone <==>
      ValidDataReceived(r) && r.len >= 3 && Decode(r.buffer[2]).nonSpecial && Decode(r.buffer[2]).postponeSleep
    ensures ReceiveOnFace(fd, r, now).1 == Sleep <==>
      ValidDataReceived(r) && r.len >= 3 &&
      r.buffer[1] == TRIGGER_WARM_SLEEP_SPECIAL_VALUE && r.buffer[2] == TRIGGER_WARM_SLEEP_SPECIAL_VALUE
  {
    assert !Decode(TRIGGER_WARM_SLEEP_SPECIAL_VALUE).nonSpecial;
  }

  /** A second `MaybeEnableSendPostponeWarmSleep` at the same clock changes nothing more. */
  lemma MaybeEnableIdempotent(w: World, now: u32)
    ensures MaybeEnable(MaybeEnable(w, now), now) == MaybeEnable(w, now)
  {
    if ExpiredAt(w.lockout, now) {
      var once := MaybeEnable(w, now);
      assert AllPostponing(once.faces) == once.faces;
    }
  }

  /** Passing the request on raises `postpone_sleep` on all six faces, and only when the lockout has run out. */
  lemma MaybeEnableEffect(w: World, now: u32)
    requires FacesOk(w.faces)
    ensures ExpiredAt(w.lockout, now) ==>
      (forall f :: 0 <= f < FACE_COUNT ==> MaybeEnable(w, now).faces[f].header.postponeSleep) &&
      MaybeEnable(w, now).lockout == Wrap32(now + SEND_POSTPONE_WARM_SLEEP_LOCKOUT_MS) &&
      MaybeEnable(w, now).sleepTimer == Wrap32(now + WARM_SLEEP_TIMEOUT_MS)
    ensures !ExpiredAt(w.lockout, now) ==> MaybeEnable(w, now) == w
  {
  }

  /** After `ReceiveFaceData` no face has a packet left ready. */
  lemma {:induction false} ReceiveConsumesAll(w: World, now: u32, script: seq<EnvStep>, n: nat)
    requires WorldOk(w) && n <= FACE_COUNT && ScriptOk(script)
    ensures forall f :: 0 <= f < n ==> !ReceiveUpTo(w, now, script, n).bios.rx[f].ready
  {
    if n > 0 {
      ReceiveConsumesAll(w, now, script, n - 1);
      var before := ReceiveUpTo(w, now, script, n - 1);
      if before.bios.rx[n - 1].ready {
        var (fd, request) := ReceiveOnFace(before.faces[n - 1], before.bios.rx[n - 1], now);
        if request == Sleep {
          EnterOutcome(before.(faces := before.faces[n - 1 := fd]).bios, script);
        }
      }
    }
  }

  // ----- Properties of the send step

  /**
   * A due face sends `outValue`, then (when a header is needed) the header
   * with `non_special` set, then the pending datagram: at most 18 bytes.  The
   * datagram stays pending (only an acknowledgement frees it); the header
   * requests are dropped only if the BIOS took the packet; the next probe is
   * due 150 ms after the clock reading taken after the send.
   */
  lemma SendShape(fd: FaceData, now: u32, current: u32, accepted: bool)
    requires FaceOk(fd) && ExpiredAt(fd.sendTime, now)
    ensures var (res, packet) := SendOnFace(fd, now, current, accepted);
      var withHeader := fd.sendHeader || fd.header.postponeSleep || fd.outDatagramLen != 0;
      packet.Some? &&
      |packet.value| == 1 + (if withHeader then 1 else 0) + fd.outDatagramLen <= 18 &&
      packet.value[0] == fd.outValue &&
      (withHeader ==> packet.value[1] == Encode(fd.header.(nonSpecial := true)) &&
                      packet.value[2..] == fd.outDatagramData[..fd.outDatagramLen]) &&
      res.header.nonSpecial &&
      res.outDatagramLen == fd.outDatagramLen && res.outDatagramData == fd.outDatagramData &&
      res.sendHeader == (fd.sendHeader && !accepted) &&
      res.header.postponeSleep == (fd.header.postponeSleep && !accepted) &&
      res.sendTime == Wrap32(current + TX_PROBE_TIME_MS)
  {
    var (res, packet) := SendOnFace(fd, now, current, accepted);
    assert (now + Wrap32(current - now + TX_PROBE_TIME_MS)) % TWO32 == (current + TX_PROBE_TIME_MS) % TWO32 by {
      var k := (current - now + TX_PROBE_TIME_MS) / TWO32;
      assert current - now + TX_PROBE_TIME_MS == k * TWO32 + Wrap32(current - now + TX_PROBE_TIME_MS);
      assert now + Wrap32(current - now + TX_PROBE_TIME_MS) == current + TX_PROBE_TIME_MS - k * TWO32;
    }
  }

  /** A face whose send deadline has not passed sends nothing and is left alone. */
  lemma NotDueSilent(fd: FaceData, now: u32, current: u32, accepted: bool)
    requires FaceOk(fd) && !ExpiredAt(fd.sendTime, now)
    ensures SendOnFace(fd, now, current, accepted) == (fd, None)
  {
  }

  /**
   * A packet `SendOnFace` builds on one tile, delivered whole to the facing
   * tile with the user-data type byte in front, is read back by
   * `ReceiveOnFace` as sent: the face value arrives, the pending datagram is
   * taken unless the receiver has already acknowledged that sequence number,
   * an acknowledgement of the receiver's own sequence frees its outbound slot,
   * and a raised postpone flag is passed on.
   */
  lemma SendReceiveRoundTrip(a: FaceData, b: FaceData, now: u32, current: u32, accepted: bool, later: u32, pad: seq<byte>)
    requires FaceOk(a) && FaceOk(b) && ExpiredAt(a.sendTime, now)
    requires var packet := SendOnFace(a, now, current, accepted).1.value;
      1 + |packet| + |pad| == IR_RX_PACKET_SIZE
    ensures var packet := SendOnFace(a, now, current, accepted).1.value;
      var r := RxRecord(true, [IR_USER_DATA_HEADER_BYTE] + packet + pad, 1 + |packet|);
      var withHeader := a.sendHeader || a.header.postponeSleep || a.outDatagramLen != 0;
      var (got, request) := ReceiveOnFace(b, r, later);
      var n := a.outDatagramLen;
      got.inValue == a.outValue &&
      (withHeader && b.header.sequence == a.header.ackSequence ==> got.outDatagramLen == 0) &&
      (n > 0 && a.header.sequence != b.header.ackSequence ==>
         got.inDatagramLen == n && got.inDatagramData[..n] == a.outDatagramData[..n] &&
         got.header.ackSequence == a.header.sequence) &&
      (n > 0 && a.header.sequence == b.header.ackSequence ==> got.inDatagramLen == b.inDatagramLen && got.sendHeader) &&
      (request == Postpone <==> a.header.postponeSleep)
  {
    var packet := SendOnFace(a, now, current, accepted).1.value;
    var buffer := [IR_USER_DATA_HEADER_BYTE] + packet + pad;
    var r := RxRecord(true, buffer, 1 + |packet|);
    var sentHeader := a.header.(nonSpecial := true);
    SendShape(a, now, current, accepted);
    if |packet| > 1 {
      assert buffer[2] == Encode(sentHeader);
      DecodeEncode(sentHeader);
      var n := a.outDatagramLen;
      assert buffer[3..3 + n] == packet[2..] == a.outDatagramData[..n];
    }
  }

  /** Sending changes neither what was received nor what is pending, nor the sequence numbers. */
  lemma {:induction false} SendKeepsInboundAndValues(faces: seq<FaceData>, now: u32, clock: seq<u32>, accepted: seq<bool>, n: nat)
    requires FacesOk(faces) && |clock| == FACE_COUNT && |accepted| == FACE_COUNT && n <= FACE_COUNT
    ensures forall f :: 0 <= f < FACE_COUNT ==>
      var fd := SendUpTo(faces, now, clock, accepted, n).0[f];
      fd.inValue == faces[f].inValue && fd.outValue == faces[f].outValue &&
      fd.inDatagramLen == faces[f].inDatagramLen && fd.outDatagramLen == faces[f].outDatagramLen &&
      fd.header.sequence == faces[f].header.sequence && fd.header.ackSequence == faces[f].header.ackSequence
  {
    if n > 0 {
      SendKeepsInboundAndValues(faces, now, clock, accepted, n - 1);
    }
  }

  class Channel {
    /** `face_data_`. */
    const faces: array<FaceData>

    /** `send_postpone_warm_sleep_timer_`. */
    const lockout: Timer

    /** The `prev_state` shadow kept by `didValueOnFaceChange`. */
    const prevState: array<byte>

    predicate Valid()
      reads faces
    {
      faces.Length == FACE_COUNT && prevState.Length == FACE_COUNT && faces as object != prevState as object &&
      FacesOk(faces[..])
    }

    /** The channel's timers are its own, apart from the warm-sleep timer. */
    predicate Apart(sleeper: Sleeper)
    {
      lockout != sleeper.timer
    }

    /** Nor does the face table share storage with the screen or its saved copy. */
    predicate ApartFromScreen(sleeper: Sleeper, bios: Bios, led: Led)
    {
      Apart(sleeper) && faces as object != bios.pixels as object && faces as object != led.buffer as object
    }

    function Snapshot(sleeper: Sleeper, bios: Bios): World
      reads faces, lockout, sleeper, sleeper.timer, bios
    {
      World(faces[..], lockout.expireTime, sleeper.timer.expireTime, sleeper.hasWarmWokenFlag, bios.State())
    }

    /** The zero-filled statics: every face zeroed, every shadow 0, the lockout deadline 0. */
    constructor ()
      ensures Valid() && fresh(faces) && fresh(prevState) && fresh(lockout)
      ensures forall f :: 0 <= f < FACE_COUNT ==> faces[f] == ZEROED_FACE && prevState[f] == 0
      ensures lockout.expireTime == 0
    {
      faces := new FaceData[FACE_COUNT](_ => ZEROED_FACE);
      prevState := new byte[FACE_COUNT](_ => 0);
      lockout := new Timer();
    }

    /** `MaybeEnableSendPostponeWarmSleep`. */
    method MaybeEnableSendPostponeWarmSleep(now: u32, sleeper: Sleeper, ghost bios: Bios)
      requires Valid() && Apart(sleeper)
      modifies faces, lockout, sleeper.timer
      ensures Valid()
      ensures Snapshot(sleeper, bios) == MaybeEnable(old(Snapshot(sleeper, bios)), now)
    {
      var expired := lockout.IsExpired(now);
      if expired {
        lockout.Set(now, SEND_POSTPONE_WARM_SLEEP_LOCKOUT_MS);
        for f := 0 to FACE_COUNT
          invariant Valid()
          invariant lockout.expireTime == SetAt(now, SEND_POSTPONE_WARM_SLEEP_LOCKOUT_MS)
          invariant sleeper.timer.expireTime == old(sleeper.timer.expireTime)
          invariant forall g :: 0 <= g < FACE_COUNT ==>
            faces[g] == (if g < f then old(faces[g]).(header := old(faces[g]).header.(postponeSleep := true)) else old(faces[g]))
        {
          faces[f] := faces[f].(header := faces[f].header.(postponeSleep := true));
        }
        assert faces[..] == AllPostponing(old(faces[..]));
        sleeper.ResetTimer(now);
      }
    }

    /** The first half of a user-data packet's handling: `Arrive` on face `f`. */
    method NoteArrival(f: nat, r: RxRecord, now: u32)
      requires Valid() && f < FACE_COUNT && RecordOk(r) && r.ready
      modifies faces
      ensures Valid()
      ensures faces[..] == old(faces[..])[f := Arrive(old(faces[f]), r, now)]
    {
      faces[f] := faces[f].(expireTime := SetAt(now, RX_EXPIRE_TIME_MS));
      faces[f] := faces[f].(sendTime := SetAt(now, 0));
      faces[f] := faces[f].(inValue := r.buffer[1]);
    }

    /** The acknowledgement and datagram handling of a non-special header, on one face's record. */
    static method AcknowledgeOn(fd: FaceData, incoming: Header, r: RxRecord) returns (res: FaceData)
      requires FaceOk(fd) && RecordOk(r) && r.ready && r.len >= 3
      ensures res == Acknowledge(fd, incoming, r)
    {
      res := fd;
      var packetDataLen := r.len - 1;
      if incoming.ackSequence == res.header.sequence {
        res := res.(outDatagramLen := 0);
      }
      if packetDataLen > 2 {
        if incoming.sequence != res.header.ackSequence {
          res := res.(header := res.header.(ackSequence := incoming.sequence));
          var n := packetDataLen - 2;
          res := res.(inDatagramLen := n);
          res := res.(inDatagramData := r.buffer[3..3 + n] + res.inDatagramData[n..]);
        } else {
          res := res.(sendHeader := true);
        }
      }
    }

    /** `AcknowledgeOn` applied to face `f`. */
    method TakeHeader(f: nat, incoming: Header, r: RxRecord)
      requires Valid() && f < FACE_COUNT && RecordOk(r) && r.ready && r.len >= 3
      modifies faces
      ensures Valid()
      ensures faces[..] == old(faces[..])[f := Acknowledge(old(faces[f]), incoming, r)]
    {
      var fd := AcknowledgeOn(faces[f], incoming, r);
      faces[f] := fd;
    }

    /** A non-special header: pass a postpone-sleep request on, then `TakeHeader`. */
    method NormalHeader(f: nat, r: RxRecord, now: u32, bios: Bios, sleeper: Sleeper)
      requires Valid() && bios.Valid() && Apart(sleeper) && f < FACE_COUNT && RecordOk(r) && r.ready && r.len >= 3
      modifies faces, lockout, sleeper.timer, bios
      ensures Valid() && bios.Valid()
      ensures Snapshot(sleeper, bios) == AfterNormalHeader(old(Snapshot(sleeper, bios)), f, r, now)
    {
      var incoming := Decode(r.buffer[2]);
      if incoming.postponeSleep {
        MaybeEnableSendPostponeWarmSleep(now, sleeper, bios);
        bios.PostponeSleep();
      }
      TakeHeader(f, incoming, r);
    }

    /** `ReceiveFaceData`'s handling of face `f`'s ready packet, before marking it read. */
    method HandlePacket(f: nat, now: u32, bios: Bios, sleeper: Sleeper, led: Led, script: seq<EnvStep>)
      requires Valid() && bios.Valid() && led.Valid(bios) && ApartFromScreen(sleeper, bios, led) && ScriptOk(script) && f < FACE_COUNT
      requires bios.rx[f].ready
      modifies faces, lockout, sleeper, sleeper.timer, bios, bios.pixels, led.buffer
      ensures Valid() && bios.Valid()
      ensures Snapshot(sleeper, bios) == Handle(old(Snapshot(sleeper, bios)), f, now, script)
      ensures bios.pixels[..] == old(bios.pixels[..])
    {
      ghost var w := Snapshot(sleeper, bios);
      var r := bios.rx[f];
      if r.buffer[0] == IR_USER_DATA_HEADER_BYTE {
        NoteArrival(f, r, now);
        assert Snapshot(sleeper, bios) == Arrived(w, f, now);
        var packetDataLen := r.len - 1;
        if packetDataLen > 1 {
          var incoming := Decode(r.buffer[2]);
          if incoming.nonSpecial {
            HandleNormal(w, f, now, script);
            NormalHeader(f, r, now, bios, sleeper);
          } else {
            HandleNotNormal(w, f, now, script);
            if r.buffer[1] == TRIGGER_WARM_SLEEP_SPECIAL_VALUE && r.buffer[2] == TRIGGER_WARM_SLEEP_SPECIAL_VALUE {
              sleeper.Enter(now, bios, led, script);
            }
          }
        } else {
          HandleNotNormal(w, f, now, script);
        }
      } else {
        HandleForeign(w, f, now, script);
      }
    }

    /** `ReceiveFaceData`'s loop body for face `f`. */
    method ReceiveOnFaceData(f: nat, now: u32, bios: Bios, sleeper: Sleeper, led: Led, script: seq<EnvStep>)
      requires Valid() && bios.Valid() && led.Valid(bios) && ApartFromScreen(sleeper, bios, led) && ScriptOk(script) && f < FACE_COUNT
      modifies faces, lockout, sleeper, sleeper.timer, bios, bios.pixels, led.buffer
      ensures Valid() && bios.Valid()
      ensures Snapshot(sleeper, bios) == ReceiveStep(old(Snapshot(sleeper, bios)), f, now, script)
      ensures bios.pixels[..] == old(bios.pixels[..])
    {
      if bios.rx[f].ready {
        HandlePacket(f, now, bios, sleeper, led, script);
        bios.Consume(f);
      }
    }

    /** `ReceiveFaceData`: every face's waiting packet, in face order. */
    method ReceiveFaceData(now: u32, bios: Bios, sleeper: Sleeper, led: Led, script: seq<EnvStep>)
      requires Valid() && bios.Valid() && led.Valid(bios) && ApartFromScreen(sleeper, bios, led) && ScriptOk(script)
      modifies faces, lockout, sleeper, sleeper.timer, bios, bios.pixels, led.buffer
      ensures Valid() && bios.Valid()
      ensures Snapshot(sleeper, bios) == ReceiveUpTo(old(Snapshot(sleeper, bios)), now, script, FACE_COUNT)
      ensures bios.pixels[..] == old(bios.pixels[..])
    {
      for f := 0 to FACE_COUNT
        invariant Valid() && bios.Valid()
        invariant Snapshot(sleeper, bios) == ReceiveUpTo(old(Snapshot(sleeper, bios)), now, script, f)
        invariant bios.pixels[..] == old(bios.pixels[..])
      {
        ReceiveOnFaceData(f, now, bios, sleeper, led, script);
      }
    }

    /**
     * `SendFaceData`'s loop body for face `f`; `current` is the
     * `currentMillis()` reading taken after the send and `accepted` the BIOS's
     * answer.
     */
    method SendOnFaceData(f: nat, now: u32, current: u32, bios: Bios) returns (ghost accepted: bool)
      requires Valid() && f < FACE_COUNT
      modifies faces, bios
      ensures Valid()
      ensures faces[..] == old(faces[..])[f := SendOnFace(old(faces[f]), now, current, accepted).0]
      ensures bios.events == old(bios.events) +
        match SendOnFace(old(faces[f]), now, current, accepted).1
        case Some(packet) => [Sent(f, packet)]
        case None => []
      ensures bios.State() == old(bios.State()).(events := bios.events)
    {
      accepted := false;
      var fd := faces[f];
      if now > fd.sendTime {
        fd := fd.(header := fd.header.(nonSpecial := true));
        var withHeader := fd.sendHeader || fd.header.postponeSleep || fd.outDatagramLen != 0;
        var outgoingPacketLen := 1 + (if withHeader then 1 else 0) + fd.outDatagramLen;
        var ok := bios.SendPacket(f, ([fd.outValue, Encode(fd.header)] + fd.outDatagramData)[..outgoingPacketLen]);
        if ok {
          fd := fd.(sendHeader := false);
          fd := fd.(header := fd.header.(postponeSleep := false));
        }
        accepted := ok;
        fd := fd.(sendTime := SetAt(now, Wrap32(current - now + TX_PROBE_TIME_MS)));
      }
      faces[f] := fd;
    }

    /**
     * `SendFaceData`: `clock[f]` is the `currentMillis()` reading taken after
     * face f's send; the BIOS's answers are returned as `accepted`.
     */
    method SendFaceData(now: u32, clock: seq<u32>, bios: Bios) returns (ghost accepted: seq<bool>)
      requires Valid() && |clock| == FACE_COUNT
      modifies faces, bios
      ensures Valid() && |accepted| == FACE_COUNT
      ensures faces[..] == SendUpTo(old(faces[..]), now, clock, accepted, FACE_COUNT).0
      ensures bios.events == old(bios.events) + SendUpTo(old(faces[..]), now, clock, accepted, FACE_COUNT).1
      ensures bios.State() == old(bios.State()).(events := bios.events)
    {
      accepted := seq(FACE_COUNT, _ => false);
      for f := 0 to FACE_COUNT
        invariant Valid() && |accepted| == FACE_COUNT
        invariant bios.State() == old(bios.State()).(events := bios.events)
        invariant faces[..] == SendUpTo(old(faces[..]), now, clock, accepted, f).0
        invariant bios.events == old(bios.events) + SendUpTo(old(faces[..]), now, clock, accepted, f).1
      {
        ghost var before := accepted;
        ghost var ok := SendOnFaceData(f, now, clock[f], bios);
        accepted := accepted[f := ok];
        SendUpToPrefix(old(faces[..]), now, clock, before, accepted, f);
      }
    }

    /** `getDatagramLengthOnFace`: 0 when no datagram is waiting. */
    method GetDatagramLengthOnFace(face: nat) returns (len: u8)
      requires Valid() && face < FACE_COUNT
      ensures len == faces[face].inDatagramLen
    {
      len := faces[face].inDatagramLen;
    }

    /** `isDatagramReadyOnFace`. */
    method IsDatagramReadyOnFace(face: nat) returns (ready: bool)
      requires Valid() && face < FACE_COUNT
      ensures ready <==> faces[face].inDatagramLen != 0
    {
      var len := GetDatagramLengthOnFace(face);
      ready := len != 0;
    }

    /** `isDatagramPendingOnFace`: our outbound datagram is not yet acknowledged. */
    method IsDatagramPendingOnFace(face: nat) returns (pending: bool)
      requires Valid() && face < FACE_COUNT
      ensures pending <==> faces[face].outDatagramLen != 0
    {
      pending := faces[face].outDatagramLen != 0;
    }

    /**
     * `getDatagramOnFace`: the inbound slot's contents.  It changes nothing;
     * in particular the datagram stays ready until `markDatagramReadOnFace`.
     */
    method GetDatagramOnFace(face: nat) returns (data: seq<byte>)
      requires Valid() && face < FACE_COUNT
      ensures |data| == IR_DATAGRAM_LEN
      ensures data[..faces[face].inDatagramLen] == faces[face].inDatagramData[..faces[face].inDatagramLen]
    {
      data := faces[face].inDatagramData;
    }

    /** `markDatagramReadOnFace`: frees the inbound slot of that face only. */
    method MarkDatagramReadOnFace(face: nat)
      requires Valid() && face < FACE_COUNT
      modifies faces
      ensures Valid()
      ensures faces[..] == old(faces[..])[face := old(faces[face]).(inDatagramLen := 0)]
    {
      faces[face] := faces[face].(inDatagramLen := 0);
    }

    /**
     * `sendDatagramOnFace`: refused (false, nothing changes) when the datagram
     * is longer than IR_DATAGRAM_LEN or one is still pending on the face;
     * otherwise the next sequence number is taken and the payload copied.
     */
    method SendDatagramOnFace(data: seq<byte>, face: nat) returns (ok: bool)
      requires Valid() && face < FACE_COUNT && |data| < 0x100
      modifies faces
      ensures Valid()
      ensures ok <==> |data| <= IR_DATAGRAM_LEN && old(faces[face].outDatagramLen) == 0
      ensures !ok ==> faces[..] == old(faces[..])
      ensures ok ==> faces[..] == old(faces[..])[face := old(faces[face]).(
        header := old(faces[face]).header.(sequence := NextSequence(old(faces[face]).header.sequence)),
        outDatagramLen := |data|,
        outDatagramData := data + old(faces[face]).outDatagramData[|data|..])]
    {
      if |data| > IR_DATAGRAM_LEN {
        return false;
      }
      if faces[face].outDatagramLen != 0 {
        return false;
      }
      faces[face] := faces[face].(header := faces[face].header.(sequence := faces[face].header.sequence % 7 + 1));
      faces[face] := faces[face].(outDatagramLen := |data|);
      faces[face] := faces[face].(outDatagramData := data + faces[face].outDatagramData[|data|..]);
      return true;
    }

    /** `getLastValueReceivedOnFace`. */
    method GetLastValueReceivedOnFace(face: nat) returns (value: byte)
      requires Valid() && face < FACE_COUNT
      ensures value == faces[face].inValue
    {
      value := faces[face].inValue;
    }

    /**
     * `didValueOnFaceChange`: true exactly when the face value differs from
     * the shadow copy, which then catches up, so asking again before another
     * receive answers false.
     */
    method DidValueOnFaceChange(face: nat) returns (changed: bool)
      requires Valid() && face < FACE_COUNT
      modifies prevState
      ensures changed <==> faces[face].inValue != old(prevState[face])
      ensures prevState[face] == faces[face].inValue
      ensures forall g :: 0 <= g < FACE_COUNT && g != face ==> prevState[g] == old(prevState[g])
    {
      var curr := GetLastValueReceivedOnFace(face);
      if curr == prevState[face] {
        return false;
      }
      prevState[face] := curr;
      return true;
    }

    /** `isValueReceivedOnFaceExpired`: the face's expiry deadline has passed. */
    method IsValueReceivedOnFaceExpired(face: nat, now: u32) returns (expired: bool)
      requires Valid() && face < FACE_COUNT
      ensures expired <==> ExpiredAt(faces[face].expireTime, now)
    {
      expired := now > faces[face].expireTime;
    }

    /** `isAlone`: every face has expired. */
    method IsAlone(now: u32) returns (alone: bool)
      requires Valid()
      ensures alone <==> forall f :: 0 <= f < FACE_COUNT ==> ExpiredAt(faces[f].expireTime, now)
    {
      for face := 0 to FACE_COUNT
        invariant forall f :: 0 <= f < face ==> ExpiredAt(faces[f].expireTime, now)
      {
        var expired := IsValueReceivedOnFaceExpired(face, now);
        if !expired {
          return false;
        }
      }
      return true;
    }

    /** `setValueSentOnAllFaces`: every face sends `value`; nothing else changes. */
    method SetValueSentOnAllFaces(value: byte)
      requires Valid()
      modifies faces
      ensures Valid()
      ensures forall f :: 0 <= f < FACE_COUNT ==> faces[f] == old(faces[f]).(outValue := value)
    {
      for face := 0 to FACE_COUNT
        invariant Valid()
        invariant forall f :: 0 <= f < FACE_COUNT ==> faces[f] == (if f < face then old(faces[f]).(outValue := value) else old(faces[f]))
      {
        faces[face] := faces[face].(outValue := value);
      }
    }

    /** `setValueSentOnFace`: only that face's `outValue` changes. */
    method SetValueSentOnFace(value: byte, face: nat)
      requires Valid() && face < FACE_COUNT
      modifies faces
      ensures Valid()
      ensures faces[..] == old(faces[..])[face := old(faces[face]).(outValue := value)]
    {
      faces[face] := faces[face].(outValue := value);
    }
  }

  /** Answers from the BIOS for faces not yet visited do not affect the faces already sent on. */
  lemma {:induction false} SendUpToPrefix(faces: seq<FaceData>, now: u32, clock: seq<u32>, a: seq<bool>, b: seq<bool>, n: nat)
    requires FacesOk(faces) && |clock| == FACE_COUNT && |a| == FACE_COUNT && |b| == FACE_COUNT && n <= FACE_COUNT
    requires forall i :: 0 <= i < n ==> a[i] == b[i]
    ensures SendUpTo(faces, now, clock, a, n) == SendUpTo(faces, now, clock, b, n)
  {
    if n > 0 {
      SendUpToPrefix(faces, now, clock, a, b, n - 1);
    }
  }
}
