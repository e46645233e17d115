/**
 * blinklib_ir_face_value_only.cpp: the build of the face channel without
 * datagrams.  Each face keeps only the value received, the value to send, the
 * header (whose only live field is `postpone_sleep`) and two raw millisecond
 * deadlines, compared directly with the loop's `now` instead of through
 * `Timer`.  The datagram calls are stubs.
 */
module FaceValueOnly {
  import opened Common
  import opened Timers
  import opened Bios
  import opened LedState
  import opened WarmSleep
  import opened IrHeader

  /** One face's state in this build. */
  datatype FaceData = FaceData(inValue: byte, expireTime: u32, outValue: byte, header: Header, sendTime: u32)

  /** A face as the zero-filled static table starts it. */
  const ZEROED_FACE: FaceData := FaceData(0, 0, 0, Header(0, 0, false, false), 0)

  /**
   * A tile fresh from reset: every face reads 0 until a neighbour is seen,
   * and counts as expired, so the tile is alone, as soon as the clock is
   * past 0; it is due to send at once.
   */
  lemma ZeroedFaceAlone(now: u32)
    ensures ZEROED_FACE.inValue == 0
    ensures ExpiredAt(ZEROED_FACE.expireTime, now) <==> now > 0
    ensures ZEROED_FACE.sendTime <= now
  {
  }

  /**
   * One face's share of `ReceiveFaceData` for a ready packet.  Any packet,
   * user data or not, refreshes the expiry; only user data resets the send
   * deadline to 0 and records the value, and only a header byte makes a
   * request.
   */
  function ReceiveOnFace(fd: FaceData, r: RxRecord, now: u32): (res: (FaceData, Request))
    requires RecordOk(r) && r.ready
  {
    var touched := fd.(expireTime := Wrap32(now + RX_EXPIRE_TIME_MS));
    if r.buffer[0] != IR_USER_DATA_HEADER_BYTE then (touched, Quiet)
    else
      var seen := touched.(sendTime := 0, inValue := r.buffer[1]);
      if r.len - 1 <= 1 then (seen, Quiet)
      else
        var incoming := Decode(r.buffer[2]);
        if incoming.nonSpecial then (seen, if incoming.postponeSleep then Postpone else Quiet)
        else (seen, if r.buffer[1] == TRIGGER_WARM_SLEEP_SPECIAL_VALUE && r.buffer[2] == TRIGGER_WARM_SLEEP_SPECIAL_VALUE
                    then Sleep else Quiet)
  }

  /** Everything `ReceiveFaceData` can change in this build. */
  datatype World = World(faces: seq<FaceData>, lockout: u32, sleepTimer: u32, warmWoken: byte, bios: BiosState)

  predicate WorldOk(w: World)
  {
    |w.faces| == FACE_COUNT && RxOk(w.bios.rx)
  }

  /** Every face with its `postpone_sleep` flag raised. */
  function AllPostponing(faces: seq<FaceData>): (r: seq<FaceData>)
    ensures |r| == |faces|
    ensures forall f :: 0 <= f < |faces| ==> r[f] == faces[f].(header := faces[f].header.(postponeSleep := true))
  {
    seq(|faces|, f requires 0 <= f < |faces| => faces[f].(header := faces[f].header.(postponeSleep := true)))
  }

  /** `MaybeEnableSendPostponeWarmSleep`, as in the datagram build. */
  function MaybeEnable(w: World, now: u32): (r: World)
  {
    if ExpiredAt(w.lockout, now) then
      w.(lockout := SetAt(now, SEND_POSTPONE_WARM_SLEEP_LOCKOUT_MS),
         faces := AllPostponing(w.faces),
         sleepTimer := SetAt(now, WARM_SLEEP_TIMEOUT_MS))
    else w
  }

  /** What face `f`'s ready packet does to the world, before its buffer is marked read. */
  function Handle(w: World, f: nat, now: u32, script: seq<EnvStep>): (r: World)
    requires WorldOk(w) && f < FACE_COUNT && ScriptOk(script) && w.bios.rx[f].ready
    ensures WorldOk(r)
  {
    var (fd, request) := ReceiveOnFace(w.faces[f], w.bios.rx[f], now);
    var updated := w.(faces := w.faces[f := fd]);
    match request
    case Quiet => updated
    case Postpone =>
      var m := MaybeEnable(updated, now);
      m.(bios := m.bios.(postpones := m.bios.postpones + 1))
    case Sleep =>
      updated.(bios := EnterResult(updated.bios, script), warmWoken := 1,
               sleepTimer := SetAt(now, WARM_SLEEP_TIMEOUT_MS))
  }

  /** `ReceiveFaceData` for face `f`: act on a ready packet, then mark the buffer read whatever it held. */
  function ReceiveStep(w: World, f: nat, now: u32, script: seq<EnvStep>): (r: World)
    requires WorldOk(w) && f < FACE_COUNT && ScriptOk(script)
    ensures WorldOk(r)
  {
    var acted := if w.bios.rx[f].ready then Handle(w, f, now, script) else w;
    acted.(bios := acted.bios.(rx := Consumed(acted.bios.rx, f)))
  }

  /** `ReceiveFaceData` over faces 0 to n - 1. */
  function ReceiveUpTo(w: World, now: u32, script: seq<EnvStep>, n: nat): (r: World)
    requires WorldOk(w) && n <= FACE_COUNT && ScriptOk(script)
    ensures WorldOk(r)
  {
    if n == 0 then w else ReceiveStep(ReceiveUpTo(w, now, script, n - 1), n - 1, now, script)
  }

  /**
   * `SendFaceData` for one face: due once `sendTime <= now`; the packet is
   * the face value, followed by the header only when it carries a postpone
   * request; the next probe is due TX_PROBE_TIME_MS after `current`, the
   * clock reading taken after the send.
   */
  function SendOnFace(fd: FaceData, now: u32, current: u32, accepted: bool): (r: (FaceData, Option<seq<byte>>))
  {
    if fd.sendTime > now then (fd, None)
    else
      var marked := fd.(header := fd.header.(nonSpecial := true));
      var len := 1 + if marked.header.postponeSleep then 1 else 0;
      var packet := [marked.outValue, Encode(marked.header)][..len];
      var cleared := if accepted then marked.(header := marked.header.(postponeSleep := false)) else marked;
      (cleared.(sendTime := Wrap32(current + TX_PROBE_TIME_MS)), Some(packet))
  }

  /** `SendFaceData` over faces 0 to n - 1: the faces and the packets handed to the BIOS, in order. */
  function SendUpTo(faces: seq<FaceData>, now: u32, clock: seq<u32>, accepted: seq<bool>, n: nat): (r: (seq<FaceData>, seq<Event>))
    requires |faces| == FACE_COUNT && |clock| == FACE_COUNT && |accepted| == FACE_COUNT && n <= FACE_COUNT
    ensures |r.0| == FACE_COUNT
  {
    if n == 0 then (faces, [])
    else
      var (fs, log) := SendUpTo(faces, now, clock, accepted, n - 1);
      var (fd, packet) := SendOnFace(fs[n - 1], now, clock[n - 1], accepted[n - 1]);
      (fs[n - 1 := fd], log + if packet.Some? then [Sent(n - 1, packet.value)] else [])
  }

  // ----- Properties

  /**
   * In this build any ready packet, even one that is not user data, counts as
   * a neighbour for RX_EXPIRE_TIME_MS; a user-data packet also records the
   * face value and makes the face due to send at once.
   */
  lemma AnyPacketRefreshes(fd: FaceData, r: RxRecord, now: u32)
    requires RecordOk(r) && r.ready
    ensures var got := ReceiveOnFace(fd, r, now).0;
      got.expireTime == Wrap32(now + RX_EXPIRE_TIME_MS) &&
      !ExpiredAt(got.expireTime, now) == (now + RX_EXPIRE_TIME_MS < TWO32) &&
      got.outValue == fd.outValue && got.header == fd.header &&
      (r.buffer[0] == IR_USER_DATA_HEADER_BYTE ==> got.inValue == r.buffer[1] && got.sendTime == 0) &&
      (r.buffer[0] != IR_USER_DATA_HEADER_BYTE ==> got.inValue == fd.inValue && got.sendTime == fd.sendTime)
  {
  }

  /** After a user-data packet the face sends on the very next pass, whatever the clock says. */
  lemma PingPong(fd: FaceData, r: RxRecord, now: u32, later: u32, current: u32, accepted: bool)
    requires RecordOk(r) && r.ready && r.buffer[0] == IR_USER_DATA_HEADER_BYTE
    ensures SendOnFace(ReceiveOnFace(fd, r, now).0, later, current, accepted).1.Some?
  {
  }

  /**
   * A due face sends its value, and the header (with `non_special` set) only
   * when a postpone request is raised; the request is dropped only if the BIOS
   * took the packet.  A face not yet due sends nothing and is left alone.
   */
  lemma SendShape(fd: FaceData, now: u32, current: u32, accepted: bool)
    ensures var (res, packet) := SendOnFace(fd, now, current, accepted);
      if fd.sendTime <= now then
        packet.Some? &&
        packet.value == (if fd.header.postponeSleep then [fd.outValue, Encode(fd.header.(nonSpecial := true))] else [fd.outValue]) &&
        res.header.nonSpecial && res.header.postponeSleep == (fd.header.postponeSleep && !accepted) &&
        res.sendTime == Wrap32(current + TX_PROBE_TIME_MS) &&
        res.inValue == fd.inValue && res.outValue == fd.outValue && res.expireTime == fd.expireTime
      else res == fd && packet.None?
  {
  }

  /**
   * A packet one tile sends, delivered to the facing tile behind the
   * user-data type byte, gives that face the sender's value and passes a
   * postpone request on exactly when the sender raised one.
   */
  lemma SendReceiveRoundTrip(a: FaceData, b: FaceData, now: u32, current: u32, accepted: bool, later: u32, pad: seq<byte>)
    requires a.sendTime <= now
    requires var packet := SendOnFace(a, now, current, accepted).1.value;
      1 + |packet| + |pad| == IR_RX_PACKET_SIZE
    ensures var packet := SendOnFace(a, now, current, accepted).1.value;
      var r := RxRecord(true, [IR_USER_DATA_HEADER_BYTE] + packet + pad, 1 + |packet|);
      var (got, request) := ReceiveOnFace(b, r, later);
      got.inValue == a.outValue && (request == Postpone <==> a.header.postponeSleep)
  {
    var packet := SendOnFace(a, now, current, accepted).1.value;
    if a.header.postponeSleep {
      var buffer := [IR_USER_DATA_HEADER_BYTE] + packet + pad;
      assert buffer[2] == Encode(a.header.(nonSpecial := true));
      DecodeEncode(a.header.(nonSpecial := true));
    }
  }

  /**
   * Only a user-data packet with a header byte makes a request: a
   * non-special header passes a postpone-sleep request on, a special one
   * with both bytes TRIGGER_WARM_SLEEP_SPECIAL_VALUE puts the tile to sleep
   * (the trigger value has bit 7 clear, so it always parses as special).
   */
  lemma RequestFromHeader(fd: FaceData, r: RxRecord, now: u32)
    requires RecordOk(r) && r.ready
    ensures ReceiveOnFace(fd, r, now).1 == Postpone <==>
      r.buffer[0] == IR_USER_DATA_HEADER_BYTE && r.len >= 3 && Decode(r.buffer[2]).nonSpecial && Decode(r.buffer[2]).postponeSleep
    ensures ReceiveOnFace(fd, r, now).1 == Sleep <==>
      r.buffer[0] == IR_USER_DATA_HEADER_BYTE && r.len >= 3 &&
      r.buffer[1] == TRIGGER_WARM_SLEEP_SPECIAL_VALUE && r.buffer[2] == TRIGGER_WARM_SLEEP_SPECIAL_VALUE
  {
    assert !Decode(TRIGGER_WARM_SLEEP_SPECIAL_VALUE).nonSpecial;
  }

  /** A second `MaybeEnableSendPostponeWarmSleep` at the same clock changes nothing more. */
  lemma MaybeEnableIdempotent(w: World, now: u32)
    ensures MaybeEnable(MaybeEnable(w, now), now) == MaybeEnable(w, now)
  {
    if ExpiredAt(w.lockout, now) {
      var once := MaybeEnable(w, now);
      assert AllPostponing(once.faces) == once.faces;
    }
  }

  /** After `ReceiveFaceData` no face has a packet left ready. */
  lemma {:induction false} ReceiveConsumesAll(w: World, now: u32, script: seq<EnvStep>, n: nat)
    requires WorldOk(w) && n <= FACE_COUNT && ScriptOk(script)
    ensures forall f :: 0 <= f < n ==> !ReceiveUpTo(w, now, script, n).bios.rx[f].ready
  {
    if n > 0 {
      ReceiveConsumesAll(w, now, script, n - 1);
      var before := ReceiveUpTo(w, now, script, n - 1);
      if before.bios.rx[n - 1].ready {
        var (fd, request) := ReceiveOnFace(before.faces[n - 1], before.bios.rx[n - 1], now);
        if request == Sleep {
          EnterOutcome(before.(faces := before.faces[n - 1 := fd]).bios, script);
        }
      }
    }
  }

  /** Answers from the BIOS for faces not yet visited do not affect the faces already sent on. */
  lemma {:induction false} SendUpToPrefix(faces: seq<FaceData>, now: u32, clock: seq<u32>, a: seq<bool>, b: seq<bool>, n: nat)
    requires |faces| == FACE_COUNT && |clock| == FACE_COUNT && |a| == FACE_COUNT && |b| == FACE_COUNT && n <= FACE_COUNT
    requires forall i :: 0 <= i < n ==> a[i] == b[i]
    ensures SendUpTo(faces, now, clock, a, n) == SendUpTo(faces, now, clock, b, n)
  {
    if n > 0 {
      SendUpToPrefix(faces, now, clock, a, b, n - 1);
    }
  }

  class Channel {
    /** `face_data_`. */
    const faces: array<FaceData>

    /** `send_postpone_warm_sleep_timer_`. */
    const lockout: Timer

    /** The `prev_state` shadow kept by `didValueOnFaceChange`. */
    const prevState: array<byte>

    predicate Valid()
    {
      faces.Length == FACE_COUNT && prevState.Length == FACE_COUNT && faces as object != prevState as object
    }

    /** The channel's timers are its own, apart from the warm-sleep timer. */
    predicate Apart(sleeper: Sleeper)
    {
      lockout != sleeper.timer
    }

    /** Nor does the face table share storage with the screen or its saved copy. */
    predicate ApartFromScreen(sleeper: Sleeper, bios: Bios, led: Led)
    {
      Apart(sleeper) && faces as object != bios.pixels as object && faces as object != led.buffer as object
    }

    function Snapshot(sleeper: Sleeper, bios: Bios): World
      reads faces, lockout, sleeper, sleeper.timer, bios
    {
      World(faces[..], lockout.expireTime, sleeper.timer.expireTime, sleeper.hasWarmWokenFlag, bios.State())
    }

    /** The zero-filled statics: every face zeroed, every shadow 0, the lockout deadline 0. */
    constructor ()
      ensures Valid() && fresh(faces) && fresh(prevState) && fresh(lockout)
      ensures forall f :: 0 <= f < FACE_COUNT ==> faces[f] == ZEROED_FACE && prevState[f] == 0
      ensures lockout.expireTime == 0
    {
      faces := new FaceData[FACE_COUNT](_ => ZEROED_FACE);
      prevState := new byte[FACE_COUNT](_ => 0);
      lockout := new Timer();
    }

    /** `MaybeEnableSendPostponeWarmSleep`. */
    method MaybeEnableSendPostponeWarmSleep(now: u32, sleeper: Sleeper, ghost bios: Bios)
      requires Valid() && Apart(sleeper)
      modifies faces, lockout, sleeper.timer
      ensures Snapshot(sleeper, bios) == MaybeEnable(old(Snapshot(sleeper, bios)), now)
    {
      var expired := lockout.IsExpired(now);
      if expired {
        lockout.Set(now, SEND_POSTPONE_WARM_SLEEP_LOCKOUT_MS);
        for f := 0 to FACE_COUNT
          invariant lockout.expireTime == SetAt(now, SEND_POSTPONE_WARM_SLEEP_LOCKOUT_MS)
          invariant sleeper.timer.expireTime == old(sleeper.timer.expireTime)
          invariant forall g :: 0 <= g < FACE_COUNT ==>
            faces[g] == (if g < f then old(faces[g]).(header := old(faces[g]).header.(postponeSleep := true)) else old(faces[g]))
        {
          faces[f] := faces[f].(header := faces[f].header.(postponeSleep := true));
        }
        assert faces[..] == AllPostponing(old(faces[..]));
        sleeper.ResetTimer(now);
      }
    }

    /** `ReceiveFaceData`'s handling of face `f`'s ready packet, before marking it read. */
    method HandlePacket(f: nat, now: u32, bios: Bios, sleeper: Sleeper, led: Led, script: seq<EnvStep>)
      requires Valid() && bios.Valid() && led.Valid(bios) && ApartFromScreen(sleeper, bios, led) && ScriptOk(script)
      requires f < FACE_COUNT && bios.rx[f].ready
      modifies faces, lockout, sleeper, sleeper.timer, bios, bios.pixels, led.buffer
      ensures bios.Valid()
      ensures Snapshot(sleeper, bios) == Handle(old(Snapshot(sleeper, bios)), f, now, script)
      ensures bios.pixels[..] == old(bios.pixels[..])
    {
      ghost var w := Snapshot(sleeper, bios);
      var r := bios.rx[f];
      var fd := faces[f].(expireTime := Wrap32(now + RX_EXPIRE_TIME_MS));
      if r.buffer[0] != IR_USER_DATA_HEADER_BYTE {
        faces[f] := fd;
      } else {
        var packetDataLen := r.len - 1;
        fd := fd.(sendTime := 0);
        fd := fd.(inValue := r.buffer[1]);
        faces[f] := fd;
        assert Snapshot(sleeper, bios) == w.(faces := w.faces[f := ReceiveOnFace(w.faces[f], r, now).0]);
        if packetDataLen > 1 {
          var incoming := Decode(r.buffer[2]);
          if incoming.nonSpecial {
            if incoming.postponeSleep {
              MaybeEnableSendPostponeWarmSleep(now, sleeper, bios);
              bios.PostponeSleep();
            }
          } else if r.buffer[1] == TRIGGER_WARM_SLEEP_SPECIAL_VALUE && r.buffer[2] == TRIGGER_WARM_SLEEP_SPECIAL_VALUE {
            sleeper.Enter(now, bios, led, script);
          }
        }
      }
    }

    /** `ReceiveFaceData`'s loop body for face `f`. */
    method ReceiveOnFaceData(f: nat, now: u32, bios: Bios, sleeper: Sleeper, led: Led, script: seq<EnvStep>)
      requires Valid() && bios.Valid() && led.Valid(bios) && ApartFromScreen(sleeper, bios, led) && ScriptOk(script)
      requires f < FACE_COUNT
      modifies faces, lockout, sleeper, sleeper.timer, bios, bios.pixels, led.buffer
      ensures bios.Valid()
      ensures Snapshot(sleeper, bios) == ReceiveStep(old(Snapshot(sleeper, bios)), f, now, script)
      ensures bios.pixels[..] == old(bios.pixels[..])
    {
      if bios.rx[f].ready {
        HandlePacket(f, now, bios, sleeper, led, script);
      }
      bios.Consume(f);
    }

    /** `ReceiveFaceData`: every face, in face order. */
    method ReceiveFaceData(now: u32, bios: Bios, sleeper: Sleeper, led: Led, script: seq<EnvStep>)
      requires Valid() && bios.Valid() && led.Valid(bios) && ApartFromScreen(sleeper, bios, led) && ScriptOk(script)
      modifies faces, lockout, sleeper, sleeper.timer, bios, bios.pixels, led.buffer
      ensures bios.Valid()
      ensures Snapshot(sleeper, bios) == ReceiveUpTo(old(Snapshot(sleeper, bios)), now, script, FACE_COUNT)
      ensures bios.pixels[..] == old(bios.pixels[..])
    {
      for f := 0 to FACE_COUNT
        invariant bios.Valid()
        invariant Snapshot(sleeper, bios) == ReceiveUpTo(old(Snapshot(sleeper, bios)), now, script, f)
        invariant bios.pixels[..] == old(bios.pixels[..])
      {
        ReceiveOnFaceData(f, now, bios, sleeper, led, script);
      }
    }

    /**
     * `SendFaceData`'s loop body for face `f`; `current` is the
     * `currentMillis()` reading taken after the send and `accepted` the BIOS's
     * answer.
     */
    method SendOnFaceData(f: nat, now: u32, current: u32, bios: Bios) returns (ghost accepted: bool)
      requires Valid() && f < FACE_COUNT
      modifies faces, bios
      ensures faces[..] == old(faces[..])[f := SendOnFace(old(faces[f]), now, current, accepted).0]
      ensures bios.events == old(bios.events) +
        match SendOnFace(old(faces[f]), now, current, accepted).1
        case Some(packet) => [Sent(f, packet)]
        case None => []
      ensures bios.State() == old(bios.State()).(events := bios.events)
    {
      accepted := false;
      var fd := faces[f];
      if fd.sendTime <= now {
        fd := fd.(header := fd.header.(nonSpecial := true));
        var outgoingPacketLen := 1 + if fd.header.postponeSleep then 1 else 0;
        var ok := bios.SendPacket(f, [fd.outValue, Encode(fd.header)][..outgoingPacketLen]);
        if ok {
          fd := fd.(header := fd.header.(postponeSleep := false));
        }
        accepted := ok;
        fd := fd.(sendTime := Wrap32(current + TX_PROBE_TIME_MS));
      }
      faces[f] := fd;
    }

    /**
     * `SendFaceData`: `clock[f]` is the `currentMillis()` reading taken after
     * face f's send; the BIOS's answers are returned as `accepted`.
     */
    method SendFaceData(now: u32, clock: seq<u32>, bios: Bios) returns (ghost accepted: seq<bool>)
      requires Valid() && |clock| == FACE_COUNT
      modifies faces, bios
      ensures |accepted| == FACE_COUNT
      ensures faces[..] == SendUpTo(old(faces[..]), now, clock, accepted, FACE_COUNT).0
      ensures bios.events == old(bios.events) + SendUpTo(old(faces[..]), now, clock, accepted, FACE_COUNT).1
      ensures bios.State() == old(bios.State()).(events := bios.events)
    {
      accepted := seq(FACE_COUNT, _ => false);
      for f := 0 to FACE_COUNT
        invariant |accepted| == FACE_COUNT
        invariant bios.State() == old(bios.State()).(events := bios.events)
        invariant faces[..] == SendUpTo(old(faces[..]), now, clock, accepted, f).0
        invariant bios.events == old(bios.events) + SendUpTo(old(faces[..]), now, clock, accepted, f).1
      {
        ghost var before := accepted;
        ghost var ok := SendOnFaceData(f, now, clock[f], bios);
        accepted := accepted[f := ok];
        SendUpToPrefix(old(faces[..]), now, clock, before, accepted, f);
      }
    }

    /** `getDatagramLengthOnFace`: this build never holds a datagram. */
    method GetDatagramLengthOnFace(face: nat) returns (len: u8)
      ensures len == 0
    {
      len := 0;
    }

    /** `isDatagramReadyOnFace`: never. */
    method IsDatagramReadyOnFace(face: nat) returns (ready: bool)
      ensures !ready
    {
      var len := GetDatagramLengthOnFace(face);
      ready := len != 0;
    }

    /** `isDatagramPendingOnFace`: never. */
    method IsDatagramPendingOnFace(face: nat) returns (pending: bool)
      ensures !pending
    {
      pending := false;
    }

    /** `getDatagramOnFace`: the null pointer. */
    method GetDatagramOnFace(face: nat) returns (data: Option<seq<byte>>)
      ensures data.None?
    {
      data := None;
    }

    /** `markDatagramReadOnFace`: does nothing. */
    method MarkDatagramReadOnFace(face: nat)
      ensures unchanged(faces, prevState, lockout)
    {
    }

    /** `sendDatagramOnFace`: always refused, and nothing changes. */
    method SendDatagramOnFace(data: seq<byte>, face: nat) returns (ok: bool)
      ensures !ok
    {
      ok := false;
    }

    /** `getLastValueReceivedOnFace`. */
    method GetLastValueReceivedOnFace(face: nat) returns (value: byte)
      requires Valid() && face < FACE_COUNT
      ensures value == faces[face].inValue
    {
      value := faces[face].inValue;
    }

    /**
     * `didValueOnFaceChange`: true exactly when the face value differs from
     * the shadow copy, which then catches up.
     */
    method DidValueOnFaceChange(face: nat) returns (changed: bool)
      requires Valid() && face < FACE_COUNT
      modifies prevState
      ensures changed <==> faces[face].inValue != old(prevState[face])
      ensures prevState[..] == old(prevState[..])[face := faces[face].inValue]
    {
      var curr := GetLastValueReceivedOnFace(face);
      if curr == prevState[face] {
        return false;
      }
      prevState[face] := curr;
      return true;
    }

    /** `isValueReceivedOnFaceExpired`: the raw deadline is below `now`. */
    method IsValueReceivedOnFaceExpired(face: nat, now: u32) returns (expired: bool)
      requires Valid() && face < FACE_COUNT
      ensures expired <==> ExpiredAt(faces[face].expireTime, now)
    {
      expired := faces[face].expireTime < now;
    }

    /** `isAlone`: every face has expired. */
    method IsAlone(now: u32) returns (alone: bool)
      requires Valid()
      ensures alone <==> forall f :: 0 <= f < FACE_COUNT ==> ExpiredAt(faces[f].expireTime, now)
    {
      for face := 0 to FACE_COUNT
        invariant forall f :: 0 <= f < face ==> ExpiredAt(faces[f].expireTime, now)
      {
        var expired := IsValueReceivedOnFaceExpired(face, now);
        if !expired {
          return false;
        }
      }
      return true;
    }

    /** `setValueSentOnAllFaces`: every face sends `value`; nothing else changes. */
    method SetValueSentOnAllFaces(value: byte)
      requires Valid()
      modifies faces
      ensures forall f :: 0 <= f < FACE_COUNT ==> faces[f] == old(faces[f]).(outValue := value)
    {
      for face := 0 to FACE_COUNT
        invariant forall f :: 0 <= f < FACE_COUNT ==>
          faces[f] == (if f < face then old(faces[f]).(outValue := value) else old(faces[f]))
      {
        faces[face] := faces[face].(outValue := value);
      }
    }

    /** `setValueSentOnFace`: only that face's `outValue` changes. */
    method SetValueSentOnFace(value: byte, face: nat)
      requires Valid() && face < FACE_COUNT
      modifies faces
      ensures faces[..] == old(faces[..])[face := old(faces[face]).(outValue := value)]
    {
      faces[face] := faces[face].(outValue := value);
    }
  }
}
