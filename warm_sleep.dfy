/**
 * blinklib_warm_sleep.cpp: the warm-sleep sequence.  `Enter` saves the
 * screen, floods every face with the force-sleep packet while fading out,
 * waits (with the clock saved) for a wake packet, a button press or a
 * hardware wake, restores the clock, floods every face with the wake packet
 * while fading in, and restores the screen.
 */
module WarmSleep {
  import opened Common
  import opened Timers
  import opened Bios
  import opened LedState

  /** Inactivity before a warm sleep: 10 minutes, in milliseconds. */
  const WARM_SLEEP_TIMEOUT_MS: u32 := 10 * 60 * 1000

  const SLEEP_ANIMATION_MAX_BRIGHTNESS: u8 := 30

  /** How many times each animation sends its packet on every face. */
  const SLEEP_PACKET_REPEAT_COUNT: nat := 5

  /** First and second data byte of a force-sleep packet (0b00010101). */
  const TRIGGER_WARM_SLEEP_SPECIAL_VALUE: byte := 0x15

  /** First and second data byte of the packet that wakes the neighbours (0b00110011). */
  const NOP_SPECIAL_VALUE: byte := 0x33

  const FORCE_SLEEP_PACKET: seq<byte> := [TRIGGER_WARM_SLEEP_SPECIAL_VALUE, TRIGGER_WARM_SLEEP_SPECIAL_VALUE]

  const NOP_WAKE_PACKET: seq<byte> := [NOP_SPECIAL_VALUE, NOP_SPECIAL_VALUE]

  /** Sends in one animation: every face, SLEEP_PACKET_REPEAT_COUNT times over. */
  const FLOOD_LENGTH: nat := SLEEP_PACKET_REPEAT_COUNT * FACE_COUNT

  /** The `uint8_t` fade counter after `k` decrements from `start`. */
  function FadeLevel(start: u8, k: nat): u8
  {
    (start - k) % 0x100
  }

  /** One `fade_brightness--` on the `uint8_t` counter. */
  lemma FadeStep(start: u8, k: nat)
    ensures FadeLevel(start, k + 1) == (FadeLevel(start, k) - 1) % 0x100
  {
    var q := (start - k) / 0x100;
    assert start - k == q * 0x100 + FadeLevel(start, k);
    assert start - k - 1 == q * 0x100 + (FadeLevel(start, k) - 1);
  }

  /** Counting down from 0 wraps: after `k + 1` decrements (k < 256) the counter reads 255 - k. */
  lemma WakeLevel(k: nat)
    requires k < 0x100
    ensures FadeLevel(0, k + 1) == 255 - k
  {
    assert 0 - (k + 1) == (255 - k) - 0x100;
  }

  /** The packet an animation sends: force-sleep going to sleep, NOP on waking. */
  function FloodPacket(wake: bool): seq<byte>
  {
    if wake then NOP_WAKE_PACKET else FORCE_SLEEP_PACKET
  }

  /**
   * The colour shown at the `k`-th send (from 0).  Going to sleep the counter
   * is shown and then decremented from 30; on waking it is decremented from 0
   * first and then shown.
   */
  function Shade(wake: bool, k: nat): Event
  {
    if wake then ShowWake(FadeLevel(0, k + 1)) else ShowSleep(FadeLevel(SLEEP_ANIMATION_MAX_BRIGHTNESS, k))
  }

  /** What the first `i` sends of an animation ask of the BIOS: show a shade, send to the next face. */
  function Flood(wake: bool, i: nat): (log: seq<Event>)
    ensures |log| == 2 * i
  {
    if i == 0 then []
    else Flood(wake, i - 1) + [Shade(wake, i - 1), Sent((i - 1) % FACE_COUNT, FloodPacket(wake))]
  }

  lemma FloodStep(wake: bool, n: nat, f: nat)
    requires f < FACE_COUNT
    ensures Flood(wake, n * FACE_COUNT + f + 1) ==
      Flood(wake, n * FACE_COUNT + f) + [Shade(wake, n * FACE_COUNT + f), Sent(f, FloodPacket(wake))]
  {
    assert (n * FACE_COUNT + f) % FACE_COUNT == f;
  }

  /** Number of packets in `log` sent on face `f`. */
  function SendsOn(log: seq<Event>, f: nat): (n: nat)
    ensures n <= |log|
  {
    if log == [] then 0
    else SendsOn(log[..|log| - 1], f) + (if log[|log| - 1].Sent? && log[|log| - 1].face == f then 1 else 0)
  }

  lemma {:induction false} SendsOnAppend(a: seq<Event>, b: seq<Event>, f: nat)
    ensures SendsOn(a + b, f) == SendsOn(a, f) + SendsOn(b, f)
    decreases |b|
  {
    if b == [] {
      assert a + b == a;
    } else {
      assert (a + b)[..|a + b| - 1] == a + b[..|b| - 1];
      SendsOnAppend(a, b[..|b| - 1], f);
    }
  }

  /** The `k`-th send of an animation shows the `k`-th shade and then sends to face `k mod 6`. */
  lemma {:induction false} FloodEntries(wake: bool, i: nat)
    ensures forall k :: 0 <= k < i ==> Flood(wake, i)[2 * k] == Shade(wake, k)
    ensures forall k :: 0 <= k < i ==> Flood(wake, i)[2 * k + 1] == Sent(k % FACE_COUNT, FloodPacket(wake))
  {
    if i > 0 {
      FloodEntries(wake, i - 1);
    }
  }

  /** After `i` sends, face `f` has had one send per completed round plus one if the current round passed it. */
  lemma {:induction false} FloodSendCount(wake: bool, i: nat, f: nat)
    requires f < FACE_COUNT
    ensures SendsOn(Flood(wake, i), f) == i / FACE_COUNT + (if f < i % FACE_COUNT then 1 else 0)
  {
    if i > 0 {
      var step := [Shade(wake, i - 1), Sent((i - 1) % FACE_COUNT, FloodPacket(wake))];
      FloodSendCount(wake, i - 1, f);
      SendsOnAppend(Flood(wake, i - 1), step, f);
      assert step[..1] == [Shade(wake, i - 1)];
      assert SendsOn(step, f) == if (i - 1) % FACE_COUNT == f then 1 else 0;
    }
  }

  /**
   * The sleep animation sends `[TRIGGER, TRIGGER]` exactly five times on every
   * face, in face order, showing brightness 30 down to 1; the counter ends at 0.
   */
  lemma SleepAnimationShape()
    ensures forall k :: 0 <= k < FLOOD_LENGTH ==>
      Flood(false, FLOOD_LENGTH)[2 * k + 1] == Sent(k % FACE_COUNT, FORCE_SLEEP_PACKET)
    ensures forall k :: 0 <= k < FLOOD_LENGTH ==>
      Flood(false, FLOOD_LENGTH)[2 * k] == ShowSleep(SLEEP_ANIMATION_MAX_BRIGHTNESS - k)
    ensures forall f :: 0 <= f < FACE_COUNT ==> SendsOn(Flood(false, FLOOD_LENGTH), f) == SLEEP_PACKET_REPEAT_COUNT
    ensures FadeLevel(SLEEP_ANIMATION_MAX_BRIGHTNESS, FLOOD_LENGTH) == 0
  {
    assert FLOOD_LENGTH == 30;
    FloodEntries(false, FLOOD_LENGTH);
    forall k | 0 <= k < FLOOD_LENGTH
      ensures Flood(false, FLOOD_LENGTH)[2 * k] == ShowSleep(SLEEP_ANIMATION_MAX_BRIGHTNESS - k)
    {
      assert FadeLevel(SLEEP_ANIMATION_MAX_BRIGHTNESS, k) == SLEEP_ANIMATION_MAX_BRIGHTNESS - k;
    }
    forall f | 0 <= f < FACE_COUNT
      ensures SendsOn(Flood(false, FLOOD_LENGTH), f) == SLEEP_PACKET_REPEAT_COUNT
    {
      FloodSendCount(false, FLOOD_LENGTH, f);
    }
  }

  /**
   * The wake animation sends `[NOP, NOP]` exactly five times on every face,
   * in face order; its counter starts at 0 and is decremented before it is
   * shown, so it wraps and shows 255 down to 226.
   */
  lemma WakeAnimationShape()
    ensures forall k :: 0 <= k < FLOOD_LENGTH ==>
      Flood(true, FLOOD_LENGTH)[2 * k + 1] == Sent(k % FACE_COUNT, NOP_WAKE_PACKET)
    ensures forall k :: 0 <= k < FLOOD_LENGTH ==> Flood(true, FLOOD_LENGTH)[2 * k] == ShowWake(255 - k)
    ensures forall f :: 0 <= f < FACE_COUNT ==> SendsOn(Flood(true, FLOOD_LENGTH), f) == SLEEP_PACKET_REPEAT_COUNT
  {
    FloodEntries(true, FLOOD_LENGTH);
    forall k | 0 <= k < FLOOD_LENGTH
      ensures Flood(true, FLOOD_LENGTH)[2 * k] == ShowWake(255 - k)
    {
      WakeLevel(k);
    }
    forall f | 0 <= f < FACE_COUNT
      ensures SendsOn(Flood(true, FLOOD_LENGTH), f) == SLEEP_PACKET_REPEAT_COUNT
    {
      FloodSendCount(true, FLOOD_LENGTH, f);
    }
  }

  /** A ready receive record holding the wake packet at bytes 1 and 2, after the BIOS type byte. */
  predicate HoldsNopWake(r: RxRecord)
    requires RecordOk(r)
  {
    r.ready && r.buffer[1] == NOP_SPECIAL_VALUE && r.buffer[2] == NOP_SPECIAL_VALUE
  }

  predicate SawNopWake(rx: seq<RxRecord>)
    requires RxOk(rx)
  {
    exists f :: 0 <= f < FACE_COUNT && HoldsNopWake(rx[f])
  }

  /** The wait loop's condition: no wake packet seen, no button press, no hardware wake. */
  predicate StillAsleep(s: BiosState, saw: bool)
  {
    !saw && s.buttonFlags & BUTTON_BITFLAG_PRESSED == 0 && s.wokeFlag != 0
  }

  /**
   * The environment while asleep: well-formed steps, ending in a hardware
   * wake (the BIOS eventually powers the tile down and a button press wakes
   * it with `wokeFlag` cleared).
   */
  predicate ScriptOk(script: seq<EnvStep>)
  {
    |script| > 0 && script[|script| - 1].woke && forall i :: 0 <= i < |script| ==> StepOk(script[i])
  }

  /**
   * The state and saw-packet flag when the wait loop stops, the environment
   * running from step `k`: each pass lets the environment act, then consumes
   * every ready packet, noting whether one was a wake packet.
   */
  function Wait(s: BiosState, saw: bool, script: seq<EnvStep>, k: nat): (r: (BiosState, bool))
    requires RxOk(s.rx) && ScriptOk(script) && k <= |script|
    ensures RxOk(r.0.rx)
    decreases |script| - k
  {
    if !StillAsleep(s, saw) || k == |script| then (s, saw)
    else
      var woken := Evolve(s, script[k]);
      Wait(woken.(rx := AllConsumed(woken.rx)), SawNopWake(woken.rx), script, k + 1)
  }

  /** One pass of the wait loop. */
  lemma WaitStep(s: BiosState, saw: bool, script: seq<EnvStep>, k: nat)
    requires RxOk(s.rx) && ScriptOk(script) && k < |script| && StillAsleep(s, saw)
    ensures Wait(s, saw, script, k) ==
      var woken := Evolve(s, script[k]);
      Wait(woken.(rx := AllConsumed(woken.rx)), SawNopWake(woken.rx), script, k + 1)
  {
  }

  /**
   * The wait loop stops only on a wake packet, a button press or a hardware
   * wake; it leaves the event log and sleep postponements alone, and once it
   * has scanned, no packet is left ready.
   */
  lemma {:induction false} WaitStops(s: BiosState, saw: bool, script: seq<EnvStep>, k: nat)
    requires RxOk(s.rx) && ScriptOk(script) && k <= |script|
    requires k == |script| ==> !StillAsleep(s, saw)
    ensures !StillAsleep(Wait(s, saw, script, k).0, Wait(s, saw, script, k).1)
    ensures Wait(s, saw, script, k).0.events == s.events
    ensures Wait(s, saw, script, k).0.postpones == s.postpones
    ensures Wait(s, saw, script, k).0.startState == s.startState
    ensures StillAsleep(s, saw) ==> forall f :: 0 <= f < FACE_COUNT ==> !Wait(s, saw, script, k).0.rx[f].ready
    decreases |script| - k
  {
    if StillAsleep(s, saw) {
      var woken := Evolve(s, script[k]);
      var next := woken.(rx := AllConsumed(woken.rx));
      if k + 1 == |script| {
        assert next.wokeFlag == 0;
      } else {
        WaitStops(next, SawNopWake(woken.rx), script, k + 1);
      }
    }
  }

  /** The BIOS state as the wait begins. */
  function FallAsleep(s: BiosState): (r: BiosState)
    requires RxOk(s.rx)
    ensures RxOk(r.rx) && StillAsleep(r, false)
  {
    s.(postpones := s.postpones + 1,
       events := s.events + Flood(false, FLOOD_LENGTH) + [ShowOff],
       buttonFlags := 0,
       rx := AllConsumed(s.rx),
       wokeFlag := 1)
  }

  /** The BIOS state `Enter` leaves behind. */
  function EnterResult(s: BiosState, script: seq<EnvStep>): (r: BiosState)
    requires RxOk(s.rx) && ScriptOk(script)
    ensures RxOk(r.rx)
  {
    var t := Wait(FallAsleep(s), false, script, 0).0;
    t.(millis := s.millis,
       postpones := t.postpones + 1,
       rx := AllConsumed(t.rx),
       events := t.events + Flood(true, FLOOD_LENGTH))
  }

  /**
   * Across a warm sleep: the clock reads what it read before the wait; the
   * BIOS saw the sleep animation, the screen turned off and the wake
   * animation, and two sleep postponements; no packet is left ready; and the
   * wait ended on a wake packet, a button press or a hardware wake.
   */
  lemma EnterOutcome(s: BiosState, script: seq<EnvStep>)
    requires RxOk(s.rx) && ScriptOk(script)
    ensures EnterResult(s, script).millis == s.millis
    ensures EnterResult(s, script).events ==
      s.events + Flood(false, FLOOD_LENGTH) + [ShowOff] + Flood(true, FLOOD_LENGTH)
    ensures EnterResult(s, script).postpones == s.postpones + 2
    ensures EnterResult(s, script).startState == s.startState
    ensures forall f :: 0 <= f < FACE_COUNT ==> !EnterResult(s, script).rx[f].ready
    ensures var (t, seen) := Wait(FallAsleep(s), false, script, 0);
      (seen || t.buttonFlags & BUTTON_BITFLAG_PRESSED != 0 || t.wokeFlag == 0) &&
      EnterResult(s, script).buttonFlags == t.buttonFlags &&
      EnterResult(s, script).wokeFlag == t.wokeFlag
  {
    WaitStops(FallAsleep(s), false, script, 0);
  }

  class Sleeper {
    /** `has_warm_woken_flag_`: set when a warm sleep ends. */
    var hasWarmWokenFlag: byte

    /** `timer_`: when the tile warm-sleeps for lack of activity. */
    const timer: Timer

    constructor ()
      ensures hasWarmWokenFlag == 0 && timer.expireTime == 0
    {
      hasWarmWokenFlag := 0;
      timer := new Timer();
    }

    /** `ResetTimer`: the next warm sleep is ten minutes from now. */
    method ResetTimer(now: u32)
      modifies timer
      ensures timer.expireTime == SetAt(now, WARM_SLEEP_TIMEOUT_MS)
    {
      timer.Set(now, WARM_SLEEP_TIMEOUT_MS);
    }

    /** `clear_packet_buffers`: every face's packet is marked read. */
    static method ClearPacketBuffers(bios: Bios)
      requires bios.Valid()
      modifies bios
      ensures bios.Valid()
      ensures bios.State() == old(bios.State()).(rx := AllConsumed(old(bios.rx)))
    {
      for f := 0 to FACE_COUNT
        invariant bios.Valid()
        invariant bios.State() == old(bios.State()).(rx := bios.rx)
        invariant forall g :: 0 <= g < FACE_COUNT ==>
          bios.rx[g] == if g < f then old(bios.rx[g]).(ready := false) else old(bios.rx[g])
      {
        bios.Consume(f);
      }
      assert bios.rx == AllConsumed(old(bios.rx));
    }

    /** The sleep animation: show, decrement, send force-sleep; five rounds over the faces. */
    static method SleepAnimation(bios: Bios) returns (fade: u8)
      requires bios.Valid()
      modifies bios, bios.pixels
      ensures bios.Valid()
      ensures bios.State() == old(bios.State()).(events := old(bios.events) + Flood(false, FLOOD_LENGTH))
      ensures fade == 0
    {
      fade := SLEEP_ANIMATION_MAX_BRIGHTNESS;
      ghost var sent := 0;
      for n := 0 to SLEEP_PACKET_REPEAT_COUNT
        invariant bios.Valid() && bios.State() == old(bios.State()).(events := bios.events)
        invariant sent == n * FACE_COUNT
        invariant fade == FadeLevel(SLEEP_ANIMATION_MAX_BRIGHTNESS, sent)
        invariant bios.events == old(bios.events) + Flood(false, sent)
      {
        for f := 0 to FACE_COUNT
          invariant bios.Valid() && bios.State() == old(bios.State()).(events := bios.events)
          invariant sent == n * FACE_COUNT + f
          invariant fade == FadeLevel(SLEEP_ANIMATION_MAX_BRIGHTNESS, sent)
          invariant bios.events == old(bios.events) + Flood(false, sent)
        {
          FloodStep(false, n, f);
          FadeStep(SLEEP_ANIMATION_MAX_BRIGHTNESS, sent);
          bios.ShowColor(ShowSleep(fade));
          fade := (fade - 1) % 0x100;
          var _ := bios.SendPacket(f, FORCE_SLEEP_PACKET);
          sent := sent + 1;
        }
      }
    }

    /** The wake animation: decrement (from 0), show, send NOP; five rounds over the faces. */
    static method WakeAnimation(bios: Bios)
      requires bios.Valid()
      modifies bios, bios.pixels
      ensures bios.Valid()
      ensures bios.State() == old(bios.State()).(events := old(bios.events) + Flood(true, FLOOD_LENGTH))
    {
      var fade: u8 := 0;
      ghost var sent := 0;
      for n := 0 to SLEEP_PACKET_REPEAT_COUNT
        invariant bios.Valid() && bios.State() == old(bios.State()).(events := bios.events)
        invariant sent == n * FACE_COUNT
        invariant fade == FadeLevel(0, sent)
        invariant bios.events == old(bios.events) + Flood(true, sent)
      {
        for f := 0 to FACE_COUNT
          invariant bios.Valid() && bios.State() == old(bios.State()).(events := bios.events)
          invariant sent == n * FACE_COUNT + f
          invariant fade == FadeLevel(0, sent)
          invariant bios.events == old(bios.events) + Flood(true, sent)
        {
          FloodStep(true, n, f);
          FadeStep(0, sent);
          fade := (fade - 1) % 0x100;
          bios.ShowColor(ShowWake(fade));
          var _ := bios.SendPacket(f, NOP_WAKE_PACKET);
          sent := sent + 1;
        }
      }
    }

    /** One pass of the wait loop's scan: consumes every ready packet, reporting a wake packet among them. */
    static method ScanForWake(bios: Bios) returns (saw: bool)
      requires bios.Valid()
      modifies bios
      ensures bios.Valid()
      ensures bios.State() == old(bios.State()).(rx := AllConsumed(old(bios.rx)))
      ensures saw == SawNopWake(old(bios.rx))
    {
      saw := false;
      for f := 0 to FACE_COUNT
        invariant bios.Valid()
        invariant bios.State() == old(bios.State()).(rx := bios.rx)
        invariant forall g :: 0 <= g < FACE_COUNT ==>
          bios.rx[g] == if g < f then old(bios.rx[g]).(ready := false) else old(bios.rx[g])
        invariant saw <==> exists g :: 0 <= g < f && HoldsNopWake(old(bios.rx)[g])
      {
        if bios.rx[f].ready {
          if bios.rx[f].buffer[1] == NOP_SPECIAL_VALUE && bios.rx[f].buffer[2] == NOP_SPECIAL_VALUE {
            saw := true;
          }
          bios.Consume(f);
        }
      }
      assert bios.rx == AllConsumed(old(bios.rx));
    }

    /** The wait loop, with the BIOS interrupts acting as the script says before each scan. */
    static method AwaitWake(bios: Bios, script: seq<EnvStep>) returns (saw: bool)
      requires bios.Valid() && ScriptOk(script)
      modifies bios
      ensures bios.Valid()
      ensures (bios.State(), saw) == Wait(old(bios.State()), false, script, 0)
    {
      saw := false;
      var k := 0;
      while !saw && bios.buttonFlags & BUTTON_BITFLAG_PRESSED == 0 && bios.wokeFlag != 0
        invariant bios.Valid() && k <= |script|
        invariant k == |script| ==> bios.wokeFlag == 0
        invariant Wait(bios.State(), saw, script, k) == Wait(old(bios.State()), false, script, 0)
        decreases |script| - k
      {
        ghost var asleep := bios.State();
        WaitStep(asleep, saw, script, k);
        bios.Environment(script[k]);
        ghost var woken := bios.State();
        k := k + 1;
        saw := ScanForWake(bios);
        assert bios.State() == woken.(rx := AllConsumed(woken.rx));
      }
    }

    /** The first half of `Enter`: up to the wait, with the clock reading saved. */
    static method FallAsleepPhase(bios: Bios, led: Led) returns (saveTime: u32)
      requires bios.Valid() && led.Valid(bios)
      modifies bios, bios.pixels, led.buffer
      ensures bios.Valid()
      ensures bios.State() == FallAsleep(old(bios.State()))
      ensures saveTime == old(bios.millis)
      ensures led.buffer[..] == old(bios.pixels[..])
    {
      bios.PostponeSleep();
      led.SaveState(bios);
      var _ := SleepAnimation(bios);
      bios.ShowColor(ShowOff);
      saveTime := bios.millis;
      bios.buttonFlags := 0;
      ClearPacketBuffers(bios);
      bios.wokeFlag := 1;
    }

    /** The second half of `Enter`: from the end of the wait to the restored screen. */
    method WakePhase(now: u32, bios: Bios, led: Led, saveTime: u32)
      requires bios.Valid() && led.Valid(bios)
      modifies this, timer, bios, bios.pixels
      ensures bios.Valid()
      ensures bios.State() == old(bios.State()).(
        millis := saveTime,
        postpones := old(bios.postpones) + 1,
        rx := AllConsumed(old(bios.rx)),
        events := old(bios.events) + Flood(true, FLOOD_LENGTH))
      ensures hasWarmWokenFlag == 1
      ensures timer.expireTime == SetAt(now, WARM_SLEEP_TIMEOUT_MS)
      ensures bios.pixels[..] == led.buffer[..]
    {
      bios.millis := saveTime;
      bios.PostponeSleep();
      hasWarmWokenFlag := 1;
      ResetTimer(now);
      ClearPacketBuffers(bios);
      WakeAnimation(bios);
      led.RestoreState(bios);
    }

    /** `Enter`: the whole warm sleep, from saving the screen to restoring it. */
    method Enter(now: u32, bios: Bios, led: Led, script: seq<EnvStep>)
      requires bios.Valid() && led.Valid(bios) && ScriptOk(script)
      modifies this, timer, bios, bios.pixels, led.buffer
      ensures bios.Valid()
      ensures bios.State() == EnterResult(old(bios.State()), script)
      ensures hasWarmWokenFlag == 1
      ensures timer.expireTime == SetAt(now, WARM_SLEEP_TIMEOUT_MS)
      ensures bios.pixels[..] == old(bios.pixels[..])
    {
      var saveTime := FallAsleepPhase(bios, led);
      var _ := AwaitWake(bios, script);
      WakePhase(now, bios, led, saveTime);
    }
  }
}
