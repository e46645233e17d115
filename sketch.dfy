/**
 * The Blink sketch: every tile takes on the colour of the "dominant" tile
 * next to it, where dominance is the circular maximum of colour indices, and
 * marks a face whose neighbour sends an index it does not know.  The
 * colour, dimming and throbbing code is floating point and left out; what
 * remains is the integer state the sketch keeps between loops.
 */
module BlinkSketch {
  import opened Common

  /** `myState_count`: the number of entries in `colors` (blue, red, yellow, orange, green). */
  const MY_STATE_COUNT: u8 := 5

  function Min(a: int, b: int): (m: int)
    ensures m <= a && m <= b && (m == a || m == b)
  {
    if a <= b then a else b
  }

  function Max(a: int, b: int): (m: int)
    ensures m >= a && m >= b && (m == a || m == b)
  {
    if a <= b then b else a
  }

  /**
   * `circularMax`: of two positions on a circle of `count` steps, the larger
   * one when the two are closer going up from the smaller one than going
   * round through `count`, else the smaller one.  Only the sorted pair is
   * used; `count - j` is a byte subtraction, the comparison is in `int`.
   */
  function CircularMax(a: u8, b: u8, count: u8): (r: u8)
    ensures r == a || r == b
    ensures a <= count && b <= count && a != b ==>
      (r == Max(a, b) <==> Max(a, b) - Min(a, b) < Min(a, b) + (count - Max(a, b)))
    ensures a <= count && b <= count && a != b ==>
      (r == Min(a, b) <==> Max(a, b) - Min(a, b) >= Min(a, b) + (count - Max(a, b)))
  {
    var (i, j) := if b > a then (a, b) else (b, a);
    var x := i;
    var y := j - i;
    var z := (count - j) % 256;
    if y < x + z then j else i
  }

  /** Only the sorted pair matters, so the argument order never changes the answer. */
  lemma CircularMaxSymmetric(a: u8, b: u8, count: u8)
    ensures CircularMax(a, b, count) == CircularMax(b, a, count)
  {
    if a != b {
      assert (if b > a then (a, b) else (b, a)) == (if a > b then (b, a) else (a, b));
    }
  }

  /**
   * In the tie the comment calls ambiguous (equal distances both ways round)
   * the smaller index wins, whichever argument it was passed as: with 1 and 3
   * on a circle of 4 the first argument wins.
   */
  lemma CircularMaxTieGoesToSmaller(a: u8, b: u8, count: u8)
    requires a <= count && b <= count
    requires Max(a, b) - Min(a, b) == Min(a, b) + (count - Max(a, b))
    ensures CircularMax(a, b, count) == Min(a, b)
    ensures CircularMax(1, 3, 4) == 1
  {
  }

  /** The sketch's globals: `myState` and `errorFlag`, the latter as a sequence. */
  datatype SketchState = SketchState(myState: u8, errors: seq<bool>)

  predicate StateOk(s: SketchState)
  {
    s.myState < MY_STATE_COUNT && |s.errors| == FACE_COUNT
  }

  /** The button half of `loop`: a single click moves to the next colour, wrapping to the first, and clears every error. */
  function Click(s: SketchState, singleClicked: bool): (r: SketchState)
    ensures |r.errors| == |s.errors|
    ensures !singleClicked ==> r == s
    ensures singleClicked ==> forall f :: 0 <= f < |r.errors| ==> !r.errors[f]
  {
    if singleClicked then
      var next := (s.myState + 1) % 256;
      SketchState(if next >= MY_STATE_COUNT then 0 else next, seq(|s.errors|, _ => false))
    else s
  }

  /** A click steps through the colours cyclically. */
  lemma ClickCycles(s: SketchState)
    requires StateOk(s)
    ensures StateOk(Click(s, true))
    ensures Click(s, true).myState == (s.myState + 1) % MY_STATE_COUNT
  {
  }

  /**
   * What face `f`'s neighbour does to the state: nothing when its value has
   * expired (`None`), an error mark for an index outside the colour table, and
   * otherwise `myState` becomes the circular maximum of the two.
   */
  function Observe(s: SketchState, f: nat, seen: Option<u8>): (r: SketchState)
    requires f < |s.errors|
    ensures |r.errors| == |s.errors|
  {
    match seen
    case None => s
    case Some(neighborState) =>
      if neighborState >= MY_STATE_COUNT then s.(errors := s.errors[f := true])
      else s.(myState := CircularMax(neighborState, s.myState, MY_STATE_COUNT))
  }

  /** An out-of-range neighbour value marks its face and leaves `myState` alone; an in-range one marks nothing. */
  lemma ObserveOutOfRange(s: SketchState, f: nat, v: u8)
    requires f < |s.errors|
    ensures v >= MY_STATE_COUNT ==> Observe(s, f, Some(v)).errors[f] && Observe(s, f, Some(v)).myState == s.myState
    ensures v < MY_STATE_COUNT ==> Observe(s, f, Some(v)).errors == s.errors
    ensures Observe(s, f, None) == s
  {
  }

  /** The first `n` faces of the `FOREACH_FACE` loop, in face order. */
  function ObserveUpTo(s: SketchState, neighbours: seq<Option<u8>>, n: nat): (r: SketchState)
    requires n <= |neighbours| == |s.errors|
    ensures |r.errors| == |s.errors|
  {
    if n == 0 then s
    else Observe(ObserveUpTo(s, neighbours, n - 1), n - 1, neighbours[n - 1])
  }

  /** The integer part of one `loop`. */
  function LoopStep(s: SketchState, singleClicked: bool, neighbours: seq<Option<u8>>): (r: SketchState)
    requires |neighbours| == |s.errors|
    ensures |r.errors| == |s.errors|
  {
    ObserveUpTo(Click(s, singleClicked), neighbours, |neighbours|)
  }

  /** The face loop keeps `myState` a valid colour index: only in-range values reach `circularMax`. */
  lemma {:induction false} ObserveKeepsStateInRange(s: SketchState, neighbours: seq<Option<u8>>, n: nat)
    requires n <= |neighbours| == |s.errors|
    requires s.myState < MY_STATE_COUNT
    ensures ObserveUpTo(s, neighbours, n).myState < MY_STATE_COUNT
  {
    if n > 0 {
      ObserveKeepsStateInRange(s, neighbours, n - 1);
    }
  }

  /**
   * After the face loop a face is marked exactly when it was marked before or
   * its neighbour sent an index outside the colour table.
   */
  lemma {:induction false} ObserveMarksErrors(s: SketchState, neighbours: seq<Option<u8>>, n: nat, g: nat)
    requires n <= |neighbours| == |s.errors| && g < |s.errors|
    ensures ObserveUpTo(s, neighbours, n).errors[g] <==>
      s.errors[g] || (g < n && neighbours[g].Some? && neighbours[g].value >= MY_STATE_COUNT)
  {
    if n > 0 {
      ObserveMarksErrors(s, neighbours, n - 1, g);
    }
  }

  /** `loop` keeps `myState < myState_count`, so `colors[myState]` is always in bounds. */
  lemma LoopKeepsStateInRange(s: SketchState, singleClicked: bool, neighbours: seq<Option<u8>>)
    requires StateOk(s) && |neighbours| == FACE_COUNT
    ensures StateOk(LoopStep(s, singleClicked, neighbours))
  {
    ObserveKeepsStateInRange(Click(s, singleClicked), neighbours, |neighbours|);
  }

  /** The sketch's globals and its `setup`/`loop`, with the blinklib calls it makes passed in as their answers. */
  class Sketch {
    var myState: u8
    const errorFlag: array<bool>

    predicate Valid()
      reads this
    {
      errorFlag.Length == FACE_COUNT && myState < MY_STATE_COUNT
    }

    function State(): (s: SketchState)
      reads this, errorFlag
      ensures s.myState == myState && s.errors == errorFlag[..]
    {
      SketchState(myState, errorFlag[..])
    }

    /** The globals as the C runtime starts them: zero. */
    constructor ()
      ensures Valid() && fresh(errorFlag)
      ensures State() == SketchState(0, seq(FACE_COUNT, _ => false))
    {
      myState := 0;
      errorFlag := new bool[FACE_COUNT](_ => false);
    }

    /** `clearErrors`: every face's error mark goes off. */
    method ClearErrors()
      requires Valid()
      modifies errorFlag
      ensures forall f :: 0 <= f < errorFlag.Length ==> !errorFlag[f]
    {
      for f := 0 to errorFlag.Length
        invariant forall g :: 0 <= g < f ==> !errorFlag[g]
      {
        errorFlag[f] := false;
      }
    }

    /** `setup`. */
    method Setup()
      requires Valid()
      modifies errorFlag
      ensures Valid()
      ensures State() == SketchState(myState, seq(FACE_COUNT, _ => false))
    {
      ClearErrors();
    }

    /**
     * `loop`, given whether `buttonSingleClicked` answered true and, per face,
     * `None` where `isValueReceivedOnFaceExpired` answered true and otherwise
     * `getLastValueReceivedOnFace`.  Returns the value handed to
     * `setValueSentOnAllFaces`.
     */
    method Loop(singleClicked: bool, neighbours: seq<Option<u8>>) returns (sent: u8)
      requires Valid() && |neighbours| == FACE_COUNT
      modifies this, errorFlag
      ensures Valid()
      ensures State() == LoopStep(old(State()), singleClicked, neighbours)
      ensures sent == myState
    {
      ghost var start := Click(State(), singleClicked);
      if singleClicked {
        myState := (myState + 1) % 256;
        if myState >= MY_STATE_COUNT {
          myState := 0;
        }
        ClearErrors();
        assert errorFlag[..] == seq(FACE_COUNT, _ => false);
      }
      assert State() == start;
      ObserveKeepsStateInRange(start, neighbours, |neighbours|);
      for f := 0 to FACE_COUNT
        invariant errorFlag.Length == FACE_COUNT
        invariant State() == ObserveUpTo(start, neighbours, f)
      {
        match neighbours[f]
        case None =>
        case Some(neighborState) =>
          if neighborState >= MY_STATE_COUNT {
            errorFlag[f] := true;
          } else {
            myState := CircularMax(neighborState, myState, MY_STATE_COUNT);
          }
      }
      sent := myState;
    }
  }
}
