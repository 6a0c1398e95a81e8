/**
 The event-driven core of the Material slider widget as a pure transition
 function: every handler of `Slider` takes the widget state and the
 geometry the host has already computed, and yields the new state together
 with the side effects the handler issues, in order.
 */
module SliderMachine {

  /** The `QAbstractSlider::SliderAction` values the handlers use. */
  datatype SliderAction = NoAction | PageStepAdd | PageStepSub | ToMinimum | ToMaximum

  /** The `QAbstractSlider::SliderChange` notifications. */
  datatype Change = RangeChange | OrientationChange | StepsChange | ValueChange

  /** The kind of a generic widget change event; only the enabled change matters here. */
  datatype EventType = EnabledChange | OtherChange

  /** Signals of the slider's animation state machine. */
  datatype Signal = ChangedToMinimum | ChangedFromMinimum | SliderEnabled | SliderDisabled

  /** A side effect a handler issues, recorded instead of performed. */
  datatype Effect =
    | Redraw                       // update()
    | Emitted(signal: Signal)      // emit d->machine->...
    | Triggered(action: SliderAction)  // triggerAction(action)
    | RepeatSet(action: SliderAction)  // setRepeatAction(action)
    | PositionSet(position: int)   // setSliderPosition(position)
    | DownSet(down: bool)          // setSliderDown(down)
    | HaloSizeSet(size: int)       // d->thumb->setHaloSize(size)
    | HoveredSet(hovered: bool)    // d->setHovered(hovered)

  /**
   The state the handlers read and write: the range, position, pressed flag
   and repeat action kept by the framework's abstract slider, and the
   slider's own private fields.
   */
  datatype State = State(
    minimum: int,
    maximum: int,
    value: int,
    sliderPosition: int,
    sliderDown: bool,
    repeatAction: SliderAction,
    pageStepMode: bool,
    oldValue: int,
    hoverTrack: bool,
    hoverThumb: bool,
    hovered: bool,       // the last value reported through setHovered
    step: bool,
    stepTo: int)

  /** A state together with the effects that led to it. */
  datatype Step = Step(after: State, effects: seq<Effect>)

  /** The notifications the host delivers, each carrying the geometry it needs. */
  datatype Event =
    | MouseMove(inTrackHit: bool, inThumbHit: bool, mapped: int)
    | MousePress(inThumbHit: bool, mapped: int)
    | MouseRelease
    | Leave
    | SliderChanged(change: Change)
    | Changed(kind: EventType, isEnabled: bool)
    | PageStepModeSet(on: bool)

  /** How often `e` occurs in the effect log. */
  function Count(log: seq<Effect>, e: Effect): nat
  {
    multiset(log)[e]
  }

  /** 1 when a boolean flag differs from its new value, else 0. */
  function Flip(before: bool, now: bool): nat
  {
    if before != now then 1 else 0
  }

  /** 1 for true, 0 for false. */
  function Ind(b: bool): nat
  {
    if b then 1 else 0
  }

  /** A run of `n` redraw requests. */
  function Redraws(n: nat): (log: seq<Effect>)
  {
    seq(n, _ => Redraw)
  }

  lemma {:induction false} RedrawsCount(n: nat)
    ensures Count(Redraws(n), Redraw) == n
  {
    if n > 0 {
      RedrawsCount(n - 1);
      assert Redraws(n) == Redraws(n - 1) + [Redraw];
    }
  }

  /**
   The invariant every handler keeps: the reported hover is the union of
   the two hover flags, and a page-step repeat is armed exactly while the
   slider is stepping.
   */
  predicate Valid(s: State)
  {
    s.hovered == (s.hoverTrack || s.hoverThumb) &&
    (s.step <==> s.repeatAction != NoAction) &&
    (s.repeatAction == NoAction || s.repeatAction == PageStepAdd || s.repeatAction == PageStepSub)
  }

  /** The state of a slider that has not seen any mouse event yet. */
  function Initial(minimum: int, maximum: int, value: int, pageStepMode: bool): (s: State)
    ensures Valid(s)
    ensures !s.sliderDown && !s.step && !s.hovered && s.oldValue == s.value
  {
    State(minimum, maximum, value, value, false, NoAction, pageStepMode,
          value, false, false, false, false, value)
  }

  /**
   `Slider::sliderChange`: a value change fires the boundary actions and
   signals and records the value as the old one; any other change leaves
   the state and the log alone.
   */
  function OnSliderChange(s: State, change: Change): (r: Step)
    ensures change != ValueChange ==> r == Step(s, [])
    ensures change == ValueChange ==> r.after == s.(oldValue := s.value)
    // reaching the minimum: one ToMinimum action and one changedToMinimum, and no ToMaximum
    ensures change == ValueChange ==>
      Count(r.effects, Triggered(ToMinimum)) == Ind(s.value == s.minimum) &&
      Count(r.effects, Emitted(ChangedToMinimum)) == Ind(s.value == s.minimum)
    // reaching the maximum (but not the minimum): one ToMaximum action
    ensures change == ValueChange ==>
      Count(r.effects, Triggered(ToMaximum)) == Ind(s.value != s.minimum && s.value == s.maximum)
    // leaving the recorded minimum: one changedFromMinimum
    ensures change == ValueChange ==>
      Count(r.effects, Emitted(ChangedFromMinimum)) == Ind(s.oldValue == s.minimum)
    // and nothing else
    ensures change == ValueChange ==>
      |r.effects| == 2 * Ind(s.value == s.minimum)
                     + Ind(s.value != s.minimum && s.value == s.maximum)
                     + Ind(s.oldValue == s.minimum)
  {
    if change == ValueChange then
      var boundary :=
        if s.minimum == s.value then [Triggered(ToMinimum), Emitted(ChangedToMinimum)]
        else if s.maximum == s.value then [Triggered(ToMaximum)]
        else [];
      var left := if s.minimum == s.oldValue then [Emitted(ChangedFromMinimum)] else [];
      Step(s.(oldValue := s.value), boundary + left)
    else
      Step(s, [])
  }

  /**
   `Slider::changeEvent`: an enabled change emits exactly one of
   sliderEnabled and sliderDisabled, according to the new enabled state.
   */
  function OnChangeEvent(s: State, kind: EventType, isEnabled: bool): (r: Step)
    ensures r.after == s
    ensures Count(r.effects, Emitted(SliderEnabled)) == Ind(kind == EnabledChange && isEnabled)
    ensures Count(r.effects, Emitted(SliderDisabled)) == Ind(kind == EnabledChange && !isEnabled)
    ensures |r.effects| == Ind(kind == EnabledChange)
  {
    if kind == EnabledChange then
      Step(s, [Emitted(if isEnabled then SliderEnabled else SliderDisabled)])
    else
      Step(s, [])
  }

  /**
   The hover half of `Slider::mouseMoveEvent`: each hover flag is toggled
   when its hit test disagrees with it, each toggle asking for one redraw,
   and the combined hover is reported.
   */
  function OnHover(s: State, inTrackHit: bool, inThumbHit: bool): (r: Step)
    ensures r.after == s.(hoverTrack := inTrackHit, hoverThumb := inThumbHit,
                          hovered := inTrackHit || inThumbHit)
    ensures r.effects == Redraws(Flip(s.hoverTrack, inTrackHit) + Flip(s.hoverThumb, inThumbHit))
                         + [HoveredSet(inTrackHit || inThumbHit)]
  {
    var trackFlips := inTrackHit != s.hoverTrack;
    var thumbFlips := inThumbHit != s.hoverThumb;
    var hoverTrack := if trackFlips then !s.hoverTrack else s.hoverTrack;
    var hoverThumb := if thumbFlips then !s.hoverThumb else s.hoverThumb;
    var hovered := hoverTrack || hoverThumb;
    Step(s.(hoverTrack := hoverTrack, hoverThumb := hoverThumb, hovered := hovered),
         (if trackFlips then [Redraw] else []) + (if thumbFlips then [Redraw] else [])
         + [HoveredSet(hovered)])
  }

  /**
   `Slider::mouseMoveEvent`: while the slider is down the position follows
   the cursor and the hover state is left alone; otherwise the hover state
   follows the hit tests.
   */
  function OnMouseMove(s: State, inTrackHit: bool, inThumbHit: bool, mapped: int): (r: Step)
    ensures s.sliderDown ==> r == Step(s.(sliderPosition := mapped), [PositionSet(mapped)])
    ensures !s.sliderDown ==> r == OnHover(s, inTrackHit, inThumbHit)
  {
    if s.sliderDown then
      Step(s.(sliderPosition := mapped), [PositionSet(mapped)])
    else
      OnHover(s, inTrackHit, inThumbHit)
  }

  /** The page-step action a press aimed at `stepTo` chooses. */
  function PageStepToward(stepTo: int, sliderPosition: int): (a: SliderAction)
    ensures a == PageStepAdd <==> stepTo > sliderPosition
    ensures a == PageStepSub <==> stepTo <= sliderPosition
  {
    if stepTo > sliderPosition then PageStepAdd else PageStepSub
  }

  /**
   `Slider::mousePressEvent`. A press on the thumb only puts the slider
   down. Elsewhere, without page-step mode, the slider jumps to the cursor,
   collapses the halo and goes down; in page-step mode it starts stepping
   toward the cursor, triggering the chosen page step once and arming it
   for auto-repeat.
   */
  function OnMousePress(s: State, inThumbHit: bool, mapped: int): (r: Step)
    ensures inThumbHit ==> r == Step(s.(sliderDown := true), [DownSet(true)])
    ensures !inThumbHit && !s.pageStepMode ==>
      r.after == s.(sliderPosition := mapped, sliderDown := true) &&
      r.effects == [PositionSet(mapped), HaloSizeSet(0), DownSet(true)]
    ensures !inThumbHit && s.pageStepMode ==>
      var a := r.after.repeatAction;
      r.after == s.(step := true, stepTo := mapped, repeatAction := a) &&
      (a == PageStepAdd <==> mapped > s.sliderPosition) &&
      (a == PageStepSub <==> mapped <= s.sliderPosition) &&
      r.effects == [Triggered(a), RepeatSet(a)]
  {
    if inThumbHit then
      Step(s.(sliderDown := true), [DownSet(true)])
    else if !s.pageStepMode then
      Step(s.(sliderPosition := mapped, sliderDown := true),
           [PositionSet(mapped), HaloSizeSet(0), DownSet(true)])
    else
      var stepping := s.(step := true, stepTo := mapped);
      var action := PageStepToward(stepping.stepTo, stepping.sliderPosition);
      Step(stepping.(repeatAction := action), [Triggered(action), RepeatSet(action)])
  }

  /**
   `Slider::mouseReleaseEvent`: a release ends a drag, or else ends a
   page-step and disarms the repeat, or else does nothing.
   */
  function OnMouseRelease(s: State): (r: Step)
    ensures !r.after.sliderDown
    ensures s.sliderDown ==> r == Step(s.(sliderDown := false), [DownSet(false)])
    ensures !s.sliderDown && s.step ==>
      r.after == s.(step := false, repeatAction := NoAction) &&
      r.effects == [RepeatSet(NoAction)]
    ensures !s.sliderDown && !s.step ==> r == Step(s, [])
  {
    if s.sliderDown then
      Step(s.(sliderDown := false), [DownSet(false)])
    else if s.step then
      Step(s.(step := false, repeatAction := NoAction), [RepeatSet(NoAction)])
    else
      Step(s, [])
  }

  /**
   `Slider::leaveEvent`: both hover flags are cleared, one redraw per flag
   that was set, and "not hovered" is reported; nothing else changes.
   */
  function OnLeave(s: State): (r: Step)
    ensures r.after == s.(hoverTrack := false, hoverThumb := false, hovered := false)
    ensures r.effects == Redraws(Ind(s.hoverTrack) + Ind(s.hoverThumb)) + [HoveredSet(false)]
  {
    var t := if s.hoverTrack then Step(s.(hoverTrack := false), [Redraw]) else Step(s, []);
    var h := if t.after.hoverThumb
             then Step(t.after.(hoverThumb := false), t.effects + [Redraw])
             else t;
    Step(h.after.(hovered := false), h.effects + [HoveredSet(false)])
  }

  /** `Slider::setPageStepMode`: stores the mode and nothing else. */
  function OnSetPageStepMode(s: State, on: bool): (r: Step)
    ensures r.after.pageStepMode == on
    ensures r.after.(pageStepMode := s.pageStepMode) == s
    ensures r.effects == []
  {
    Step(s.(pageStepMode := on), [])
  }

  /** The transition function: one host notification applied to a state. */
  function Handle(s: State, e: Event): Step
  {
    match e
    case MouseMove(track, thumb, mapped) => OnMouseMove(s, track, thumb, mapped)
    case MousePress(thumb, mapped) => OnMousePress(s, thumb, mapped)
    case MouseRelease => OnMouseRelease(s)
    case Leave => OnLeave(s)
    case SliderChanged(change) => OnSliderChange(s, change)
    case Changed(kind, isEnabled) => OnChangeEvent(s, kind, isEnabled)
    case PageStepModeSet(on) => OnSetPageStepMode(s, on)
  }

  /** A sequence of notifications applied in arrival order, effects concatenated. */
  function Run(s: State, events: seq<Event>): Step
    decreases |events|
  {
    if events == [] then Step(s, [])
    else
      var first := Handle(s, events[0]);
      var rest := Run(first.after, events[1..]);
      Step(rest.after, first.effects + rest.effects)
  }

  /** Every handler keeps the invariant. */
  lemma HandlePreservesValid(s: State, e: Event)
    requires Valid(s)
    ensures Valid(Handle(s, e).after)
  {
  }

  /** Any sequence of notifications keeps the invariant. */
  lemma {:induction false} RunPreservesValid(s: State, events: seq<Event>)
    requires Valid(s)
    ensures Valid(Run(s, events).after)
    decreases |events|
  {
    if events != [] {
      HandlePreservesValid(s, events[0]);
      RunPreservesValid(Handle(s, events[0]).after, events[1..]);
    }
  }

  /** Counting distributes over concatenation of logs. */
  lemma CountAppend(a: seq<Effect>, b: seq<Effect>, e: Effect)
    ensures Count(a + b, e) == Count(a, e) + Count(b, e)
  {
  }

  /** One step of `Run`. */
  lemma RunFirst(s: State, events: seq<Event>)
    requires events != []
    ensures Run(s, events) ==
      var first := Handle(s, events[0]);
      var rest := Run(first.after, events[1..]);
      Step(rest.after, first.effects + rest.effects)
  {
  }

  /** A move while the slider is not down is the hover update. */
  lemma HandleHover(s: State, e: Event)
    requires e.MouseMove? && !s.sliderDown
    ensures Handle(s, e) == OnHover(s, e.inTrackHit, e.inThumbHit)
  {
  }

  /** A hover update asks for one redraw per hover flag that flips. */
  lemma HoverRedraws(s: State, inTrackHit: bool, inThumbHit: bool)
    ensures Count(OnHover(s, inTrackHit, inThumbHit).effects, Redraw)
            == Flip(s.hoverTrack, inTrackHit) + Flip(s.hoverThumb, inThumbHit)
  {
    var n := Flip(s.hoverTrack, inTrackHit) + Flip(s.hoverThumb, inThumbHit);
    RedrawsCount(n);
    CountAppend(Redraws(n), [HoveredSet(inTrackHit || inThumbHit)], Redraw);
  }

  /** Leaving requests one redraw per hover flag that was set, and no more. */
  lemma LeaveRedraws(s: State)
    ensures Count(OnLeave(s).effects, Redraw) == Ind(s.hoverTrack) + Ind(s.hoverThumb)
  {
    var n := Ind(s.hoverTrack) + Ind(s.hoverThumb);
    RedrawsCount(n);
    CountAppend(Redraws(n), [HoveredSet(false)], Redraw);
  }

  /** Moves that all agree on both hit tests. */
  predicate SteadyMoves(events: seq<Event>, inTrackHit: bool, inThumbHit: bool)
    decreases |events|
  {
    events == [] ||
    (events[0].MouseMove? &&
     events[0].inTrackHit == inTrackHit && events[0].inThumbHit == inThumbHit &&
     SteadyMoves(events[1..], inTrackHit, inThumbHit))
  }

  /**
   Hover debounce: while the slider is not down, a run of moves whose hit
   tests all agree asks for exactly the redraws of the first move, one per
   hover flag that flips on entry, and none after that.
   */
  lemma {:induction false} SteadyMovesRedrawOnEntryOnly(
    s: State, events: seq<Event>, inTrackHit: bool, inThumbHit: bool)
    requires !s.sliderDown
    requires SteadyMoves(events, inTrackHit, inThumbHit)
    requires |events| > 0
    ensures Count(Run(s, events).effects, Redraw)
            == Flip(s.hoverTrack, inTrackHit) + Flip(s.hoverThumb, inThumbHit)
    ensures Run(s, events).after.hoverTrack == inTrackHit
    ensures Run(s, events).after.hoverThumb == inThumbHit
    ensures !Run(s, events).after.sliderDown
    decreases |events|
  {
    var first := OnHover(s, inTrackHit, inThumbHit);
    HandleHover(s, events[0]);
    var rest := events[1..];
    var tail := Run(first.after, rest);
    RunFirst(s, events);
    HoverRedraws(s, inTrackHit, inThumbHit);
    if rest == [] {
      assert tail == Step(first.after, []);
    } else {
      SteadyMovesRedrawOnEntryOnly(first.after, rest, inTrackHit, inThumbHit);
    }
    CountAppend(first.effects, tail.effects, Redraw);
  }

  /** The host stores each new value, then notifies the slider of a value change. */
  function ValueChanges(s: State, values: seq<int>): Step
    decreases |values|
  {
    if values == [] then Step(s, [])
    else
      var first := OnSliderChange(s.(value := values[0]), ValueChange);
      var rest := ValueChanges(first.after, values[1..]);
      Step(rest.after, first.effects + rest.effects)
  }

  /**
   Boundary signals come in matching pairs: over any sequence of value
   changes, each changedToMinimum is followed by exactly one
   changedFromMinimum once the value changes again, so the two counts
   differ only by whether the sequence starts and ends at the minimum.
   */
  lemma {:induction false} BoundarySignalsBalance(s: State, values: seq<int>)
    ensures var r := ValueChanges(s, values);
      r.after.minimum == s.minimum &&
      Count(r.effects, Emitted(ChangedToMinimum)) + Ind(s.oldValue == s.minimum)
      == Count(r.effects, Emitted(ChangedFromMinimum)) + Ind(r.after.oldValue == s.minimum)
    decreases |values|
  {
    if values != [] {
      var first := OnSliderChange(s.(value := values[0]), ValueChange);
      BoundarySignalsBalance(first.after, values[1..]);
    }
  }

  /**
   A press followed by its release brings an idle slider back to rest,
   whichever of the three press branches was taken: not down, not stepping
   and no repeat armed.
   */
  lemma PressReleaseReturnsToRest(s: State, inThumbHit: bool, mapped: int)
    requires Valid(s) && !s.sliderDown && !s.step
    ensures var r := Run(s, [MousePress(inThumbHit, mapped), MouseRelease]).after;
      !r.sliderDown && !r.step && r.repeatAction == NoAction
  {
    var events := [MousePress(inThumbHit, mapped), MouseRelease];
    var pressed := OnMousePress(s, inThumbHit, mapped).after;
    assert events[1..] == [MouseRelease];
    assert Run(pressed, [MouseRelease]).after == OnMouseRelease(pressed).after by {
      assert [MouseRelease][1..] == [];
    }
  }
}
