# Material slider: event handling core

A model of the event-driven core of the Material Design slider widget
(`Slider`, a subclass of Qt's `QAbstractSlider`), in Dafny. The widget
reacts to value changes, enabled changes and mouse events by updating a
handful of flags and by issuing side effects: redraw requests (`update()`),
signals to its animation state machine (`changedToMinimum`,
`changedFromMinimum`, `sliderEnabled`, `sliderDisabled`), slider actions
(`triggerAction`), the auto-repeat action (`setRepeatAction`), and calls to
`setSliderPosition`, `setSliderDown`, the thumb's `setHaloSize` and the
private `setHovered`.

The project has two modules.

- `SliderMachine` (slider_machine.dfy) is the transition function. `State`
  holds what the handlers read and write: the range, value, slider position,
  pressed flag and repeat action of the abstract slider, and the slider's own
  `pageStepMode`, `oldValue`, `hoverTrack`, `hoverThumb`, `step` and `stepTo`.
  It also holds the last value reported through `setHovered`. Each handler is
  a function from a state and the handler's inputs to a `Step`: the new state
  and the effects issued, in order. `Handle` dispatches one `Event`. `Run`
  applies a sequence of events. The lemmas state what holds over such runs.
- `SliderWidget` (slider_widget.dfy) is the widget as a class. Its fields are
  updated in place and its effects are appended to `log`. Each handler method
  is proved to produce exactly the state and the effects of its function in
  `SliderMachine`, and to keep the invariant `Valid`.

Geometry the handlers get from code that is not part of this model is passed
in as parameters:
- `inTrackHit` is the test of the cursor against the track's bounding
  rectangle grown by 2 on each side.
- `inThumbHit` is the test against the 16×16 square centred on the thumb.
  It is a parameter, so it cannot depend on the thumb's animated halo size.
- `mapped` is `valueFromPosition` of the cursor position.

The enabled state after an enabled change is a parameter too (`isEnabled`).
The framework updates `value`, `minimum` and `maximum` before it calls
`sliderChange`. The model reads them from the state.

The code has these behaviours, and the model keeps them:
- Leaving the widget clears only the hover flags. It does not end a page
  step or disarm the repeat action (`OnLeave` keeps `step` and
  `repeatAction`).
- `changedFromMinimum` is emitted whenever the recorded old value is the
  minimum. The code does not check that the new value differs.
  `OnSliderChange` counts it as `Ind(oldValue == minimum)`.
- Reaching the maximum emits no signal. It only triggers the `SliderToMaximum`
  action.
- A release clears either the pressed flag or the stepping flag, not all
  interaction flags. While the slider is down, `step` is left as it is.

## Model

| member | source | states |
|---|---|---|
| `SliderMachine.OnSliderChange` | components/slider.cpp:67-89 | A value change triggers `SliderToMinimum` and emits `changedToMinimum` exactly once each when the value is the minimum. Otherwise it triggers `SliderToMaximum` exactly once when the value is the maximum. It emits `changedFromMinimum` exactly once iff the recorded old value is the minimum. Nothing else is issued, and afterwards `oldValue == value`. Any other change (orientation, range, steps) issues nothing and leaves the state, `oldValue` included, unchanged. |
| `SliderMachine.OnChangeEvent` | components/slider.cpp:91-104 | An enabled change emits `sliderEnabled` exactly when the widget is now enabled, and `sliderDisabled` otherwise. It emits one signal, never both. Other change events emit nothing. The state is unchanged. |
| `SliderMachine.OnMouseMove` | components/slider.cpp:130-159 | While the slider is down, the position becomes `mapped` and only that position request is issued. The hover flags and the reported hover are untouched. Otherwise the move is the hover update. |
| `SliderMachine.OnHover` | components/slider.cpp:138-156 | After a move while not down, `hoverTrack == inTrackHit`, `hoverThumb == inThumbHit` and the reported hover is their disjunction. The effects are one redraw per flag that actually flipped, then the hover report. |
| `SliderMachine.HoverRedraws` | components/slider.cpp:140-153 | The number of redraw requests of a hover update is the number of hover flags that flipped (0, 1 or 2). |
| `SliderMachine.SteadyMovesRedrawOnEntryOnly` | components/slider.cpp:138-156 | Any non-empty run of moves with the same hit results, starting while not down, asks for exactly the redraws of its first move and none after. Repeating a move redraws nothing. |
| `SliderMachine.PageStepToward` | components/slider.cpp:185-187 | The page-step action is `PageStepAdd` iff the target exceeds the slider position. It is `PageStepSub` otherwise, equality included. |
| `SliderMachine.OnMousePress` | components/slider.cpp:161-191 | A press inside the thumb square only sets the slider down. Position, step and repeat action are unchanged. Outside it, without page-step mode, the position becomes `mapped`, the halo is set to 0 and the slider goes down. In page-step mode, `step` is set, `stepTo == mapped`, and the direction rule above picks the action. That same action is triggered once and armed as the repeat action. |
| `SliderMachine.OnMouseRelease` | components/slider.cpp:193-205 | After a release the slider is never down. A release while down only clears the pressed flag and leaves `step` alone. A release while stepping and not down clears `step` and sets the repeat action to none. Any other release changes nothing and issues nothing. |
| `SliderMachine.OnLeave` | components/slider.cpp:207-223 | After a leave both hover flags are false and the reported hover is false. There is one redraw per hover flag that was set, then the "not hovered" report. Nothing else changes. |
| `SliderMachine.LeaveRedraws` | components/slider.cpp:211-218 | Leaving requests exactly one redraw for each hover flag that was set (0, 1 or 2), and none when the cursor was over neither the track nor the thumb. |
| `SliderMachine.OnSetPageStepMode` | components/slider.cpp:38-43 | The setter stores the mode and changes nothing else. |
| `SliderMachine.HandlePreservesValid` | components/slider.cpp:130-223 | Every handler keeps the invariant. The reported hover equals `hoverTrack \|\| hoverThumb`, and a page-step repeat action is armed exactly while `step` is set. |
| `SliderMachine.RunPreservesValid` | components/slider.cpp:130-223 | Any sequence of notifications keeps that invariant. |
| `SliderMachine.BoundarySignalsBalance` | components/slider.cpp:76-86 | Over any sequence of value changes, the number of `changedToMinimum` signals plus one if the slider started at the minimum equals the number of `changedFromMinimum` signals plus one if it ended at the minimum. This is a count identity over the whole sequence. It does not pair each arrival with a departure: `changedToMinimum` is emitted again for a value change that stays at the minimum. |
| `SliderMachine.PressReleaseReturnsToRest` | components/slider.cpp:161-202 | From rest, a press followed by a release leaves the slider not down, not stepping and with no repeat action armed, whichever of the three press branches was taken. |
| `SliderWidget.Slider.constructor` | components/slider.cpp:11-15 | A new slider is at rest. It is not down, not stepping, not hovered and has no repeat action. Its log is empty. |
| `SliderWidget.Slider.SetPageStepMode` | components/slider.cpp:38-43 | Stores the mode. No other field changes. |
| `SliderWidget.Slider.PageStepMode` | components/slider.cpp:45-50 | Returns the stored mode. |
| `SliderWidget.Slider.SliderChange` | components/slider.cpp:67-89 | The fields and the appended log are those of `OnSliderChange` on the old fields. |
| `SliderWidget.Slider.ChangeEvent` | components/slider.cpp:91-104 | No field changes. The appended log is that of `OnChangeEvent`. |
| `SliderWidget.Slider.MouseMoveEvent` | components/slider.cpp:130-159 | The fields and the appended log are those of `OnMouseMove`, and `Valid` is kept. |
| `SliderWidget.Slider.UpdateHover` | components/slider.cpp:138-156 | The flags are toggled in place. The fields and the appended log are those of `OnHover`. |
| `SliderWidget.Slider.MousePressEvent` | components/slider.cpp:161-191 | The fields and the appended log are those of `OnMousePress`, and `Valid` is kept. |
| `SliderWidget.Slider.MouseReleaseEvent` | components/slider.cpp:193-205 | The fields and the appended log are those of `OnMouseRelease`, and `Valid` is kept. |
| `SliderWidget.Slider.LeaveEvent` | components/slider.cpp:207-223 | The fields and the appended log are those of `OnLeave`, and `Valid` is kept. |

## Left out

- Painting (`paintEvent` and its debug overlay): rendering only, with no logical state.
- `minimumSizeHint` and the size-policy change on an orientation change: layout policy only. An orientation change is modelled as changing nothing.
- `thumbOffset`: a wrapper over a style routine (`Style::sliderPositionFromValue`) that is not part of this model.
- `valueFromPosition`, `trackBoundingRect` and `thumbBoundingRect` are not part of this model. Their results come in as `mapped`, `inTrackHit` and `inThumbHit`.
- Floating-point rectangle containment (`QRectF::contains`): replaced by the boolean hit-test parameters.
- `setTrackWidth` and `trackWidth`: plain property storage plus a redraw request.
- The framework's own slider behaviour is recorded as requests only. This covers the clamping in `setSliderPosition`, what `setSliderDown` emits, how `triggerAction` moves the value, and the repeat timer that re-applies the armed action. So a triggered page step does not move `sliderPosition` in the model.
- `setSliderPosition` re-entering `sliderChange`: not modelled. With tracking on, the framework's `setSliderPosition` changes the value at once and calls `sliderChange` from inside the drag and click handlers (components/slider.cpp:136, 176-178), so the boundary actions and signals would appear in the middle of those handlers' logs. No event of the model changes `value`; value changes are modelled only by `ValueChanges`, which applies `OnSliderChange` to each new value.
- The calls to the framework's own handlers, `QAbstractSlider::sliderChange`, `::changeEvent`, `::mouseMoveEvent`, `::mouseReleaseEvent` and `::leaveEvent` (components/slider.cpp:88, 103, 158, 204, 222): not modelled. The effect logs cover only the statements of the overrides themselves. What those base handlers do is left out, for example the redraw request of the base `sliderChange`, and the base `changeEvent` stopping the repeat timer and releasing the slider when it is disabled.
- Signal delivery and the animation state machine that consumes the signals: emissions are log entries.
- The initial values of the private fields are set in code that is not part of this model. The constructor starts from rest with `oldValue` equal to the value.
