/**
 The Material slider widget as an object: its event handlers update the
 fields in place and append the side effects they issue to a log. Each
 handler is proved to do exactly what the transition function of
 `SliderMachine` prescribes for the state it starts from.
 */
module SliderWidget {
  import opened SliderMachine

  class Slider {
    // kept by the framework's abstract slider; the handlers read them or set them through its setters
    var minimum: int
    var maximum: int
    var value: int
    var sliderPosition: int
    var sliderDown: bool
    var repeatAction: SliderAction

    // the slider's private state
    var pageStepMode: bool
    var oldValue: int
    var hoverTrack: bool
    var hoverThumb: bool
    var hovered: bool
    var step: bool
    var stepTo: int

    /** Every redraw request, signal, action and setter call issued so far, in order. */
    var log: seq<Effect>

    /** The fields as a value of the transition function's state type. */
    function Snapshot(): State
      reads this
    {
      State(minimum, maximum, value, sliderPosition, sliderDown, repeatAction, pageStepMode,
            oldValue, hoverTrack, hoverThumb, hovered, step, stepTo)
    }

    ghost predicate Valid()
      reads this
    {
      SliderMachine.Valid(Snapshot())
    }

    constructor (minimum: int, maximum: int, value: int, pageStepMode: bool)
      ensures Valid()
      ensures Snapshot() == Initial(minimum, maximum, value, pageStepMode)
      ensures log == []
    {
      this.minimum, this.maximum, this.value := minimum, maximum, value;
      sliderPosition, sliderDown, repeatAction := value, false, NoAction;
      this.pageStepMode, oldValue := pageStepMode, value;
      hoverTrack, hoverThumb, hovered := false, false, false;
      step, stepTo := false, value;
      log := [];
    }

    // The framework calls the handlers use, recorded in the log.

    method Update()
      modifies this`log
      ensures log == old(log) + [Redraw]
    {
      log := log + [Redraw];
    }

    method Emit(signal: Signal)
      modifies this`log
      ensures log == old(log) + [Emitted(signal)]
    {
      log := log + [Emitted(signal)];
    }

    method TriggerAction(action: SliderAction)
      modifies this`log
      ensures log == old(log) + [Triggered(action)]
    {
      log := log + [Triggered(action)];
    }

    method SetRepeatAction(action: SliderAction)
      modifies this`repeatAction, this`log
      ensures repeatAction == action
      ensures log == old(log) + [RepeatSet(action)]
    {
      repeatAction := action;
      log := log + [RepeatSet(action)];
    }

    method SetSliderPosition(position: int)
      modifies this`sliderPosition, this`log
      ensures sliderPosition == position
      ensures log == old(log) + [PositionSet(position)]
    {
      sliderPosition := position;
      log := log + [PositionSet(position)];
    }

    method SetSliderDown(down: bool)
      modifies this`sliderDown, this`log
      ensures sliderDown == down
      ensures log == old(log) + [DownSet(down)]
    {
      sliderDown := down;
      log := log + [DownSet(down)];
    }

    method SetHaloSize(size: int)
      modifies this`log
      ensures log == old(log) + [HaloSizeSet(size)]
    {
      log := log + [HaloSizeSet(size)];
    }

    method SetHovered(status: bool)
      modifies this`hovered, this`log
      ensures hovered == status
      ensures log == old(log) + [HoveredSet(status)]
    {
      hovered := status;
      log := log + [HoveredSet(status)];
    }

    // The handlers.

    method SetPageStepMode(on: bool)
      requires Valid()
      modifies this`pageStepMode
      ensures Valid()
      ensures Snapshot() == OnSetPageStepMode(old(Snapshot()), on).after
    {
      pageStepMode := on;
    }

    method PageStepMode() returns (on: bool)
      ensures on == pageStepMode
    {
      on := pageStepMode;
    }

    /** Called by the framework after it has changed the range, orientation, steps or value. */
    method SliderChange(change: Change)
      requires Valid()
      modifies this
      ensures Valid()
      ensures Snapshot() == OnSliderChange(old(Snapshot()), change).after
      ensures log == old(log) + OnSliderChange(old(Snapshot()), change).effects
    {
      if change == ValueChange {
        if minimum == value {
          TriggerAction(ToMinimum);
          Emit(ChangedToMinimum);
        } else if maximum == value {
          TriggerAction(ToMaximum);
        }
        if minimum == oldValue {
          Emit(ChangedFromMinimum);
        }
        oldValue := value;
      }
    }

    /** `isEnabled` is the widget's enabled state once the change has happened. */
    method ChangeEvent(kind: EventType, isEnabled: bool)
      requires Valid()
      modifies this
      ensures Valid()
      ensures Snapshot() == old(Snapshot())
      ensures log == old(log) + OnChangeEvent(old(Snapshot()), kind, isEnabled).effects
    {
      if kind == EnabledChange {
        if isEnabled {
          Emit(SliderEnabled);
        } else {
          Emit(SliderDisabled);
        }
      }
    }

    method MouseMoveEvent(inTrackHit: bool, inThumbHit: bool, mapped: int)
      requires Valid()
      modifies this
      ensures Valid()
      ensures Snapshot() == OnMouseMove(old(Snapshot()), inTrackHit, inThumbHit, mapped).after
      ensures log == old(log) + OnMouseMove(old(Snapshot()), inTrackHit, inThumbHit, mapped).effects
    {
      if sliderDown {
        SetSliderPosition(mapped);
      } else {
        UpdateHover(inTrackHit, inThumbHit);
      }
    }

    /** The branch of `mouseMoveEvent` taken while the slider is not down. */
    method UpdateHover(inTrackHit: bool, inThumbHit: bool)
      requires Valid()
      modifies this`hoverTrack, this`hoverThumb, this`hovered, this`log
      ensures Valid()
      ensures Snapshot() == OnHover(old(Snapshot()), inTrackHit, inThumbHit).after
      ensures log == old(log) + OnHover(old(Snapshot()), inTrackHit, inThumbHit).effects
    {
      if inTrackHit != hoverTrack {
        hoverTrack := !hoverTrack;
        Update();
      }
      if inThumbHit != hoverThumb {
        hoverThumb := !hoverThumb;
        Update();
      }
      SetHovered(hoverTrack || hoverThumb);
    }

    method MousePressEvent(inThumbHit: bool, mapped: int)
      requires Valid()
      modifies this
      ensures Valid()
      ensures Snapshot() == OnMousePress(old(Snapshot()), inThumbHit, mapped).after
      ensures log == old(log) + OnMousePress(old(Snapshot()), inThumbHit, mapped).effects
    {
      if inThumbHit {
        SetSliderDown(true);
        return;
      }
      if !pageStepMode {
        SetSliderPosition(mapped);
        SetHaloSize(0);
        SetSliderDown(true);
        return;
      }
      step := true;
      stepTo := mapped;
      var action := if stepTo > sliderPosition then PageStepAdd else PageStepSub;
      TriggerAction(action);
      SetRepeatAction(action);
    }

    method MouseReleaseEvent()
      requires Valid()
      modifies this
      ensures Valid()
      ensures Snapshot() == OnMouseRelease(old(Snapshot())).after
      ensures log == old(log) + OnMouseRelease(old(Snapshot())).effects
    {
      if sliderDown {
        SetSliderDown(false);
      } else if step {
        step := false;
        SetRepeatAction(NoAction);
      }
    }

    method LeaveEvent()
      requires Valid()
      modifies this
      ensures Valid()
      ensures Snapshot() == OnLeave(old(Snapshot())).after
      ensures log == old(log) + OnLeave(old(Snapshot())).effects
    {
      if hoverTrack {
        hoverTrack := false;
        Update();
      }
      if hoverThumb {
        hoverThumb := false;
        Update();
      }
      SetHovered(false);
    }
  }
}
