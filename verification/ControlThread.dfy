/**
 The control thread in place. Its fields are grouped by what guards them, and its loop body is cut
 at its lock operations into phases: every phase, and every call from outside, takes the object
 through one event of the autofocus machine.
 */
module ControlThread {
  import opened Autofocus

  datatype Action = AutofocusAction | CancelAutofocus | PrecaptureMetering | Other(code: int)

  class Thread {
    var af: AfInput
    var ae: AeInput
    var p: Private
    var aeScan: int
    var pc: Pc
    var l: Copies
    ghost var h: History

    ghost function View(): Control
      reads this
    {
      Control(pc, af, ae, p, aeScan, l, h)
    }

    method ReadyToRun()
      modifies this
      ensures Started(View())
    {
      af := AfInput(Auto, false, false, false, Inactive);
      ae := ae.(mode := AeOn, state := AeInactive, precapture := false);
      l := l.(mode := Auto);
      pc := Boundary;
    }

    method ProcessRequest(mode: Mode, aeMode: AeMode, aeLock: bool)
      modifies this
      ensures View() == Next(old(View()), Request(mode, aeMode, aeLock))
    {
      if af.mode != mode {
        af := af.(mode := mode, modeChange := true, start := false, cancel := false);
      }
      ae := ae.(mode := aeMode);
      if ae.lock && !aeLock {
        ae := ae.(state := AeInactive);
      }
      ae := ae.(lock := aeLock);
    }

    method TriggerAction(action: Action) returns (ok: bool)
      modifies this
      ensures ok <==> !action.Other?
      ensures View() == match action
        case AutofocusAction => Next(old(View()), TriggerAf)
        case CancelAutofocus => Next(old(View()), TriggerCancel)
        case PrecaptureMetering => Next(old(View()), TriggerPrecapture)
        case Other(_) => old(View())
    {
      ok := true;
      match action {
        case AutofocusAction =>
          af := af.(start := true, cancel := false);
        case CancelAutofocus =>
          af := af.(start := false, cancel := true);
        case PrecaptureMetering =>
          ae := ae.(precapture := true);
        case Other(_) =>
          ok := false;
      }
    }

    /** The first critical section of a cycle. */
    method SampleInputs()
      requires pc.Boundary?
      modifies this
      ensures View() == Next(old(View()), Sample)
    {
      var triggered, cancelled, precapture := false, false, false;
      if af.start {
        triggered := true;
        af := af.(start := false);
      } else if af.cancel {
        cancelled := true;
        af := af.(cancel := false);
      }
      var modeChange := af.modeChange;
      af := af.(modeChange := false);
      if ae.precapture {
        precapture := true;
        ae := ae.(precapture := false);
      }
      l := Copies(af.mode, af.state, triggered, cancelled || modeChange, ae.mode, ae.lock, ae.state, precapture, CYCLE);
      pc := Reset;
    }

    method ResetPhase()
      requires pc.Reset?
      modifies this
      ensures View() == Next(old(View()), ResetAf)
    {
      if l.reset {
        l := l.(state := Inactive);
        UpdateAfState(l.state);
        p := p.(scan := 0);
        p := p.(lockAfter := false);
      }
      pc := Focusing;
    }

    method UpdateAfState(st: AfState)
      modifies `af
      ensures af == old(af).(state := st)
    {
      if af.state != st {
        af := af.(state := st);
      }
    }

    method ProcessAfTrigger(mode: Mode, st: AfState, d: int) returns (r: AfState)
      modifies `p
      ensures Outcome(r, p, CYCLE) == Trigger(mode, Outcome(st, old(p), CYCLE), d)
    {
      r := st;
      match mode {
        case Off =>
        case Edof =>
        case Unknown(_) =>
        case Macro =>
          if st == Inactive || st == FocusedLocked || st == NotFocusedLocked {
            p := p.(scan := d);
            r := ActiveScan;
          }
        case Auto =>
          if st == Inactive || st == FocusedLocked || st == NotFocusedLocked {
            p := p.(scan := d);
            r := ActiveScan;
          }
        case ContinuousPicture =>
          match st {
            case PassiveScan => p := p.(lockAfter := true);
            case Inactive => r := NotFocusedLocked;
            case PassiveFocused => r := FocusedLocked;
            case _ =>
          }
        case ContinuousVideo =>
          match st {
            case PassiveScan => r := NotFocusedLocked;
            case Inactive => r := NotFocusedLocked;
            case PassiveFocused => r := FocusedLocked;
            case _ =>
          }
      }
    }

    method MaybeStartAfScan(mode: Mode, st: AfState, d: int, draw: real) returns (r: AfState)
      requires 0.0 <= draw <= 1.0
      modifies `p
      ensures Outcome(r, p, CYCLE) == MaybeStart(mode, Outcome(st, old(p), CYCLE), d)
    {
      DrawAlwaysStarts(mode, Outcome(st, p, CYCLE), d, draw);
      r := st;
      if (mode == ContinuousVideo || mode == ContinuousPicture) && (st == Inactive || st == PassiveFocused) {
        var startScan := draw < START_RATE;
        if startScan {
          p := p.(scan := d);
          r := PassiveScan;
        }
      }
    }

    method UpdateAfScan(mode: Mode, st: AfState, success: bool, maxSleep: int) returns (r: AfState, sleep: int)
      modifies `p
      ensures Outcome(r, p, sleep) == UpdateScan(mode, Outcome(st, old(p), maxSleep), success)
    {
      r, sleep := st, maxSleep;
      if !(st == ActiveScan || st == PassiveScan) { return; }
      if p.scan <= 0 {
        match mode {
          case Macro => r := if success then FocusedLocked else NotFocusedLocked;
          case Auto => r := if success then FocusedLocked else NotFocusedLocked;
          case ContinuousPicture =>
            if p.lockAfter {
              r := FocusedLocked;
              p := p.(lockAfter := false);
            } else {
              r := PassiveFocused;
            }
          case ContinuousVideo => r := PassiveFocused;
          case _ =>
        }
      } else if p.scan <= maxSleep {
        sleep := p.scan;
      }
    }

    /** The autofocus part of a cycle, up to and including the publication of the new state. */
    method FocusPhase(d: int, success: bool, draw: real)
      requires pc.Focusing? && Drawn(d) && 0.0 <= draw <= 1.0
      modifies this
      ensures View() == Next(old(View()), FocusAf(d, success))
    {
      var st := l.state;
      if l.triggered {
        st := ProcessAfTrigger(l.mode, st, d);
      }
      st := MaybeStartAfScan(l.mode, st, d, draw);
      var sleep;
      st, sleep := UpdateAfScan(l.mode, st, success, CYCLE);
      if Scanning(st) && !Scanning(l.state) {
        h := History(d, 0);
      }
      l := l.(state := st, sleep := sleep);
      UpdateAfState(st);
      pc := Exposing;
    }

    method ProcessPrecaptureTrigger(mode: AeMode, st: AeState, d: int) returns (r: AeState)
      modifies `aeScan
      ensures forall sleep ::
        Exposure(r, aeScan, sleep) == Precapture(mode, Exposure(st, old(aeScan), sleep), d)
    {
      if mode != AeOn { return st; }
      r := AePrecapture;
      aeScan := d;
    }

    method MaybeStartAeScan(mode: AeMode, lock: bool, st: AeState, start: bool, d: int) returns (r: AeState)
      modifies `aeScan
      ensures forall sleep ::
        Exposure(r, aeScan, sleep) == MaybeStartAe(mode, lock, Exposure(st, old(aeScan), sleep), start, d)
    {
      if lock || mode != AeOn || (st != AeInactive && st != AeConverged) || !start { return st; }
      aeScan := d;
      r := AeSearching;
    }

    method UpdateAeScan(lock: bool, st: AeState, maxSleep: int) returns (r: AeState, sleep: int)
      modifies `aeScan
      ensures Exposure(r, aeScan, sleep) == UpdateAe(lock, Exposure(st, old(aeScan), maxSleep))
    {
      r, sleep := st, maxSleep;
      if lock && st != AePrecapture {
        aeScan := 0;
        r := AeLocked;
      } else if st == AeSearching || st == AePrecapture {
        if aeScan <= 0 {
          r := if lock then AeLocked else AeConverged;
        } else if aeScan <= maxSleep {
          sleep := aeScan;
        }
      }
    }

    /** The exposure part of a cycle, up to and including the publication of the new state. */
    method ExposePhase(start: bool, d: int)
      requires pc.Exposing?
      modifies this
      ensures View() == Next(old(View()), ExposeAe(start, d))
    {
      var st, sleep := l.aeState, l.sleep;
      if l.precapture {
        st := ProcessPrecaptureTrigger(l.aeMode, st, d);
      }
      st := MaybeStartAeScan(l.aeMode, l.aeLock, st, start, d);
      st, sleep := UpdateAeScan(l.aeLock, st, sleep);
      l := l.(aeState := st, sleep := sleep);
      ae := ae.(state := st);
      pc := Sleeping;
    }

    method SleepPhase()
      requires pc.Sleeping?
      modifies this
      ensures View() == Next(old(View()), Sleep)
    {
      if p.scan > 0 {
        p := p.(scan := p.scan - l.sleep);
      }
      if aeScan > 0 {
        aeScan := aeScan - l.sleep;
      }
      h := h.(slept := h.slept + l.sleep);
      pc := Boundary;
    }

    /** One undisturbed cycle of the loop, which keeps what every cycle keeps. */
    method Cycle(d: int, success: bool, draw: real, startAe: bool, ae: int)
      requires pc.Boundary? && Drawn(d) && 0.0 <= draw <= 1.0 && Invariant(View())
      modifies this
      ensures pc.Boundary? && Invariant(View()) && 0 < l.sleep <= CYCLE
      ensures Legal(this.af.mode, af.state) && !af.modeChange
    {
      StepKeeps(View(), Sample, Next(View(), Sample));
      SampleInputs();
      StepKeeps(View(), ResetAf, Next(View(), ResetAf));
      ResetPhase();
      StepKeeps(View(), FocusAf(d, success), Next(View(), FocusAf(d, success)));
      FocusPhase(d, success, draw);
      StepKeeps(View(), ExposeAe(startAe, ae), Next(View(), ExposeAe(startAe, ae)));
      ExposePhase(startAe, ae);
      StepKeeps(View(), Sleep, Next(View(), Sleep));
      SleepPhase();
    }
  }
}
