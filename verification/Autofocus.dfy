/**
 The autofocus machine of the camera's control thread. Its loop reads shared fields at the start
 of a cycle, works on copies, and publishes the result later, while requests and triggers change
 the shared fields at any moment in between. A step is one critical section of the loop together
 with the thread-private work next to it, or one call from outside. Random choices are parameters.
 */
module Autofocus {

  datatype Mode = Off | Auto | Macro | ContinuousVideo | ContinuousPicture | Edof | Unknown(code: int)

  datatype AfState = Inactive | PassiveScan | PassiveFocused | ActiveScan | FocusedLocked | NotFocusedLocked

  datatype AeMode = AeOff | AeOn | AeUnknown

  datatype AeState = AeInactive | AeSearching | AeConverged | AeLocked | AePrecapture

  const MSEC := 1_000_000
  const CYCLE := 100 * MSEC
  const MIN_AF := 500 * MSEC
  const MAX_AF := 900 * MSEC

  /** A scan duration drawn between the two bounds. */
  predicate Drawn(d: int) { MIN_AF <= d <= MAX_AF }

  /** The states that belong to each mode. */
  predicate Legal(mode: Mode, st: AfState) {
    match mode
    case Auto => st.Inactive? || st.ActiveScan? || st.FocusedLocked? || st.NotFocusedLocked?
    case Macro => st.Inactive? || st.ActiveScan? || st.FocusedLocked? || st.NotFocusedLocked?
    case ContinuousPicture => !st.ActiveScan?
    case ContinuousVideo => !st.ActiveScan?
    case _ => st.Inactive?
  }

  predicate Continuous(mode: Mode) { mode.ContinuousVideo? || mode.ContinuousPicture? }

  predicate Scanning(st: AfState) { st.ActiveScan? || st.PassiveScan? }

  /** The thread-private part of the autofocus state. */
  datatype Private = Private(scan: int, lockAfter: bool)

  /** The state that a piece of autofocus work leaves, and how long the cycle may sleep. */
  datatype Outcome = Outcome(state: AfState, p: Private, sleep: int)

  /** The branches of the trigger handling that the source reports as unexpected. */
  predicate UnexpectedTrigger(mode: Mode, st: AfState) {
    match mode
    case Auto => st.PassiveScan? || st.PassiveFocused?
    case Macro => st.PassiveScan? || st.PassiveFocused?
    case ContinuousPicture => st.ActiveScan?
    case ContinuousVideo => st.ActiveScan?
    case _ => false
  }

  /** The branch of the scan handling that the source reports as unexpected. */
  predicate UnexpectedScan(mode: Mode, st: AfState, scan: int) {
    Scanning(st) && scan <= 0 && (mode.Off? || mode.Edof? || mode.Unknown?)
  }

  function Trigger(mode: Mode, o: Outcome, d: int): Outcome {
    match mode
    case Auto => if Rests(o.state) then o.(state := ActiveScan, p := o.p.(scan := d)) else o
    case Macro => if Rests(o.state) then o.(state := ActiveScan, p := o.p.(scan := d)) else o
    case ContinuousPicture => (
      match o.state
      case PassiveScan => o.(p := o.p.(lockAfter := true))
      case Inactive => o.(state := NotFocusedLocked)
      case PassiveFocused => o.(state := FocusedLocked)
      case _ => o)
    case ContinuousVideo => (
      match o.state
      case PassiveScan => o.(state := NotFocusedLocked)
      case Inactive => o.(state := NotFocusedLocked)
      case PassiveFocused => o.(state := FocusedLocked)
      case _ => o)
    case _ => o
  }

  predicate Rests(st: AfState) { st.Inactive? || st.FocusedLocked? || st.NotFocusedLocked? }

  /** The constant that the draw for a continuous scan is compared with: 100 ms over 5, times a second. */
  const START_RATE := 100000000.0 / 5.0 * 1000000000.0

  /** A draw of at most 1 decides whether a continuous mode that has no scan starts one. */
  function DrawStart(mode: Mode, o: Outcome, d: int, draw: real): Outcome {
    if Continuous(mode) && (o.state.Inactive? || o.state.PassiveFocused?) && draw < START_RATE
    then o.(state := PassiveScan, p := o.p.(scan := d)) else o
  }

  function MaybeStart(mode: Mode, o: Outcome, d: int): Outcome {
    if Continuous(mode) && (o.state.Inactive? || o.state.PassiveFocused?)
    then o.(state := PassiveScan, p := o.p.(scan := d)) else o
  }

  /** The comparison succeeds for every draw, so a continuous mode starts a scan whenever it has none. */
  lemma DrawAlwaysStarts(mode: Mode, o: Outcome, d: int, draw: real)
    requires 0.0 <= draw <= 1.0
    ensures draw < START_RATE && DrawStart(mode, o, d, draw) == MaybeStart(mode, o, d)
  {
    assert 100000000.0 / 5.0 == 20000000.0;
  }

  function UpdateScan(mode: Mode, o: Outcome, success: bool): Outcome {
    if !Scanning(o.state) then o
    else if o.p.scan > 0 then o.(sleep := if o.p.scan <= o.sleep then o.p.scan else o.sleep)
    else match mode
      case Auto => o.(state := if success then FocusedLocked else NotFocusedLocked)
      case Macro => o.(state := if success then FocusedLocked else NotFocusedLocked)
      case ContinuousPicture =>
        if o.p.lockAfter then o.(state := FocusedLocked, p := o.p.(lockAfter := false))
        else o.(state := PassiveFocused)
      case ContinuousVideo => o.(state := PassiveFocused)
      case _ => o
  }

  /** One cycle's autofocus work on the copies it took. */
  function Focus(mode: Mode, st: AfState, triggered: bool, p: Private, d: int, success: bool): Outcome {
    var o := Outcome(st, p, CYCLE);
    UpdateScan(mode, MaybeStart(mode, if triggered then Trigger(mode, o, d) else o, d), success)
  }

  /** The state of the exposure scan during a cycle. */
  datatype Exposure = Exposure(state: AeState, scan: int, sleep: int)

  function Precapture(mode: AeMode, o: Exposure, d: int): Exposure {
    if mode.AeOn? then o.(state := AePrecapture, scan := d) else o
  }

  function MaybeStartAe(mode: AeMode, lock: bool, o: Exposure, start: bool, d: int): Exposure {
    if !lock && mode.AeOn? && (o.state.AeInactive? || o.state.AeConverged?) && start
    then o.(state := AeSearching, scan := d) else o
  }

  function UpdateAe(lock: bool, o: Exposure): Exposure {
    if lock && !o.state.AePrecapture? then o.(state := AeLocked, scan := 0)
    else if o.state.AeSearching? || o.state.AePrecapture? then
      if o.scan <= 0 then o.(state := if lock then AeLocked else AeConverged)
      else o.(sleep := if o.scan <= o.sleep then o.scan else o.sleep)
    else o
  }

  /** The exposure work of one cycle. */
  function Expose(mode: AeMode, lock: bool, o: Exposure, precapture: bool, start: bool, d: int): Exposure {
    UpdateAe(lock, MaybeStartAe(mode, lock, if precapture then Precapture(mode, o, d) else o, start, d))
  }

  // ---------------------------------------------------------------------------------------
  // The control thread and its callers
  // ---------------------------------------------------------------------------------------

  datatype Pc = Boundary | Reset | Focusing | Exposing | Sleeping

  /** Autofocus fields under the input mutex. */
  datatype AfInput = AfInput(mode: Mode, modeChange: bool, start: bool, cancel: bool, state: AfState)

  /** Exposure fields under the input mutex. */
  datatype AeInput = AeInput(mode: AeMode, lock: bool, state: AeState, precapture: bool)

  /** The copies that a cycle works on. */
  datatype Copies = Copies(
    mode: Mode, state: AfState, triggered: bool, reset: bool,
    aeMode: AeMode, aeLock: bool, aeState: AeState, precapture: bool, sleep: int)

  /** The duration drawn for the scan under way, and the sleeps since it began. */
  datatype History = History(drawn: int, slept: int)

  datatype Control = Control(pc: Pc, af: AfInput, ae: AeInput, p: Private, aeScan: int, l: Copies, h: History)

  datatype Event =
    | Request(mode: Mode, aeMode: AeMode, aeLock: bool)
    | TriggerAf | TriggerCancel | TriggerPrecapture
    | Sample | ResetAf
    | FocusAf(d: int, success: bool)
    | ExposeAe(start: bool, ae: int)
    | Sleep

  predicate Enabled(c: Control, e: Event) {
    match e
    case Sample => c.pc.Boundary?
    case ResetAf => c.pc.Reset?
    case FocusAf(d, _) => c.pc.Focusing? && Drawn(d)
    case ExposeAe(_, _) => c.pc.Exposing?
    case Sleep => c.pc.Sleeping?
    case _ => true
  }

  function CycleFocus(c: Control, d: int, success: bool): Outcome {
    Focus(c.l.mode, c.l.state, c.l.triggered, c.p, d, success)
  }

  function CycleExpose(c: Control, start: bool, d: int): Exposure {
    Expose(c.l.aeMode, c.l.aeLock, Exposure(c.l.aeState, c.aeScan, c.l.sleep), c.l.precapture, start, d)
  }

  function RequestNext(c: Control, mode: Mode, aeMode: AeMode, aeLock: bool): Control {
    var changed := c.af.mode != mode;
    c.(af := if changed then AfInput(mode, true, false, false, c.af.state) else c.af,
       ae := c.ae.(mode := aeMode, lock := aeLock, state := if c.ae.lock && !aeLock then AeInactive else c.ae.state))
  }

  function SampleNext(c: Control): Control {
    c.(pc := Reset,
       af := c.af.(modeChange := false, start := false, cancel := c.af.cancel && c.af.start),
       ae := c.ae.(precapture := false),
       l := Copies(c.af.mode, c.af.state, c.af.start, (!c.af.start && c.af.cancel) || c.af.modeChange,
                   c.ae.mode, c.ae.lock, c.ae.state, c.ae.precapture, CYCLE))
  }

  function ResetNext(c: Control): Control {
    if c.l.reset then
      c.(pc := Focusing, l := c.l.(state := Inactive), af := c.af.(state := Inactive), p := Private(0, false))
    else c.(pc := Focusing)
  }

  /** The state, if the autofocus work of a cycle that drew duration d has the outcome o. */
  function FocusNext(c: Control, o: Outcome, d: int): Control {
    c.(pc := Exposing, l := c.l.(state := o.state, sleep := o.sleep), af := c.af.(state := o.state), p := o.p,
       h := if Scanning(o.state) && !Scanning(c.l.state) then History(d, 0) else c.h)
  }

  /** The same for the exposure work. */
  function ExposeNext(c: Control, o: Exposure): Control {
    c.(pc := Sleeping, l := c.l.(aeState := o.state, sleep := o.sleep), ae := c.ae.(state := o.state), aeScan := o.scan)
  }

  function SleepNext(c: Control): Control {
    c.(pc := Boundary, p := c.p.(scan := if c.p.scan > 0 then c.p.scan - c.l.sleep else c.p.scan),
       aeScan := if c.aeScan > 0 then c.aeScan - c.l.sleep else c.aeScan,
       h := c.h.(slept := c.h.slept + c.l.sleep))
  }

  function Next(c: Control, e: Event): Control
    requires Enabled(c, e)
  {
    match e
    case Request(mode, aeMode, aeLock) => RequestNext(c, mode, aeMode, aeLock)
    case TriggerAf => c.(af := c.af.(start := true, cancel := false))
    case TriggerCancel => c.(af := c.af.(start := false, cancel := true))
    case TriggerPrecapture => c.(ae := c.ae.(precapture := true))
    case Sample => SampleNext(c)
    case ResetAf => ResetNext(c)
    case FocusAf(d, success) => FocusNext(c, CycleFocus(c, d, success), d)
    case ExposeAe(start, d) =>
      ExposeNext(c, CycleExpose(c, start, d))
    case Sleep => SleepNext(c)
  }

  /** The fields that the start-up code sets; the others are arbitrary. */
  predicate Started(c: Control) {
    && c.pc.Boundary? && c.l.mode.Auto?
    && c.af == AfInput(Auto, false, false, false, Inactive)
    && c.ae.mode.AeOn? && c.ae.state.AeInactive? && !c.ae.precapture
  }

  // ---------------------------------------------------------------------------------------
  // Invariants
  // ---------------------------------------------------------------------------------------

  /** The published state belongs to the mode last sampled, and a newer mode is marked as a change. */
  predicate Modes(c: Control) {
    && (c.af.modeChange || c.af.mode == c.l.mode)
    && (!c.pc.Boundary? ==> c.l.state == c.af.state)
    && ((c.pc.Reset? && c.l.reset) || Legal(c.l.mode, c.af.state))
  }

  /** In continuous-picture mode, a lock is pending only during a passive scan. */
  predicate Locks(c: Control) {
    c.l.mode.ContinuousPicture? && c.p.lockAfter ==> c.af.state.PassiveScan? || (c.pc.Reset? && c.l.reset)
  }

  /** With the flag initialised to false, a lock is pending only in that mode and during such a scan. */
  predicate LocksOnly(c: Control) {
    c.p.lockAfter ==> (c.l.mode.ContinuousPicture? && c.af.state.PassiveScan?) || (c.pc.Reset? && c.l.reset)
  }

  /** What is left of a scan and what was slept since it began add up to the duration drawn for it. */
  predicate Timing(c: Control) {
    && (c.pc.Exposing? || c.pc.Sleeping? ==> 0 < c.l.sleep <= CYCLE && (Scanning(c.af.state) ==> c.l.sleep <= c.p.scan))
    && (Scanning(c.af.state) && !(c.pc.Reset? && c.l.reset) ==>
          c.p.scan >= 0 && c.h.slept + c.p.scan == c.h.drawn && Drawn(c.h.drawn))
  }

  predicate Invariant(c: Control) { Modes(c) && Locks(c) && Timing(c) }

  lemma FocusKeepsLegal(mode: Mode, st: AfState, triggered: bool, p: Private, d: int, success: bool)
    requires Legal(mode, st)
    ensures Legal(mode, Focus(mode, st, triggered, p, d, success).state)
  {
  }

  /** What one cycle does to the scan: it begins one, goes on with one, ends one, or has none. */
  lemma FocusScan(mode: Mode, st: AfState, triggered: bool, p: Private, d: int, success: bool)
    requires Legal(mode, st) && Drawn(d) && (Scanning(st) ==> p.scan >= 0)
    ensures var o := Focus(mode, st, triggered, p, d, success);
      && 0 < o.sleep <= CYCLE
      && (Scanning(o.state) ==> 0 < o.p.scan && o.sleep <= o.p.scan)
      && (Scanning(o.state) ==> o.p.scan == if Scanning(st) then p.scan else d)
      && (Scanning(st) && !(triggered && mode.ContinuousVideo?) ==> (Scanning(o.state) <==> p.scan > 0))
      && (Scanning(st) && triggered && mode.ContinuousVideo? ==> o.state.NotFocusedLocked?)
  {
  }

  /** A cycle keeps a pending lock only with the passive scan that it waits for. */
  lemma FocusLock(mode: Mode, st: AfState, triggered: bool, p: Private, d: int, success: bool)
    requires Legal(mode, st) && Drawn(d)
    ensures var o := Focus(mode, st, triggered, p, d, success);
      && (mode.ContinuousPicture? && (p.lockAfter ==> st.PassiveScan?) && o.p.lockAfter ==> o.state.PassiveScan?)
      && (!mode.ContinuousPicture? ==> o.p.lockAfter == p.lockAfter)
  {
  }

  /** Whatever the exposure does, the sleep stays positive and can only become shorter. */
  lemma ExposeSleep(mode: AeMode, lock: bool, o: Exposure, precapture: bool, start: bool, d: int)
    requires 0 < o.sleep
    ensures 0 < Expose(mode, lock, o, precapture, start, d).sleep <= o.sleep
  {
  }

  lemma FocusKeeps(c: Control, d: int, success: bool)
    requires Invariant(c) && c.pc.Focusing? && Drawn(d)
    ensures Invariant(Next(c, FocusAf(d, success)))
    ensures LocksOnly(c) ==> LocksOnly(Next(c, FocusAf(d, success)))
  {
    var o := Focus(c.l.mode, c.l.state, c.l.triggered, c.p, d, success);
    var n := Next(c, FocusAf(d, success));
    assert n.af.state == n.l.state == o.state && n.p == o.p && n.l.sleep == o.sleep && n.l.mode == c.l.mode;
    assert Modes(n) by { FocusKeepsLegal(c.l.mode, c.l.state, c.l.triggered, c.p, d, success); }
    assert Timing(n) by { FocusScan(c.l.mode, c.l.state, c.l.triggered, c.p, d, success); }
    assert Locks(n) && (LocksOnly(c) ==> LocksOnly(n)) by {
      FocusLock(c.l.mode, c.l.state, c.l.triggered, c.p, d, success);
    }
  }

  lemma ExposeKeeps(c: Control, start: bool, d: int)
    requires Invariant(c) && c.pc.Exposing?
    ensures Invariant(Next(c, ExposeAe(start, d)))
    ensures LocksOnly(c) ==> LocksOnly(Next(c, ExposeAe(start, d)))
  {
    ExposeSleep(c.l.aeMode, c.l.aeLock, Exposure(c.l.aeState, c.aeScan, c.l.sleep), c.l.precapture, start, d);
  }

  lemma RequestKeeps(c: Control, mode: Mode, aeMode: AeMode, aeLock: bool)
    requires Invariant(c)
    ensures Invariant(Next(c, Request(mode, aeMode, aeLock)))
    ensures LocksOnly(c) ==> LocksOnly(Next(c, Request(mode, aeMode, aeLock)))
  {
  }

  lemma SampleKeeps(c: Control)
    requires Invariant(c) && c.pc.Boundary?
    ensures Invariant(Next(c, Sample))
    ensures LocksOnly(c) ==> LocksOnly(Next(c, Sample))
  {
  }

  lemma ResetKeeps(c: Control)
    requires Invariant(c) && c.pc.Reset?
    ensures Invariant(Next(c, ResetAf))
    ensures LocksOnly(c) ==> LocksOnly(Next(c, ResetAf))
  {
  }

  lemma SleepKeeps(c: Control)
    requires Invariant(c) && c.pc.Sleeping?
    ensures Invariant(Next(c, Sleep))
    ensures LocksOnly(c) ==> LocksOnly(Next(c, Sleep))
  {
  }

  /** Event e is possible in c and leads to n. */
  predicate Step(c: Control, e: Event, n: Control) { Enabled(c, e) && n == Next(c, e) }

  lemma StepKeeps(c: Control, e: Event, n: Control)
    requires Invariant(c) && Step(c, e, n)
    ensures Invariant(n)
    ensures LocksOnly(c) ==> LocksOnly(n)
  {
    match e {
      case Sample => SampleKeeps(c);
      case ResetAf => ResetKeeps(c);
      case FocusAf(d, success) => FocusKeeps(c, d, success);
      case ExposeAe(start, d) => ExposeKeeps(c, start, d);
      case Sleep => SleepKeeps(c);
      case Request(mode, aeMode, aeLock) => RequestKeeps(c, mode, aeMode, aeLock);
      case _ =>
    }
  }

  // ---------------------------------------------------------------------------------------
  // Main results, for every state of every run
  // ---------------------------------------------------------------------------------------

  ghost predicate StepAt(states: seq<Control>, events: seq<Event>, i: nat)
    requires i < |events| < |states|
  {
    Step(states[i], events[i], states[i + 1])
  }

  /** A run of the control thread and its callers, from start-up. */
  ghost predicate Run(states: seq<Control>, events: seq<Event>) {
    && |states| == |events| + 1 && Started(states[0])
    && forall i :: 0 <= i < |events| ==> StepAt(states, events, i)
  }

  lemma {:induction false} RunKeeps(states: seq<Control>, events: seq<Event>, i: nat)
    requires Run(states, events) && i <= |events|
    ensures Invariant(states[i])
    ensures !states[0].p.lockAfter ==> LocksOnly(states[i])
  {
    if i > 0 {
      RunKeeps(states, events, i - 1);
      assert StepAt(states, events, i - 1);
      StepKeeps(states[i - 1], events[i - 1], states[i]);
    }
  }

  /** At each cycle boundary the state is legal for the current mode, or a mode change is pending. */
  lemma LegalAtBoundary(states: seq<Control>, events: seq<Event>, i: nat)
    requires Run(states, events) && i <= |events| && states[i].pc.Boundary?
    ensures states[i].af.modeChange || Legal(states[i].af.mode, states[i].af.state)
  {
    RunKeeps(states, events, i);
  }

  /** The trigger and the scan handling of a cycle are never in a branch reported as unexpected. */
  lemma NothingUnexpected(states: seq<Control>, events: seq<Event>, i: nat)
    requires Run(states, events) && i < |events| && events[i].FocusAf?
    ensures var c := states[i];
      var o := Outcome(c.l.state, c.p, CYCLE);
      var t := if c.l.triggered then Trigger(c.l.mode, o, events[i].d) else o;
      var m := MaybeStart(c.l.mode, t, events[i].d);
      && !UnexpectedTrigger(c.l.mode, c.l.state)
      && !UnexpectedScan(c.l.mode, m.state, m.p.scan)
  {
    RunKeeps(states, events, i);
    assert StepAt(states, events, i);
  }

  /**
   Between cycles a pending lock means a passive scan in continuous-picture mode, if the flag began
   as false. The source leaves it uninitialised; even so it is never read before it has been reset:
   in that mode it means a passive scan whatever its first value was.
   */
  lemma LockMeansPassiveScan(states: seq<Control>, events: seq<Event>, i: nat)
    requires Run(states, events) && i <= |events| && states[i].pc.Boundary? && states[i].p.lockAfter
    ensures states[i].l.mode.ContinuousPicture? ==> states[i].af.state.PassiveScan?
    ensures !states[0].p.lockAfter ==> states[i].l.mode.ContinuousPicture? && states[i].af.state.PassiveScan?
  {
    RunKeeps(states, events, i);
  }

  /** Every cycle sleeps for more than nothing and at most 100 ms, and never past the end of a scan. */
  lemma SleepBounded(states: seq<Control>, events: seq<Event>, i: nat)
    requires Run(states, events) && i < |events| && events[i].Sleep?
    ensures 0 < states[i].l.sleep <= 100_000_000
    ensures Scanning(states[i + 1].af.state) ==> states[i + 1].p.scan >= 0
  {
    RunKeeps(states, events, i);
    RunKeeps(states, events, i + 1);
    assert StepAt(states, events, i);
  }

  /** The sleeps of the cycles from state i to state j. */
  function Slept(states: seq<Control>, events: seq<Event>, i: nat, j: nat): int
    requires i <= j <= |events| < |states|
  {
    if i == j then 0
    else Slept(states, events, i, j - 1) + if events[j - 1].Sleep? then states[j - 1].l.sleep else 0
  }

  /** Event i begins a scan, and it is still under way after every event before j. */
  ghost predicate ScanFrom(states: seq<Control>, events: seq<Event>, i: nat, j: nat) {
    && i < j <= |events| < |states|
    && events[i].FocusAf? && !Scanning(states[i].l.state)
    && forall k :: i < k <= j ==> Scanning(states[k].af.state) && !(states[k].pc.Reset? && states[k].l.reset)
  }

  lemma {:induction false} ScanHistory(states: seq<Control>, events: seq<Event>, i: nat, j: nat)
    requires Run(states, events) && ScanFrom(states, events, i, j)
    ensures states[j].h.drawn == events[i].d && states[j].h.slept == Slept(states, events, i, j)
  {
    assert StepAt(states, events, j - 1);
    HistoryStep(states[j - 1], events[j - 1], states[j]);
    if j > i + 1 {
      ScanHistory(states, events, i, j - 1);
      RunKeeps(states, events, j - 1);
    } else {
      assert Slept(states, events, i, i) == 0;
    }
  }

  lemma HistoryStep(c: Control, e: Event, n: Control)
    requires Step(c, e, n)
    ensures e.FocusAf? && Scanning(n.af.state) && !Scanning(c.l.state) ==> n.h.drawn == e.d && n.h.slept == 0
    ensures !(e.FocusAf? && Scanning(n.af.state) && !Scanning(c.l.state)) ==>
      n.h.drawn == c.h.drawn && n.h.slept == c.h.slept + if e.Sleep? then c.l.sleep else 0
  {
  }

  /**
   A scan that is neither reset nor pre-empted ends in the first cycle that finds the sleeps since
   it began adding up to the duration drawn for it, and in no other, whatever the exposure does to
   the sleeps.
   */
  lemma ScanTakesItsTime(states: seq<Control>, events: seq<Event>, i: nat, j: nat)
    requires Run(states, events) && ScanFrom(states, events, i, j) && j < |events| && events[j].FocusAf?
    requires !(states[j].l.triggered && states[j].l.mode.ContinuousVideo?)
    ensures Drawn(events[i].d) && Slept(states, events, i, j) <= events[i].d
    ensures !Scanning(states[j + 1].af.state) <==> Slept(states, events, i, j) == events[i].d
  {
    RunKeeps(states, events, j);
    ScanHistory(states, events, i, j);
    assert StepAt(states, events, j);
    EndStep(states[j], events[j], states[j + 1]);
    assert StepAt(states, events, i);
  }

  lemma EndStep(c: Control, e: Event, n: Control)
    requires Invariant(c) && Step(c, e, n) && e.FocusAf? && Scanning(c.af.state)
    requires !(c.l.triggered && c.l.mode.ContinuousVideo?)
    ensures c.h.slept <= c.h.drawn && (!Scanning(n.af.state) <==> c.h.slept == c.h.drawn)
  {
    FocusScan(c.l.mode, c.l.state, c.l.triggered, c.p, e.d, e.success);
  }

  /** How many cycles have slept between state i and state j. */
  function Naps(events: seq<Event>, i: nat, j: nat): nat
    requires i <= j <= |events|
  {
    if i == j then 0 else Naps(events, i, j - 1) + if events[j - 1].Sleep? then 1 else 0
  }

  lemma {:induction false} NapsSleep(states: seq<Control>, events: seq<Event>, i: nat, j: nat)
    requires Run(states, events) && i <= j <= |events|
    ensures Naps(events, i, j) <= Slept(states, events, i, j) <= 100_000_000 * Naps(events, i, j)
  {
    if i < j {
      NapsSleep(states, events, i, j - 1);
      OneNap(states, events, i, j);
    }
  }

  /** The last event before j adds a cycle of at most 100 ms, or nothing. */
  lemma OneNap(states: seq<Control>, events: seq<Event>, i: nat, j: nat)
    requires Run(states, events) && i < j <= |events|
    ensures var n, t := Naps(events, i, j) - Naps(events, i, j - 1),
                        Slept(states, events, i, j) - Slept(states, events, i, j - 1);
      (n == t == 0) || (n == 1 && 0 < t <= 100_000_000)
  {
    if events[j - 1].Sleep? {
      SleepBounded(states, events, j - 1);
    }
  }

  /**
   A scan cannot go on for ever: the cycles that sleep during it are at most the nanoseconds drawn for
   it; and a scan that has used them up has slept in at least five.
   */
  lemma ScanIsFinite(states: seq<Control>, events: seq<Event>, i: nat, j: nat)
    requires Run(states, events) && ScanFrom(states, events, i, j)
    ensures Naps(events, i, j) <= Slept(states, events, i, j) <= events[i].d <= MAX_AF
    ensures Slept(states, events, i, j) == events[i].d ==> Naps(events, i, j) >= 5
  {
    RunKeeps(states, events, j);
    ScanHistory(states, events, i, j);
    NapsSleep(states, events, i, j);
    assert StepAt(states, events, i);
  }

  // ---------------------------------------------------------------------------------------
  // How a scan ends
  // ---------------------------------------------------------------------------------------

  /** A scan keeps its mode: a change of mode would have reset it. */
  lemma {:induction false} ScanMode(states: seq<Control>, events: seq<Event>, i: nat, j: nat)
    requires Run(states, events) && ScanFrom(states, events, i, j)
    ensures states[j].l.mode == states[i].l.mode
  {
    assert StepAt(states, events, j - 1);
    RunKeeps(states, events, j - 1);
    if j > i + 1 {
      ScanMode(states, events, i, j - 1);
    }
  }

  /** A trigger has come to a cycle of the scan that event i began, before event j. */
  ghost predicate Asked(states: seq<Control>, events: seq<Event>, i: nat, j: nat)
    requires j <= |events| < |states|
  {
    exists k :: i < k < j && events[k].FocusAf? && states[k].l.triggered
  }

  lemma AskedStep(states: seq<Control>, events: seq<Event>, i: nat, j: nat)
    requires i < j < |events| < |states|
    ensures Asked(states, events, i, j + 1) <==> Asked(states, events, i, j) || (events[j].FocusAf? && states[j].l.triggered)
  {
  }

  /** In continuous-picture mode the lock is pending exactly if a trigger has come during the scan. */
  lemma {:induction false} ScanLock(states: seq<Control>, events: seq<Event>, i: nat, j: nat)
    requires Run(states, events) && ScanFrom(states, events, i, j) && states[i].l.mode.ContinuousPicture?
    ensures states[j].p.lockAfter <==> Asked(states, events, i, j)
  {
    if j == i + 1 {
      ScanLockBegins(states, events, i);
    } else {
      ScanLock(states, events, i, j - 1);
      ScanLockStep(states, events, i, j);
      AskedStep(states, events, i, j - 1);
    }
  }

  lemma ScanLockBegins(states: seq<Control>, events: seq<Event>, i: nat)
    requires Run(states, events) && ScanFrom(states, events, i, i + 1) && states[i].l.mode.ContinuousPicture?
    ensures !states[i + 1].p.lockAfter
  {
    RunKeeps(states, events, i);
    assert StepAt(states, events, i);
    LockBegins(states[i], events[i], states[i + 1]);
  }

  lemma ScanLockStep(states: seq<Control>, events: seq<Event>, i: nat, j: nat)
    requires Run(states, events) && ScanFrom(states, events, i, j) && i + 1 < j && states[i].l.mode.ContinuousPicture?
    ensures states[j].p.lockAfter <==> states[j - 1].p.lockAfter || (events[j - 1].FocusAf? && states[j - 1].l.triggered)
  {
    RunKeeps(states, events, j - 1);
    ScanMode(states, events, i, j - 1);
    assert StepAt(states, events, j - 1);
    LockStep(states[j - 1], events[j - 1], states[j]);
  }

  lemma LockBegins(c: Control, e: Event, n: Control)
    requires Invariant(c) && Step(c, e, n) && e.FocusAf? && c.l.mode.ContinuousPicture?
    requires !Scanning(c.l.state) && Scanning(n.af.state)
    ensures !n.p.lockAfter
  {
  }

  lemma LockStep(c: Control, e: Event, n: Control)
    requires Invariant(c) && Step(c, e, n) && c.l.mode.ContinuousPicture? && Scanning(c.af.state) && Scanning(n.af.state)
    requires !(c.pc.Reset? && c.l.reset)
    ensures n.p.lockAfter <==> c.p.lockAfter || (e.FocusAf? && c.l.triggered)
  {
  }

  /**
   What a scan leaves. In the two modes with a trigger, success decides; in continuous-picture mode,
   whether a trigger has come during the scan; in continuous-video mode a trigger ends it unfocused.
   */
  lemma ScanEnds(states: seq<Control>, events: seq<Event>, i: nat, j: nat)
    requires Run(states, events) && ScanFrom(states, events, i, j) && j < |events| && events[j].FocusAf?
    requires !Scanning(states[j + 1].af.state)
    ensures var st, mode := states[j + 1].af.state, states[i].l.mode;
      && (mode.Auto? || mode.Macro? ==> st == if events[j].success then FocusedLocked else NotFocusedLocked)
      && (mode.ContinuousPicture? ==> st == if Asked(states, events, i, j + 1) then FocusedLocked else PassiveFocused)
      && (mode.ContinuousVideo? ==> st == if states[j].l.triggered then NotFocusedLocked else PassiveFocused)
      && (mode.Auto? || mode.Macro? || Continuous(mode))
  {
    RunKeeps(states, events, j);
    ScanMode(states, events, i, j);
    assert StepAt(states, events, j);
    if states[i].l.mode.ContinuousPicture? {
      ScanLock(states, events, i, j);
      AskedStep(states, events, i, j);
    }
    EndState(states[j], events[j], states[j + 1]);
  }

  lemma EndState(c: Control, e: Event, n: Control)
    requires Invariant(c) && Step(c, e, n) && e.FocusAf? && Scanning(c.af.state) && !Scanning(n.af.state)
    ensures match c.l.mode
      case Auto => n.af.state == if e.success then FocusedLocked else NotFocusedLocked
      case Macro => n.af.state == if e.success then FocusedLocked else NotFocusedLocked
      case ContinuousPicture => n.af.state == if c.p.lockAfter || c.l.triggered then FocusedLocked else PassiveFocused
      case ContinuousVideo => n.af.state == if c.l.triggered then NotFocusedLocked else PassiveFocused
      case _ => false
  {
  }

  /**
   What a cycle without a scan does: a trigger starts one in the modes that wait for it, and locks
   the focus as it is in the continuous ones, which start a scan by themselves unless they are locked.
   */
  lemma Settles(states: seq<Control>, events: seq<Event>, i: nat)
    requires Run(states, events) && i < |events| && events[i].FocusAf? && !Scanning(states[i].l.state)
    ensures var st, triggered := states[i].l.state, states[i].l.triggered;
      states[i + 1].af.state == match states[i].l.mode {
        case Auto => if triggered then ActiveScan else st
        case Macro => if triggered then ActiveScan else st
        case Off => Inactive
        case Edof => Inactive
        case Unknown(_) => Inactive
        case _ =>
          if st.FocusedLocked? || st.NotFocusedLocked? then st
          else if !triggered then PassiveScan
          else if st.PassiveFocused? then FocusedLocked
          else NotFocusedLocked
      }
  {
    RunKeeps(states, events, i);
    assert StepAt(states, events, i);
    SettleStep(states[i], events[i], states[i + 1]);
  }

  lemma SettleStep(c: Control, e: Event, n: Control)
    requires Invariant(c) && Step(c, e, n) && e.FocusAf? && !Scanning(c.l.state)
    ensures c.l.mode.Auto? || c.l.mode.Macro? ==> n.af.state == if c.l.triggered then ActiveScan else c.l.state
    ensures Continuous(c.l.mode) && !Rests(c.l.state) ==> n.af.state == if c.l.triggered then FocusedLocked else PassiveScan
    ensures Continuous(c.l.mode) && c.l.state.Inactive? ==> n.af.state == if c.l.triggered then NotFocusedLocked else PassiveScan
    ensures Continuous(c.l.mode) && Rests(c.l.state) && !c.l.state.Inactive? ==> n.af.state == c.l.state
    ensures c.l.mode.Off? || c.l.mode.Edof? || c.l.mode.Unknown? ==> n.af.state.Inactive?
  {
  }

  // ---------------------------------------------------------------------------------------
  // What a call brings about
  // ---------------------------------------------------------------------------------------

  /** Event m is a request for another mode than the one before it. */
  predicate ChangesMode(states: seq<Control>, events: seq<Event>, m: nat)
    requires m < |events| < |states|
  {
    events[m].Request? && events[m].mode != states[m].af.mode
  }

  /** No cycle begins after event k and before event i. */
  ghost predicate Unseen(events: seq<Event>, k: nat, i: nat)
    requires i <= |events|
  {
    forall m :: k < m < i ==> !events[m].Sample?
  }

  /** Nor does another trigger, a cancellation or a change of mode come. */
  ghost predicate Stands(states: seq<Control>, events: seq<Event>, k: nat, i: nat)
    requires i <= |events| < |states|
  {
    && Unseen(events, k, i)
    && forall m :: k < m < i ==> !events[m].TriggerAf? && !events[m].TriggerCancel? && !ChangesMode(states, events, m)
  }

  ghost predicate Triggered(states: seq<Control>, events: seq<Event>, i: nat)
    requires i <= |events| < |states|
  {
    exists k :: 0 <= k < i && events[k].TriggerAf? && Stands(states, events, k, i)
  }

  ghost predicate Cancelled(states: seq<Control>, events: seq<Event>, i: nat)
    requires i <= |events| < |states|
  {
    exists k :: 0 <= k < i && events[k].TriggerCancel? && Stands(states, events, k, i)
  }

  ghost predicate Changed(states: seq<Control>, events: seq<Event>, i: nat)
    requires i <= |events| < |states|
  {
    exists k :: 0 <= k < i && ChangesMode(states, events, k) && Unseen(events, k, i)
  }

  ghost predicate Metered(states: seq<Control>, events: seq<Event>, i: nat)
    requires i <= |events| < |states|
  {
    exists k :: 0 <= k < i && events[k].TriggerPrecapture? && Unseen(events, k, i)
  }

  lemma TriggeredStep(states: seq<Control>, events: seq<Event>, i: nat)
    requires i < |events| < |states|
    ensures var e, keeps := events[i], !events[i].Sample? && !events[i].TriggerAf? && !events[i].TriggerCancel? && !ChangesMode(states, events, i);
      && (Triggered(states, events, i + 1) <==> e.TriggerAf? || (keeps && Triggered(states, events, i)))
      && (Cancelled(states, events, i + 1) <==> e.TriggerCancel? || (keeps && Cancelled(states, events, i)))
  {
    assert events[i].TriggerAf? || events[i].TriggerCancel? ==> Stands(states, events, i, i + 1);
    forall k | 0 <= k < i && Stands(states, events, k, i + 1) ensures Stands(states, events, k, i) { }
    var keeps := !events[i].Sample? && !events[i].TriggerAf? && !events[i].TriggerCancel? && !ChangesMode(states, events, i);
    forall k | 0 <= k < i && keeps && Stands(states, events, k, i) ensures Stands(states, events, k, i + 1) { }
  }

  lemma ChangedStep(states: seq<Control>, events: seq<Event>, i: nat)
    requires i < |events| < |states|
    ensures var e := events[i];
      && (Changed(states, events, i + 1) <==> ChangesMode(states, events, i) || (!e.Sample? && Changed(states, events, i)))
      && (Metered(states, events, i + 1) <==> e.TriggerPrecapture? || (!e.Sample? && Metered(states, events, i)))
  {
    assert Unseen(events, i, i + 1);
    forall k | 0 <= k < i && Unseen(events, k, i + 1) ensures Unseen(events, k, i) { }
    forall k | 0 <= k < i && !events[i].Sample? && Unseen(events, k, i) ensures Unseen(events, k, i + 1) { }
  }

  /**
   What waits for the next cycle: a trigger or a cancellation exactly if it was the last call of
   its kind since a cycle began, with no change of mode after it; and a change of mode or a
   precapture trigger exactly if one came since then.
   */
  lemma {:induction false} PendingExactly(states: seq<Control>, events: seq<Event>, i: nat)
    requires Run(states, events) && i <= |events|
    ensures states[i].af.start <==> Triggered(states, events, i)
    ensures states[i].af.cancel <==> Cancelled(states, events, i)
    ensures states[i].af.modeChange <==> Changed(states, events, i)
    ensures states[i].ae.precapture <==> Metered(states, events, i)
    ensures !(states[i].af.start && states[i].af.cancel)
  {
    if i > 0 {
      PendingExactly(states, events, i - 1);
      TriggeredStep(states, events, i - 1);
      ChangedStep(states, events, i - 1);
      assert StepAt(states, events, i - 1);
      PendingStep(states[i - 1], events[i - 1], states[i]);
    }
  }

  lemma PendingStep(c: Control, e: Event, n: Control)
    requires Step(c, e, n) && !(c.af.start && c.af.cancel)
    ensures var change := e.Request? && e.mode != c.af.mode; var calls := e.TriggerAf? || e.TriggerCancel?;
      && (n.af.start <==> e.TriggerAf? || (c.af.start && !e.Sample? && !change && !calls))
      && (n.af.cancel <==> e.TriggerCancel? || (c.af.cancel && !e.Sample? && !change && !calls))
      && (n.af.modeChange <==> change || (c.af.modeChange && !e.Sample?))
      && (n.ae.precapture <==> e.TriggerPrecapture? || (c.ae.precapture && !e.Sample?))
  {
  }

  /** Event i begins the cycle whose autofocus work is event j. */
  ghost predicate CycleOf(events: seq<Event>, i: nat, j: nat) {
    && i < j < |events| && events[i].Sample? && events[j].FocusAf?
    && forall m :: i < m < j ==> !events[m].FocusAf?
  }

  /** The copies with which a cycle that began in state s gets from its reset to its autofocus work. */
  predicate Prepared(s: Control, c: Control) {
    || (c.pc.Reset? && c.l == SampleNext(s).l && c.p == s.p)
    || (c.pc.Focusing? && c.l == (if SampleNext(s).l.reset then SampleNext(s).l.(state := Inactive) else SampleNext(s).l)
        && c.p == if SampleNext(s).l.reset then Private(0, false) else s.p)
  }

  lemma {:induction false} CyclePrepares(states: seq<Control>, events: seq<Event>, i: nat, j: nat)
    requires Run(states, events) && i < j < |events| && events[i].Sample? && forall m :: i < m < j ==> !events[m].FocusAf?
    ensures Prepared(states[i], states[j])
  {
    assert StepAt(states, events, j - 1);
    if j > i + 1 {
      CyclePrepares(states, events, i, j - 1);
    }
  }

  /**
   What the autofocus work of a cycle starts from. The mode is the one requested last; a pending
   cancellation or change of mode makes it start from rest; and it is triggered exactly if a
   trigger was pending.
   */
  lemma WorkStartsFrom(states: seq<Control>, events: seq<Event>, i: nat, j: nat)
    requires Run(states, events) && CycleOf(events, i, j)
    ensures states[j].l.mode == states[i].af.mode
    ensures states[j].l.triggered <==> Triggered(states, events, i)
    ensures states[j].l.precapture <==> Metered(states, events, i)
    ensures Cancelled(states, events, i) || Changed(states, events, i) ==>
      states[j].l.state.Inactive? && states[j].p.scan == 0 && !states[j].p.lockAfter
    ensures !Cancelled(states, events, i) && !Changed(states, events, i) ==>
      states[j].l.state == states[i].af.state && states[j].p == states[i].p
    ensures states[j].l.aeMode == states[i].ae.mode && states[j].l.aeLock == states[i].ae.lock
    ensures states[j].l.aeState == states[i].ae.state
  {
    assert StepAt(states, events, j);
    CyclePrepares(states, events, i, j);
    PendingExactly(states, events, i);
  }

  /** A request sets both modes and the lock; it changes nothing else but that releasing the lock ends its state. */
  lemma RequestSets(states: seq<Control>, events: seq<Event>, i: nat)
    requires Run(states, events) && i < |events| && events[i].Request?
    ensures var s, n := states[i], states[i + 1];
      && n.af.mode == events[i].mode && n.ae.mode == events[i].aeMode && n.ae.lock == events[i].aeLock
      && n.ae.state == (if s.ae.lock && !events[i].aeLock then AeInactive else s.ae.state)
      && n == s.(af := n.af, ae := n.ae) && n.af.state == s.af.state
  {
    assert StepAt(states, events, i);
  }

  // ---------------------------------------------------------------------------------------
  // Exposure scans
  // ---------------------------------------------------------------------------------------

  predicate Metering(st: AeState) { st.AeSearching? || st.AePrecapture? }

  /** 100 ms, or what is left of the focus scan if that is less. */
  function FocusSleep(c: Control): int {
    if Scanning(c.l.state) && c.p.scan < 100_000_000 then c.p.scan else 100_000_000
  }

  /** That, or what is left of the exposure scan if that is less. */
  function FullSleep(c: Control): int {
    if Metering(c.l.aeState) && c.aeScan < FocusSleep(c) then c.aeScan else FocusSleep(c)
  }

  predicate SleepSet(c: Control) {
    && (c.pc.Reset? || c.pc.Focusing? ==> c.l.sleep == 100_000_000)
    && (c.pc.Exposing? ==> c.l.sleep == FocusSleep(c))
    && (c.pc.Sleeping? ==> c.l.sleep == FullSleep(c))
  }

  lemma SleepSetStep(c: Control, e: Event, n: Control)
    requires Invariant(c) && Step(c, e, n) && SleepSet(c)
    ensures SleepSet(n)
  {
    if e.FocusAf? {
      FocusScan(c.l.mode, c.l.state, c.l.triggered, c.p, e.d, e.success);
      FocusSleepSet(c.l.mode, c.l.state, c.l.triggered, c.p, e.d, e.success);
    } else if e.ExposeAe? {
      ExposeSleepSet(c.l.aeMode, c.l.aeLock, Exposure(c.l.aeState, c.aeScan, c.l.sleep), c.l.precapture, e.start, e.ae);
    }
  }

  lemma FocusSleepSet(mode: Mode, st: AfState, triggered: bool, p: Private, d: int, success: bool)
    requires Legal(mode, st)
    ensures var o := Focus(mode, st, triggered, p, d, success);
      o.sleep == if Scanning(o.state) && o.p.scan < 100_000_000 then o.p.scan else 100_000_000
  {
  }

  lemma ExposeSleepSet(mode: AeMode, lock: bool, o: Exposure, precapture: bool, start: bool, d: int)
    ensures var r := Expose(mode, lock, o, precapture, start, d);
      r.sleep == if Metering(r.state) && r.scan < o.sleep then r.scan else o.sleep
  {
  }

  lemma {:induction false} SleepSetKept(states: seq<Control>, events: seq<Event>, i: nat)
    requires Run(states, events) && i <= |events|
    ensures SleepSet(states[i])
  {
    if i > 0 {
      SleepSetKept(states, events, i - 1);
      RunKeeps(states, events, i - 1);
      assert StepAt(states, events, i - 1);
      SleepSetStep(states[i - 1], events[i - 1], states[i]);
    }
  }

  /**
   A cycle sleeps for exactly 100 ms, or until the first of the scans under way is over, and takes
   that time off both durations that have any left.
   */
  lemma SleepExactly(states: seq<Control>, events: seq<Event>, i: nat)
    requires Run(states, events) && i < |events| && events[i].Sleep?
    ensures var s, n := states[i], states[i + 1];
      && s.l.sleep == FullSleep(s)
      && n.p.scan == (if s.p.scan > 0 then s.p.scan - s.l.sleep else s.p.scan)
      && n.aeScan == (if s.aeScan > 0 then s.aeScan - s.l.sleep else s.aeScan)
  {
    SleepSetKept(states, events, i);
    assert StepAt(states, events, i);
  }

  /** A precapture trigger takes effect in this cycle. */
  predicate Retriggered(c: Control) { c.l.precapture && c.l.aeMode.AeOn? }

  /** A scan is under way that neither a trigger nor a lock takes over. */
  predicate Undisturbed(c: Control) {
    !Retriggered(c) && (c.l.aeState.AePrecapture? || (c.l.aeState.AeSearching? && !c.l.aeLock))
  }

  /** What one cycle's exposure work does to a scan: it begins one, goes on with one, ends one, or locks. */
  lemma ExposeScan(mode: AeMode, lock: bool, o: Exposure, precapture: bool, start: bool, d: int)
    requires d > 0
    ensures var r, triggered := Expose(mode, lock, o, precapture, start, d), precapture && mode.AeOn?;
      && (triggered ==> r.state.AePrecapture? && r.scan == d)
      && (!triggered && lock && !o.state.AePrecapture? ==> r == o.(state := AeLocked, scan := 0))
      && (!triggered && !lock && !Metering(o.state) ==>
            if start && mode.AeOn? && !o.state.AeLocked? then r.state.AeSearching? && r.scan == d else r == o)
      && (!triggered && (o.state.AePrecapture? || (o.state.AeSearching? && !lock)) ==>
            && r.scan == o.scan
            && r.state == (if o.scan > 0 then o.state else if lock then AeLocked else AeConverged))
      && (Metering(r.state) ==> r.sleep == if r.scan <= o.sleep then r.scan else o.sleep)
  {
  }

  /** Event i begins an exposure scan, and every cycle before j finds it under way and undisturbed. */
  ghost predicate ExposureFrom(states: seq<Control>, events: seq<Event>, i: nat, j: nat) {
    && i < j <= |events| < |states|
    && events[i].ExposeAe? && events[i].ae > 0 && Begins(states[i], states[i + 1])
    && forall k :: i < k < j && events[k].ExposeAe? ==> Undisturbed(states[k]) && states[k].aeScan > 0
  }

  /** The exposure work between c and n begins a scan. */
  predicate Begins(c: Control, n: Control) {
    Metering(n.ae.state) && (Retriggered(c) || !Metering(c.l.aeState))
  }

  /** What is left of an exposure scan and what was slept since it began add up to its duration. */
  predicate Remaining(c: Control, slept: int, duration: int) {
    && c.aeScan >= 0 && c.aeScan + slept == duration
    && (c.pc.Sleeping? ==> 0 < c.l.sleep <= c.aeScan)
  }

  lemma {:induction false} ExposureHistory(states: seq<Control>, events: seq<Event>, i: nat, j: nat)
    requires Run(states, events) && ExposureFrom(states, events, i, j)
    ensures Remaining(states[j], Slept(states, events, i, j), events[i].ae)
  {
    assert StepAt(states, events, j - 1);
    RunKeeps(states, events, j - 1);
    var t := Slept(states, events, i, j - 1);
    if j == i + 1 {
      ExposureBegins(states[i], events[i], states[j]);
    } else {
      assert ExposureFrom(states, events, i, j - 1);
      ExposureHistory(states, events, i, j - 1);
      ExposureStep(states[j - 1], events[j - 1], states[j], t, events[i].ae);
    }
  }

  lemma ExposureBegins(c: Control, e: Event, n: Control)
    requires Invariant(c) && Step(c, e, n) && e.ExposeAe? && e.ae > 0 && Begins(c, n)
    ensures Remaining(n, 0, e.ae)
  {
    ExposeScan(c.l.aeMode, c.l.aeLock, Exposure(c.l.aeState, c.aeScan, c.l.sleep), c.l.precapture, e.start, e.ae);
  }

  lemma ExposureStep(c: Control, e: Event, n: Control, slept: int, duration: int)
    requires Invariant(c) && Step(c, e, n) && Remaining(c, slept, duration)
    requires e.ExposeAe? ==> Undisturbed(c) && c.aeScan > 0
    ensures Remaining(n, slept + if e.Sleep? then c.l.sleep else 0, duration)
  {
  }

  /**
   An exposure scan that neither a trigger nor a lock takes over ends in the cycle, and only in the
   cycle, that finds the sleeps since it began adding up to its duration, whatever autofocus does to
   the sleeps; it ends locked or converged by the lock of that cycle.
   */
  lemma ExposureTakesItsTime(states: seq<Control>, events: seq<Event>, i: nat, j: nat)
    requires Run(states, events) && ExposureFrom(states, events, i, j)
    requires j < |events| && events[j].ExposeAe? && Undisturbed(states[j])
    ensures Slept(states, events, i, j) <= events[i].ae
    ensures states[j + 1].ae.state
         == if Slept(states, events, i, j) < events[i].ae then states[j].l.aeState
            else if states[j].l.aeLock then AeLocked else AeConverged
  {
    ExposureHistory(states, events, i, j);
    assert StepAt(states, events, j);
  }
}
