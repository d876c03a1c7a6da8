/**
 How the pipeline of the emulated camera can go on. A release can wait for ever for a worker that
 waits for a lock the release holds; exactly when is stated for every reachable state. While no call
 is under way the workers can always finish what has been dequeued.
 */
module CameraProgress {
  import opened Basics
  import opened InFlightRing
  import opened CameraPipeline
  import opened CameraCalls

  // ---------------------------------------------------------------------------------------
  // The next step of a worker
  // ---------------------------------------------------------------------------------------

  /** How many ids of the request have been looked up. */
  function LookedUp(s: State): nat {
    (if s.cBuffers.Some? then |s.cBuffers.value| else 0) + if s.cPending.Some? then 1 else 0
  }

  function Named(s: State): nat { if s.cRequest.Some? then |s.cRequest.value.ids| else 0 }

  function Listed(s: State): nat { if s.cBuffers.Some? then |s.cBuffers.value| else 0 }

  /** The ids that the request names and the configure thread has not looked up yet. */
  predicate ToLookUp(s: State) { (s.cpc.CDequeued? || s.cpc.CSetup?) && LookedUp(s) < Named(s) }

  function ConfigureMove(s: State): ConfigureEvent {
    match s.cpc
    case CIdle => CEnter
    case CDequeue => CDequeueNone
    case CDequeued => CCount
    case CSetup => if s.cPending.Some? then CPush else if ToLookUp(s) then CLookup(false) else CLeaveSetup
    case CWaitReady => CReady
    case CWaitJpeg => CJpegDone
    case CVsync => CVsyncDone
    case CGet(i) => if i < Listed(s) then CGetBuffer else CQueue
    case CQueued => CClear
    case CCleared => CUncount
    case CExit => CLeave
  }

  /** How many such steps the configure thread is away from being idle. */
  function ConfigureRank(s: State): nat {
    match s.cpc
    case CIdle => 0
    case CDequeue => 1
    case CDequeued => 3 * Named(s) + 10
    case CSetup =>
      if LookedUp(s) <= Named(s) then 2 * (Named(s) - LookedUp(s)) + (if s.cPending.Some? then 1 else 0) + Named(s) + 9 else 0
    case CWaitReady => Listed(s) + 8
    case CWaitJpeg => Listed(s) + 7
    case CVsync => Listed(s) + 6
    case CGet(i) => if i <= Listed(s) then Listed(s) - i + 5 else 0
    case CQueued => 3
    case CCleared => 2
    case CExit => 1
  }

  /** What that step needs from the others: the parent's mutex, room in the ring, an idle compressor. */
  ghost predicate Unhindered(s: State) {
    && (s.cpc.CSetup? && s.cPending.None? && ToLookUp(s) ==>
          ParentMutex(s.apc) && (s.cRequest.value.ids[LookedUp(s)] > 0 ==> s.cRequest.value.ids[LookedUp(s)] in s.streams))
    && (s.cpc.CWaitReady? ==> ReadoutInput(s.apc) && s.ring.Valid() && s.ring.Ready())
    && (s.cpc.CWaitJpeg? ==> s.jobs == [])
    && (s.cpc.CGet? ==> if s.cpc.i < Listed(s) then ParentMutex(s.apc) else ReadoutInput(s.apc))
  }

  lemma ConfigureMoves(s: State)
    requires Shape(s) && !s.cpc.CIdle? && Unhindered(s)
    ensures ConfigureEnabled(s, ConfigureMove(s))
    ensures ConfigureRank(ConfigureNext(s, ConfigureMove(s))) < ConfigureRank(s)
  {
  }

  lemma ConfigureMoveLeaves(s: State)
    requires ConfigureEnabled(s, ConfigureMove(s))
    ensures var n := ConfigureNext(s, ConfigureMove(s));
      n.apc == s.apc && n.streams == s.streams && n.dequeued == s.dequeued && n.jobs == s.jobs && n.rpc == s.rpc
  {
  }

  function ReadoutMove(s: State): ReadoutEvent {
    match s.rpc
    case RIdle => RTake
    case RWait => RFrame
    case RBusy => RFree
    case RSend(i) =>
      if s.rBuffers.Some? then
        if i < |s.rBuffers.value| then RReturn else if NeedsJpeg(s.rBuffers.value) then RStart else RFinish
      else RFinish
    case RStarted => RForget
    case RCount => RUncount
  }

  function ReadoutRank(s: State): nat {
    var n := if s.rBuffers.Some? then |s.rBuffers.value| else 0;
    match s.rpc
    case RIdle => 0
    case RWait => n + 6
    case RBusy => n + 5
    case RSend(i) => if i <= n then n - i + 4 else 0
    case RStarted => 2
    case RCount => 1
  }

  lemma ReadoutMoves(s: State)
    requires Shape(s) && !s.rpc.RIdle? && s.apc.AIdle?
    ensures ReadoutEnabled(s, ReadoutMove(s)) && !ReadoutMove(s).RTake?
    ensures var n := ReadoutNext(s, ReadoutMove(s));
      && ReadoutRank(n) < ReadoutRank(s) && n.ring == s.ring
      && n == s.(rpc := n.rpc, rRequest := n.rRequest, rBuffers := n.rBuffers, rOp := n.rOp, rCount := n.rCount,
                 jobs := n.jobs, finished := n.finished)
  {
  }

  // ---------------------------------------------------------------------------------------
  // A release that waits for ever
  // ---------------------------------------------------------------------------------------

  /**
   The configure thread holds its internals and needs the parent's mutex, now or later, before it
   releases them: it has stream ids to look up or buffers to fetch.
   */
  predicate NeedsParent(s: State) {
    ToLookUp(s) || (s.cpc.CGet? && s.cpc.i < Listed(s))
  }

  /**
   A release waits for the internals of a worker that cannot release them while the release holds what
   it holds. Readout always needs its input mutex before it releases its internals.
   */
  predicate Stuck(s: State) {
    (s.apc.AScanC? && NeedsParent(s)) || (s.apc.AScanHeld? && ReadoutInternals(s.rpc))
  }

  lemma StuckConfigure(s: State, c: ConfigureEvent)
    requires Shape(s) && s.apc.AScanC? && NeedsParent(s) && ConfigureEnabled(s, c)
    ensures NeedsParent(ConfigureNext(s, c)) && ConfigureNext(s, c).apc == s.apc
  {
  }

  lemma StuckStep(s: State, e: Event, n: State)
    requires Shape(s) && Stuck(s) && Step(s, e, n)
    ensures Stuck(n) && n.apc == s.apc
  {
    match e {
      case Configure(c) => if s.apc.AScanC? { StuckConfigure(s, c); } else { OthersLeave(s, e, n); }
      case Readout(r) => ReadoutKeepsWaiting(s, r);
      case JpegDone(_) =>
      case Api(a) =>
        if s.apc.AScanC? {
          NeedsInternals(s);
        }
        assert false;
    }
  }

  lemma NeedsInternals(s: State)
    requires NeedsParent(s)
    ensures ConfigureInternals(s.cpc)
  {
  }

  lemma ReadoutKeepsWaiting(s: State, r: ReadoutEvent)
    requires Stuck(s) && ReadoutEnabled(s, r)
    ensures Stuck(ReadoutNext(s, r)) && ReadoutNext(s, r).apc == s.apc
  {
  }

  /** Once stuck, a release never returns, whatever the workers do. */
  lemma {:induction false} StuckForEver(size: nat, states: seq<State>, events: seq<Event>, i: nat, j: nat)
    requires Run(size, states, events) && i <= j <= |events| && Stuck(states[i])
    ensures Stuck(states[j]) && states[j].apc == states[i].apc
  {
    if i < j {
      StuckForEver(size, states, events, i, j - 1);
      RunKeeps(size, states, events, j - 1);
      assert StepAt(states, events, j - 1);
      StuckStep(states[j - 1], events[j - 1], states[j]);
    }
  }

  /** Steps of the configure thread that make it release its internals. */
  lemma {:induction false} Releases(size: nat, states: seq<State>, events: seq<Event>) returns (more: seq<State>, all: seq<Event>)
    requires Run(size, states, events)
    requires var s := states[|events|]; s.apc.AScanC? && !NeedsParent(s)
    ensures Run(size, more, all) && states <= more && |events| <= |all|
    ensures var n := more[|all|]; n.apc == states[|events|].apc && !ConfigureInternals(n.cpc)
    decreases ConfigureRank(states[|events|])
  {
    var s := states[|events|];
    RunKeeps(size, states, events, |events|);
    if !ConfigureInternals(s.cpc) {
      more, all := states, events;
    } else {
      ConfigureMoves(s);
      ConfigureMoveLeaves(s);
      StillFree(s);
      var n := ConfigureNext(s, ConfigureMove(s));
      more, all := Extend(size, states, events, Configure(ConfigureMove(s)), n);
      more, all := Releases(size, more, all);
    }
  }

  lemma StillFree(s: State)
    requires Shape(s) && ConfigureInternals(s.cpc) && !NeedsParent(s) && ConfigureEnabled(s, ConfigureMove(s))
    ensures !NeedsParent(ConfigureNext(s, ConfigureMove(s)))
  {
  }

  /**
   And only then: in every run that ends with a call under way, the run goes on to the next step
   of that call if and only if the call is not stuck.
   */
  lemma CallGoesOnExactly(size: nat, states: seq<State>, events: seq<Event>) returns (more: seq<State>, all: seq<Event>)
    requires Run(size, states, events) && !states[|events|].apc.AIdle?
    ensures Run(size, more, all) && states <= more && |events| <= |all|
    ensures !Stuck(states[|events|]) ==>
      |events| < |all| && all[|all| - 1] == Api(AStep) && more[|all| - 1].apc == states[|events|].apc
    ensures Stuck(states[|events|]) ==>
      forall ss: seq<State>, es: seq<Event> | Run(size, ss, es) && states <= ss && |events| <= |es| :: ss[|es|].apc == states[|events|].apc
  {
    more, all := states, events;
    var s := states[|events|];
    if Stuck(s) {
      forall ss: seq<State>, es: seq<Event> | Run(size, ss, es) && states <= ss && |events| <= |es| ensures ss[|es|].apc == s.apc {
        assert ss[|events|] == s;
        StuckForEver(size, ss, es, |events|, |es|);
      }
    } else {
      if s.apc.AScanC? {
        more, all := Releases(size, states, events);
      }
      var t := more[|all|];
      RunKeeps(size, more, all, |all|);
      more, all := Extend(size, more, all, Api(AStep), ApiNext(t, AStep));
    }
  }

  /** A release gets stuck at the configure thread as soon as that has dequeued a request for a stream. */
  lemma StuckAtConfigure(size: nat) returns (states: seq<State>, events: seq<Event>)
    requires size >= 2
    ensures Run(size, states, events) && Stuck(states[|events|]) && states[|events|].apc == AScanC(1)
  {
    states, events := UncountedReached(size);
    var s := states[|events|];
    RunKeeps(size, states, events, |events|);
    states, events := Extend(size, states, events, Api(ARelease(1)), s.(apc := AScanC(1)));
  }

  /** The request at the configure thread is not queued yet. */
  predicate NotQueued(pc: ConfigurePc) {
    pc.CDequeued? || pc.CSetup? || pc.CWaitReady? || pc.CWaitJpeg? || pc.CVsync? || pc.CGet?
  }

  /** One step of the configure thread, with nothing in its way. */
  lemma QueueStep(s: State)
    requires Shape(s) && Unhindered(s) && NotQueued(s.cpc) && s.ring.Ready()
    ensures ConfigureEnabled(s, ConfigureMove(s))
    ensures var n := ConfigureNext(s, ConfigureMove(s));
      && n.ring.Valid() && n.apc == s.apc && n.rpc == s.rpc && n.streams == s.streams && n.jobs == s.jobs
      && (NotQueued(n.cpc) ==> n.ring == s.ring)
      && (!NotQueued(n.cpc) ==> |n.ring.Contents()| == |s.ring.Contents()| + 1)
  {
    ConfigureMoves(s);
    RingConfigure(s, ConfigureMove(s));
    ConfigureMoveLeaves(s);
  }

  /** With room, no call under way and an idle compressor, the configure thread can queue its request. */
  lemma {:induction false} CanQueue(size: nat, states: seq<State>, events: seq<Event>) returns (more: seq<State>, all: seq<Event>)
    requires Run(size, states, events)
    requires var s := states[|events|];
      s.apc.AIdle? && KnownIds(s) && NotQueued(s.cpc) && s.jobs == [] && s.ring.Valid() && s.ring.Ready()
    ensures Run(size, more, all) && states <= more
    ensures var s, n := states[|events|], more[|all|];
      && n.ring.Valid() && |n.ring.Contents()| == |s.ring.Contents()| + 1
      && n.apc == s.apc && n.rpc == s.rpc && n.streams == s.streams && n.cpc.CQueued?
    decreases ConfigureRank(states[|events|])
  {
    var s := states[|events|];
    RunKeeps(size, states, events, |events|);
    ConfigureMoves(s);
    QueueStep(s);
    KnownStay(s);
    QueuedNext(s);
    var n := ConfigureNext(s, ConfigureMove(s));
    more, all := Extend(size, states, events, Configure(ConfigureMove(s)), n);
    if NotQueued(n.cpc) {
      more, all := CanQueue(size, more, all);
    }
  }

  lemma QueuedNext(s: State)
    requires NotQueued(s.cpc) && ConfigureEnabled(s, ConfigureMove(s))
    ensures var n := ConfigureNext(s, ConfigureMove(s)); NotQueued(n.cpc) || n.cpc.CQueued?
  {
  }

  /** The configure thread has queued its request and lets go of it. */
  lemma CanLetGo(size: nat, states: seq<State>, events: seq<Event>) returns (more: seq<State>, all: seq<Event>)
    requires Run(size, states, events) && states[|events|].cpc.CQueued?
    ensures Run(size, more, all) && states <= more
    ensures var s, n := states[|events|], more[|all|];
      && n.cpc.CIdle? && n.ring == s.ring && n.apc == s.apc && n.rpc == s.rpc && n.streams == s.streams
  {
    var s := states[|events|];
    var cleared := s.(cpc := CCleared, cRequest := None, cBuffers := None);
    var uncounted := cleared.(cpc := CExit, cCount := s.cCount - 1);
    more, all := Extend(size, states, events, Configure(CClear), cleared);
    more, all := Extend(size, more, all, Configure(CUncount), uncounted);
    more, all := Extend(size, more, all, Configure(CLeave), uncounted.(cpc := CIdle));
  }

  /** Readout takes the only operation and holds its internals. */
  lemma CanTake(size: nat, states: seq<State>, events: seq<Event>) returns (more: seq<State>, all: seq<Event>)
    requires Run(size, states, events)
    requires var s := states[|events|]; s.apc.AIdle? && s.rpc.RIdle? && s.ring.Valid() && |s.ring.Contents()| == 1
    ensures Run(size, more, all) && states <= more
    ensures var s, n := states[|events|], more[|all|];
      && n.rpc.RBusy? && n.ring.Valid() && n.ring.Contents() == [] && n.apc == s.apc && n.cpc == s.cpc && n.streams == s.streams
  {
    var s := states[|events|];
    RunKeeps(size, states, events, |events|);
    assert s.ring.head != s.ring.tail;
    s.ring.PopTakesOldest();
    more, all := Extend(size, states, events, Readout(RTake), ReadoutNext(s, RTake));
    more, all := Extend(size, more, all, Readout(RFrame), ReadoutNext(more[|all|], RFrame));
  }

  /** A release that comes now goes on to the scan of readout, and waits there. */
  lemma ScanWaits(size: nat, states: seq<State>, events: seq<Event>, id: int) returns (more: seq<State>, all: seq<Event>)
    requires Run(size, states, events)
    requires var s := states[|events|];
      s.apc.AIdle? && id in s.streams && s.rpc.RBusy? && s.cpc.CIdle? && s.ring.Valid() && s.ring.Contents() == []
    ensures Run(size, more, all) && states <= more
    ensures more[|all|] == states[|events|].(apc := AScanHeld(id)) && Stuck(more[|all|])
  {
    var s := states[|events|];
    RunKeeps(size, states, events, |events|);
    assert !UsesAny(s.ring.Contents(), id);
    more, all := Extend(size, states, events, Api(ARelease(id)), s.(apc := AScanC(id)));
    more, all := Extend(size, more, all, Api(AStep), s.(apc := AScanRing(id)));
    more, all := Extend(size, more, all, Api(AStep), s.(apc := AScanHeld(id)));
  }

  /** A release gets stuck at readout, too, when that is at work on an operation. */
  lemma StuckAtReadout(size: nat) returns (states: seq<State>, events: seq<Event>)
    requires size >= 2
    ensures Run(size, states, events) && Stuck(states[|events|]) && states[|events|].apc == AScanHeld(1)
  {
    states, events := UncountedReached(size);
    RunKeeps(size, states, events, |events|);
    var s := states[|events|];
    Empty(s);
    s.ring.ReadyMeansRoom();
    states, events := CanQueue(size, states, events);
    states, events := CanLetGo(size, states, events);
    states, events := CanTake(size, states, events);
    states, events := ScanWaits(size, states, events, 1);
  }

  /** A request that has been dequeued but not counted is the only one when readout has none to count. */
  lemma Empty(s: State)
    requires Invariant(s) && s.rCount == 0
    ensures s.rpc.RIdle? && s.ring.Contents() == []
  {
  }

  // ---------------------------------------------------------------------------------------
  // What the workers can finish
  // ---------------------------------------------------------------------------------------

  /** Nothing is in the pipeline. */
  ghost predicate Quiescent(s: State) {
    s.cpc.CIdle? && s.rpc.RIdle? && s.jobs == [] && s.ring.Valid() && s.ring.Contents() == []
  }

  /** The streams that a request still has to be given are registered. */
  predicate KnownIds(s: State) {
    ToLookUp(s) ==> forall k :: LookedUp(s) <= k < Named(s) && s.cRequest.value.ids[k] > 0 ==> s.cRequest.value.ids[k] in s.streams
  }

  /** The step that comes first: readout, then the compressor, then configure. */
  ghost function Move(s: State): Event
    requires s.ring.Valid()
  {
    if !s.rpc.RIdle? || s.ring.Contents() != [] then Readout(ReadoutMove(s))
    else if s.jobs != [] then JpegDone(0)
    else Configure(ConfigureMove(s))
  }

  ghost predicate Less(n: State, s: State)
    requires n.ring.Valid() && s.ring.Valid()
  {
    || ConfigureRank(n) < ConfigureRank(s)
    || (ConfigureRank(n) == ConfigureRank(s) &&
        (|n.ring.Contents()| < |s.ring.Contents()| ||
         (|n.ring.Contents()| == |s.ring.Contents()| &&
          (ReadoutRank(n) < ReadoutRank(s) || (ReadoutRank(n) == ReadoutRank(s) && |n.jobs| < |s.jobs|)))))
  }

  /** Such a step touches neither calls nor streams, and dequeues nothing. */
  ghost predicate Onward(s: State, n: State) {
    && s.ring.Valid() && n.ring.Valid() && Less(n, s)
    && n.apc == s.apc && n.streams == s.streams && n.dequeued == s.dequeued && KnownIds(n)
  }

  lemma SameConfigure(s: State, n: State)
    requires n.cpc == s.cpc && n.cRequest == s.cRequest && n.cBuffers == s.cBuffers && n.cPending == s.cPending
    requires n.streams == s.streams
    ensures ConfigureRank(n) == ConfigureRank(s) && (KnownIds(n) <==> KnownIds(s))
  {
  }

  lemma ReadoutOnward(s: State) returns (n: State)
    requires Invariant(s) && s.apc.AIdle? && KnownIds(s) && (!s.rpc.RIdle? || s.ring.Contents() != [])
    ensures Step(s, Move(s), n) && Onward(s, n)
  {
    if s.rpc.RIdle? {
      assert s.ring.head != s.ring.tail;
      s.ring.PopTakesOldest();
      n := ReadoutNext(s, RTake);
    } else {
      ReadoutMoves(s);
      n := ReadoutNext(s, ReadoutMove(s));
    }
    SameConfigure(s, n);
  }

  lemma JpegOnward(s: State) returns (n: State)
    requires s.ring.Valid() && s.apc.AIdle? && KnownIds(s) && s.rpc.RIdle? && s.ring.Contents() == [] && s.jobs != []
    ensures Step(s, Move(s), n) && Onward(s, n)
  {
    n := JpegNext(s, 0);
    SameConfigure(s, n);
  }

  lemma KnownStay(s: State)
    requires Shape(s) && KnownIds(s) && ConfigureEnabled(s, ConfigureMove(s)) && !s.cpc.CIdle?
    ensures KnownIds(ConfigureNext(s, ConfigureMove(s)))
  {
  }

  lemma ConfigureOnward(s: State) returns (n: State)
    requires Invariant(s) && s.apc.AIdle? && KnownIds(s) && s.rpc.RIdle? && s.ring.Contents() == [] && s.jobs == [] && !s.cpc.CIdle?
    ensures Step(s, Move(s), n) && Onward(s, n)
  {
    s.ring.ReadyMeansRoom();
    ConfigureMoves(s);
    ConfigureMoveLeaves(s);
    KnownStay(s);
    n := ConfigureNext(s, ConfigureMove(s));
    RingConfigure(s, ConfigureMove(s));
  }

  lemma MoveOnward(s: State) returns (n: State)
    requires Invariant(s) && s.apc.AIdle? && KnownIds(s) && !Quiescent(s)
    ensures Step(s, Move(s), n) && Onward(s, n) && !Move(s).Api?
  {
    if !s.rpc.RIdle? || s.ring.Contents() != [] {
      n := ReadoutOnward(s);
    } else if s.jobs != [] {
      n := JpegOnward(s);
    } else {
      n := ConfigureOnward(s);
    }
  }

  lemma AllOver(s: State)
    requires Invariant(s) && Quiescent(s)
    ensures forall q: nat :: q < s.dequeued ==> Over(s, q) == 1
  {
    forall q: nat | q < s.dequeued ensures Over(s, q) == 1 {
      assert Places(s, q) == 1;
    }
  }

  /**
   From every reachable state with no call under way, if the streams still to be looked up are
   registered, the workers and the compressor can finish everything that has been dequeued, by steps
   of their own alone.
   */
  lemma {:induction false} CanFinish(size: nat, states: seq<State>, events: seq<Event>) returns (more: seq<State>, all: seq<Event>)
    requires Run(size, states, events)
    requires var s := states[|events|]; s.apc.AIdle? && KnownIds(s)
    ensures Run(size, more, all) && states <= more && events <= all
    ensures forall k :: |events| <= k < |all| ==> !all[k].Api?
    ensures var s, n := states[|events|], more[|all|];
      && Quiescent(n) && n.streams == s.streams && n.dequeued == s.dequeued
      && forall q: nat :: q < n.dequeued ==> Over(n, q) == 1
    decreases ConfigureRank(states[|events|]),
              if states[|events|].ring.Valid() then |states[|events|].ring.Contents()| else 0,
              ReadoutRank(states[|events|]), |states[|events|].jobs|
  {
    var s := states[|events|];
    RunKeeps(size, states, events, |events|);
    if Quiescent(s) {
      more, all := states, events;
      AllOver(s);
    } else {
      var n := MoveOnward(s);
      more, all := Extend(size, states, events, Move(s), n);
      more, all := CanFinish(size, more, all);
    }
  }
}
