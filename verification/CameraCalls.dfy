/**
 What the API calls of the emulated camera come to over whole runs: exactly when a release removes
 its stream, what a count adds up, which ids streams get, and which operations the JPEG compressor
 is given.
 */
module CameraCalls {
  import opened Basics
  import opened InFlightRing
  import opened CameraPipeline

  // ---------------------------------------------------------------------------------------
  // Release
  // ---------------------------------------------------------------------------------------

  /** A release of stream id, from the event that begins it to the state in which it has returned. */
  ghost predicate ReleaseCall(size: nat, states: seq<State>, events: seq<Event>, i: nat, j: nat, id: int) {
    && Run(size, states, events) && i < j <= |events| && events[i] == Api(ARelease(id))
    && states[j].apc.AIdle? && forall k :: i < k < j ==> !states[k].apc.AIdle?
  }

  /** The stage that a release looks at from the given point holds a buffer of stream id. */
  ghost predicate StageHolds(s: State, at: ApiPc, id: int)
    requires s.ring.Valid()
  {
    exists b: Buffer :: b.id == id && match at
      case AScanC(_) => HeldByConfigure(s, b)
      case AScanRing(_) => HeldByRing(s, b)
      case AScanHeld(_) => HeldByReadout(s, b)
      case AScanJpeg(_) => HeldByJpeg(s, b)
      case _ => false
  }

  /** Between event i and state j, the call has looked at that stage and found no buffer of the stream. */
  ghost predicate FoundClear(states: seq<State>, events: seq<Event>, i: nat, j: nat, at: ApiPc, id: int)
    requires j <= |events| < |states|
  {
    exists k :: i < k < j && Looks(states, events, k, at) && states[k].ring.Valid() && !StageHolds(states[k], at, id)
  }

  predicate Looks(states: seq<State>, events: seq<Event>, k: nat, at: ApiPc)
    requires k < |events| < |states|
  {
    events[k] == Api(AStep) && states[k].apc == at
  }

  /** What one more step adds to that. */
  ghost predicate FoundNext(states: seq<State>, events: seq<Event>, i: nat, j: nat, at: ApiPc, id: int)
    requires j < |events| < |states| && states[j].ring.Valid()
  {
    var now := Looks(states, events, j, at) && !StageHolds(states[j], at, id);
    FoundClear(states, events, i, j + 1, at, id) <==> FoundClear(states, events, i, j, at, id) || now
  }

  lemma FoundStep(states: seq<State>, events: seq<Event>, i: nat, j: nat, at: ApiPc, id: int)
    requires i < j < |events| < |states| && states[j].ring.Valid()
    ensures FoundNext(states, events, i, j, at, id)
  {
    if FoundClear(states, events, i, j, at, id) {
      var k :| i < k < j && Looks(states, events, k, at) && states[k].ring.Valid() && !StageHolds(states[k], at, id);
      assert i < k < j + 1;
    }
  }

  /** How far a release has got, and what it has found on the way; `found` says so for each stage. */
  predicate Phase(first: set<int>, now: set<int>, pc: ApiPc, id: int, c: bool, ring: bool, held: bool, jpeg: bool) {
    match pc
    case AScanC(n) => n == id && now == first && !c && !ring && !held && !jpeg
    case AScanRing(n) => n == id && now == first && c && !ring && !held && !jpeg
    case AScanHeld(n) => n == id && now == first && c && ring && !held && !jpeg
    case AScanJpeg(n) => n == id && now == first && c && ring && held && !jpeg
    case ARemove(n) => n == id && now == first && c && ring && held && jpeg
    case AIdle => now == if c && ring && held && jpeg then first - {id} else first
    case _ => false
  }

  ghost predicate PhaseAt(states: seq<State>, events: seq<Event>, i: nat, j: nat, id: int)
    requires i < j <= |events| < |states|
  {
    Phase(states[i].streams, states[j].streams, states[j].apc, id,
          FoundClear(states, events, i, j, AScanC(id), id), FoundClear(states, events, i, j, AScanRing(id), id),
          FoundClear(states, events, i, j, AScanHeld(id), id), FoundClear(states, events, i, j, AScanJpeg(id), id))
  }

  /** What the scan finds is whether the stage holds a buffer of the stream. */
  lemma ScanIsHolding(s: State, id: int)
    requires Shape(s)
    ensures s.apc == AScanC(id) && !ConfigureInternals(s.cpc) ==>
      (StageHolds(s, AScanC(id), id) <==> s.cBuffers.Some? && Uses(s.cBuffers.value, id))
    ensures StageHolds(s, AScanRing(id), id) <==> UsesAny(s.ring.Contents(), id)
    ensures StageHolds(s, AScanHeld(id), id) <==> s.rBuffers.Some? && Uses(s.rBuffers.value, id)
    ensures StageHolds(s, AScanJpeg(id), id) <==> UsesAny(s.jobs, id)
  {
    if op :| op in s.ring.Contents() && Uses(op.bufs, id) {
      var b :| b in op.bufs && b.id == id;
      assert HeldByRing(s, b);
    }
    if op :| op in s.jobs && Uses(op.bufs, id) {
      var b :| b in op.bufs && b.id == id;
      assert HeldByJpeg(s, b);
    }
    forall b: Buffer | b.id == id ensures
      && (HeldByRing(s, b) ==> UsesAny(s.ring.Contents(), id)) && (HeldByJpeg(s, b) ==> UsesAny(s.jobs, id))
    {
      HeldIsIn(s, b);
    }
  }

  /** One step of the call. */
  lemma PhaseStep(s: State, n: State, first: set<int>, id: int, c: bool, ring: bool, held: bool, jpeg: bool)
    requires Shape(s) && ApiEnabled(s, AStep) && n == ApiNext(s, AStep)
    requires Phase(first, s.streams, s.apc, id, c, ring, held, jpeg)
    ensures Phase(first, n.streams, n.apc, id,
                  c || (s.apc == AScanC(id) && !StageHolds(s, AScanC(id), id)),
                  ring || (s.apc == AScanRing(id) && !StageHolds(s, AScanRing(id), id)),
                  held || (s.apc == AScanHeld(id) && !StageHolds(s, AScanHeld(id), id)),
                  jpeg || (s.apc == AScanJpeg(id) && !StageHolds(s, AScanJpeg(id), id)))
  {
    ScanIsHolding(s, id);
  }

  /** While a call is under way, every other step leaves it and the streams alone. */
  lemma OthersLeave(s: State, e: Event, n: State)
    requires Step(s, e, n) && !s.apc.AIdle? && e != Api(AStep)
    ensures n.apc == s.apc && n.streams == s.streams
  {
  }

  lemma {:induction false} PhaseKept(size: nat, states: seq<State>, events: seq<Event>, i: nat, j: nat, id: int)
    requires Run(size, states, events) && i < j <= |events| && events[i] == Api(ARelease(id))
    requires forall k :: i < k < j ==> !states[k].apc.AIdle?
    ensures PhaseAt(states, events, i, j, id)
  {
    assert StepAt(states, events, j - 1);
    if j == i + 1 {
      PhaseBegins(states, events, i, id);
    } else {
      PhaseKept(size, states, events, i, j - 1, id);
      RunKeeps(size, states, events, j - 1);
      FoundStep(states, events, i, j - 1, AScanC(id), id);
      FoundStep(states, events, i, j - 1, AScanRing(id), id);
      FoundStep(states, events, i, j - 1, AScanHeld(id), id);
      FoundStep(states, events, i, j - 1, AScanJpeg(id), id);
      PhaseNext(states, events, i, j - 1, id);
    }
  }

  lemma PhaseBegins(states: seq<State>, events: seq<Event>, i: nat, id: int)
    requires i < |events| < |states| && StepAt(states, events, i) && events[i] == Api(ARelease(id))
    ensures PhaseAt(states, events, i, i + 1, id)
  {
    assert states[i + 1] == states[i].(apc := AScanC(id));
  }

  lemma PhaseNext(states: seq<State>, events: seq<Event>, i: nat, j: nat, id: int)
    requires i < j < |events| < |states| && StepAt(states, events, j) && Shape(states[j]) && !states[j].apc.AIdle?
    requires PhaseAt(states, events, i, j, id)
    requires FoundNext(states, events, i, j, AScanC(id), id) && FoundNext(states, events, i, j, AScanRing(id), id)
    requires FoundNext(states, events, i, j, AScanHeld(id), id) && FoundNext(states, events, i, j, AScanJpeg(id), id)
    ensures PhaseAt(states, events, i, j + 1, id)
  {
    if events[j] == Api(AStep) {
      PhaseStep(states[j], states[j + 1], states[i].streams, id,
                FoundClear(states, events, i, j, AScanC(id), id), FoundClear(states, events, i, j, AScanRing(id), id),
                FoundClear(states, events, i, j, AScanHeld(id), id), FoundClear(states, events, i, j, AScanJpeg(id), id));
    } else {
      OthersLeave(states[j], events[j], states[j + 1]);
    }
  }

  /**
   A release removes its stream if and only if each of the four stages, at the moment when it was
   looked at, held no buffer of it; and it leaves every other stream registered.
   */
  lemma ReleaseExactly(size: nat, states: seq<State>, events: seq<Event>, i: nat, j: nat, id: int)
    requires ReleaseCall(size, states, events, i, j, id)
    ensures id in states[i].streams
    ensures (id !in states[j].streams) <==>
      (FoundClear(states, events, i, j, AScanC(id), id) && FoundClear(states, events, i, j, AScanRing(id), id) &&
       FoundClear(states, events, i, j, AScanHeld(id), id) && FoundClear(states, events, i, j, AScanJpeg(id), id))
    ensures states[j].streams - {id} == states[i].streams - {id}
  {
    assert StepAt(states, events, i);
    PhaseKept(size, states, events, i, j, id);
  }

  /** No stage holds a buffer of the stream, and both workers are between their steps. */
  ghost predicate Unused(s: State, id: int) {
    && s.ring.Valid() && (forall b :: RefersTo(s, b) ==> b.id != id)
    && !ConfigureInternals(s.cpc) && !ReadoutInternals(s.rpc)
  }

  /** The scan of an unused stream goes through without interruption, and changes nothing else. */
  lemma ReleaseSteps(s: State, id: int)
    requires Shape(s) && s.apc.AIdle? && id in s.streams && Unused(s, id)
    ensures Step(s, Api(ARelease(id)), s.(apc := AScanC(id)))
    ensures Step(s.(apc := AScanC(id)), Api(AStep), s.(apc := AScanRing(id)))
    ensures Step(s.(apc := AScanRing(id)), Api(AStep), s.(apc := AScanHeld(id)))
    ensures Step(s.(apc := AScanHeld(id)), Api(AStep), s.(apc := AScanJpeg(id)))
    ensures Step(s.(apc := AScanJpeg(id)), Api(AStep), s.(apc := ARemove(id)))
    ensures Step(s.(apc := ARemove(id)), Api(AStep), s.(streams := s.streams - {id}))
  {
    ScanIsHolding(s, id);
    assert !(s.cBuffers.Some? && Uses(s.cBuffers.value, id)) by {
      assert forall b :: HeldByConfigure(s, b) ==> RefersTo(s, b);
    }
  }

  /** So every run that ends with the stream unused and no call under way goes on to its removal. */
  lemma ReleaseSucceeds(size: nat, states: seq<State>, events: seq<Event>, id: int)
    returns (more: seq<State>, all: seq<Event>)
    requires Run(size, states, events)
    requires var s := states[|events|]; s.apc.AIdle? && id in s.streams && Unused(s, id)
    ensures |all| == |events| + 6 && |more| == |all| + 1 && states <= more
    ensures ReleaseCall(size, more, all, |events|, |all|, id)
    ensures more[|all|] == states[|events|].(streams := states[|events|].streams - {id})
  {
    var s := states[|events|];
    RunKeeps(size, states, events, |events|);
    ReleaseSteps(s, id);
    more, all := Extend(size, states, events, Api(ARelease(id)), s.(apc := AScanC(id)));
    more, all := CallGoesOn(size, more, all, |events|, s.(apc := AScanRing(id)));
    more, all := CallGoesOn(size, more, all, |events|, s.(apc := AScanHeld(id)));
    more, all := CallGoesOn(size, more, all, |events|, s.(apc := AScanJpeg(id)));
    more, all := CallGoesOn(size, more, all, |events|, s.(apc := ARemove(id)));
    more, all := CallGoesOn(size, more, all, |events|, s.(streams := s.streams - {id}));
  }

  /** A call that event i began is still under way. */
  ghost predicate CallSince(states: seq<State>, i: nat) { forall k :: i < k < |states| ==> !states[k].apc.AIdle? }

  lemma CallGoesOn(size: nat, states: seq<State>, events: seq<Event>, i: nat, n: State) returns (more: seq<State>, all: seq<Event>)
    requires Run(size, states, events) && i < |events| && CallSince(states, i) && Step(states[|events|], Api(AStep), n)
    ensures more == states + [n] && all == events + [Api(AStep)] && Run(size, more, all)
    ensures forall k :: i < k < |all| ==> !more[k].apc.AIdle?
    ensures !n.apc.AIdle? ==> CallSince(more, i)
  {
    more, all := Extend(size, states, events, Api(AStep), n);
  }

  lemma Extend(size: nat, states: seq<State>, events: seq<Event>, e: Event, n: State) returns (more: seq<State>, all: seq<Event>)
    requires Run(size, states, events) && Step(states[|events|], e, n)
    ensures more == states + [n] && all == events + [e] && Run(size, more, all)
  {
    RunExtends(size, states, events, e, n);
    more, all := states + [n], events + [e];
  }

  // ---------------------------------------------------------------------------------------
  // Count
  // ---------------------------------------------------------------------------------------

  /** The configure thread holds a request that it has counted. */
  function AtConfigureCounted(s: State): nat { if CountedPc(s.cpc) then 1 else 0 }

  /** The operations in the ring, and the one that readout is at work on. */
  ghost function Beyond(s: State): nat
    requires s.ring.Valid()
  {
    |s.ring.Contents()| + if s.rpc.RIdle? then 0 else 1
  }

  function Compressing(s: State): nat { if s.jobs == [] then 0 else 1 }

  /** The sum so far, and the states in which its parts were read. */
  ghost predicate SumAt(states: seq<State>, i: nat, j: nat, c: nat, r: nat, p: nat)
    requires j < |states|
  {
    match states[j].apc
    case ACountC(_) => true
    case ACountR(_, sum) => i < c < j && sum == AtConfigureCounted(states[c])
    case ACountJ(_, sum) => i < c < r < j && states[r].ring.Valid() && sum == AtConfigureCounted(states[c]) + Beyond(states[r])
    case ADone(_, sum) =>
      && i < c < r < p < j && states[r].ring.Valid()
      && sum == AtConfigureCounted(states[c]) + Beyond(states[r]) + Compressing(states[p])
    case _ => false
  }

  lemma SumStep(s: State, n: State)
    requires ApiEnabled(s, AStep) && n == ApiNext(s, AStep) && Queueing(s) && !n.apc.AIdle?
    ensures match s.apc
      case ACountC(mark) => n.apc == ACountR(mark, AtConfigureCounted(s))
      case ACountR(mark, sum) => n.apc == ACountJ(mark, sum + Beyond(s))
      case ACountJ(mark, sum) => n.apc == ADone(mark, sum + Compressing(s))
      case ADone(_, _) => false
      case _ => true
  {
  }

  /**
   A count adds up what it finds in three successive states of the run: whether the configure thread
   holds a request it has counted, how many operations are in the ring and at readout, and whether
   the compressor is busy.
   */
  lemma {:induction false} CountAddsUp(size: nat, states: seq<State>, events: seq<Event>, i: nat, j: nat)
    returns (c: nat, r: nat, p: nat)
    requires CountCall(size, states, events, i, j)
    ensures SumAt(states, i, j, c, r, p)
  {
    c, r, p := i, i, i;
    assert StepAt(states, events, j - 1);
    if j > i + 1 {
      c, r, p := CountAddsUp(size, states, events, i, j - 1);
      RunKeeps(size, states, events, j - 1);
      c, r, p := SumNext(states, events, i, j - 1, c, r, p);
    }
  }

  lemma SumNext(states: seq<State>, events: seq<Event>, i: nat, j: nat, c0: nat, r0: nat, p0: nat) returns (c: nat, r: nat, p: nat)
    requires i < j < |events| < |states| && StepAt(states, events, j) && Queueing(states[j])
    requires !states[j].apc.AIdle? && !states[j + 1].apc.AIdle? && SumAt(states, i, j, c0, r0, p0)
    ensures SumAt(states, i, j + 1, c, r, p)
  {
    c, r, p := c0, r0, p0;
    if events[j] == Api(AStep) {
      SumStep(states[j], states[j + 1]);
      match states[j].apc {
        case ACountC(_) => c := j;
        case ACountR(_, _) => r := j;
        case ACountJ(_, _) => p := j;
        case _ =>
      }
    } else {
      OthersLeave(states[j], events[j], states[j + 1]);
    }
  }

  // ---------------------------------------------------------------------------------------
  // Allocation
  // ---------------------------------------------------------------------------------------

  /** How many streams the first i events allocate. */
  function Allocations(events: seq<Event>, i: nat): nat
    requires i <= |events|
  {
    if i == 0 then 0 else Allocations(events, i - 1) + if events[i - 1] == Api(AAllocate) then 1 else 0
  }

  lemma IdsStep(s: State, e: Event, n: State)
    requires Step(s, e, n)
    ensures n.nextId == s.nextId + if e == Api(AAllocate) then 1 else 0
    ensures e == Api(AAllocate) ==> n.streams == s.streams + {s.nextId}
    ensures e != Api(AAllocate) ==> n.streams <= s.streams
  {
  }

  lemma {:induction false} IdsInOrder(size: nat, states: seq<State>, events: seq<Event>, i: nat)
    requires Run(size, states, events) && i <= |events|
    ensures states[i].nextId == Allocations(events, i) + 1
    ensures forall id :: id in states[i].streams ==> 1 <= id < states[i].nextId
  {
    if i > 0 {
      IdsInOrder(size, states, events, i - 1);
      assert StepAt(states, events, i - 1);
      IdsStep(states[i - 1], events[i - 1], states[i]);
    }
  }

  lemma {:induction false} AllocationsGrow(events: seq<Event>, k: nat, i: nat)
    requires k <= i <= |events|
    ensures Allocations(events, k) <= Allocations(events, i)
  {
    if k < i {
      AllocationsGrow(events, k, i - 1);
    }
  }

  /** The n-th stream gets the id n, which no stream has had before, not even one released since. */
  lemma AllocatedOnce(size: nat, states: seq<State>, events: seq<Event>, i: nat, k: nat)
    requires Run(size, states, events) && k <= i < |events| && events[i] == Api(AAllocate)
    ensures var id := Allocations(events, i) + 1;
      states[i + 1].streams == states[i].streams + {id} && id !in states[k].streams
  {
    IdsInOrder(size, states, events, i);
    IdsInOrder(size, states, events, k);
    AllocationsGrow(events, k, i);
    assert StepAt(states, events, i);
    IdsStep(states[i], events[i], states[i + 1]);
  }

  // ---------------------------------------------------------------------------------------
  // The compressor
  // ---------------------------------------------------------------------------------------

  /** The operation holds a compressed image of an output stream. */
  predicate HasStill(op: Op) { exists b :: b in op.bufs && b.id > 0 && b.blob }

  predicate Passes(e: Event) { e == Readout(RStart) || e == Readout(RFinish) }

  lemma ReadoutPasses(s: State, r: ReadoutEvent)
    requires ReadoutEnabled(s, r) && ReadoutShape(s)
    ensures var n := ReadoutNext(s, r);
      if r == RStart || r == RFinish then
        && s.rOp.Some? && n.rOp.None? && (r == RStart <==> HasStill(s.rOp.value))
        && n.jobs == s.jobs + (if r == RStart then [s.rOp.value] else [])
        && n.finished == s.finished + (if r == RStart then [] else [s.rOp.value])
      else n.jobs == s.jobs && n.finished == s.finished
  {
    if s.rOp.Some? {
      assert s.rBuffers == Some(s.rOp.value.bufs);
      assert NeedsJpeg(s.rBuffers.value) <==> HasStill(s.rOp.value);
    }
  }

  lemma ConfigureLeaves(s: State, c: ConfigureEvent)
    requires ConfigureEnabled(s, c)
    ensures ConfigureNext(s, c).jobs == s.jobs && ConfigureNext(s, c).finished == s.finished
  {
  }

  /** What a step does to the operations at the compressor and to those finished. */
  ghost predicate Passed(s: State, e: Event, n: State) {
    if Passes(e) then
      && s.rOp.Some? && n.rOp.None?
      && n.jobs == s.jobs + (if HasStill(s.rOp.value) then [s.rOp.value] else [])
      && n.finished == s.finished + (if HasStill(s.rOp.value) then [] else [s.rOp.value])
    else if e.JpegDone? then
      && e.i < |s.jobs| && n.finished == s.finished + [s.jobs[e.i]]
      && n.jobs == s.jobs[..e.i] + s.jobs[e.i + 1..]
    else n.jobs == s.jobs && n.finished == s.finished
  }

  lemma JobsStep(s: State, e: Event, n: State)
    requires Step(s, e, n) && ReadoutShape(s)
    ensures Passed(s, e, n)
  {
    match e {
      case Configure(c) => ConfigureLeaves(s, c);
      case Readout(r) => ReadoutPasses(s, r);
      case JpegDone(_) =>
      case Api(a) => ApiLeaves(s, a);
    }
  }

  /**
   When readout is through with an operation it goes to the compressor if it holds a compressed
   image of an output stream, and is finished otherwise; nothing else ever goes there, and it leaves
   from there as it came.
   */
  lemma PassedOn(size: nat, states: seq<State>, events: seq<Event>, i: nat)
    requires Run(size, states, events) && i < |events|
    ensures Passed(states[i], events[i], states[i + 1])
  {
    RunKeeps(size, states, events, i);
    assert StepAt(states, events, i);
    JobsStep(states[i], events[i], states[i + 1]);
  }

  /** So the compressor only ever has operations with such an image. */
  lemma {:induction false} JobsHaveStills(size: nat, states: seq<State>, events: seq<Event>, i: nat)
    requires Run(size, states, events) && i <= |events|
    ensures forall op :: op in states[i].jobs ==> HasStill(op)
  {
    if i > 0 {
      JobsHaveStills(size, states, events, i - 1);
      RunKeeps(size, states, events, i - 1);
      assert StepAt(states, events, i - 1);
      JobsStep(states[i - 1], events[i - 1], states[i]);
    }
  }

  // ---------------------------------------------------------------------------------------
  // Operations and their requests
  // ---------------------------------------------------------------------------------------

  /** The buffers are those of the first ids, in order. */
  predicate Begun(bufs: seq<Buffer>, ids: seq<int>) {
    |bufs| <= |ids| && forall k :: 0 <= k < |bufs| ==> bufs[k].id == ids[k]
  }

  /** The operation has one buffer for every stream that its request names, in that order. */
  predicate Made(op: Op) { |op.bufs| == |op.request.ids| && Begun(op.bufs, op.request.ids) }

  ghost predicate AllMade(ops: seq<Op>) { forall op :: op in ops ==> Made(op) }

  ghost predicate Making(s: State) {
    && (s.cRequest.Some? && s.cBuffers.Some? ==> Begun(s.cBuffers.value, s.cRequest.value.ids))
    && (s.cRequest.Some? && s.cBuffers.Some? && s.cPending.Some? ==>
          |s.cBuffers.value| < |s.cRequest.value.ids| && s.cPending.value.id == s.cRequest.value.ids[|s.cBuffers.value|])
    && (s.cRequest.Some? && s.cBuffers.Some? && !s.cpc.CSetup? ==> |s.cBuffers.value| == |s.cRequest.value.ids|)
  }

  ghost predicate Faithful(s: State) {
    && AllMade(s.accepted) && AllMade(s.dropped) && AllMade(s.jobs) && AllMade(s.finished)
    && (s.rOp.Some? ==> Made(s.rOp.value)) && Making(s)
  }

  lemma MakingStep(s: State, c: ConfigureEvent)
    requires ConfigureShape(s) && Making(s) && ConfigureEnabled(s, c)
    ensures Making(ConfigureNext(s, c))
    ensures c.CQueue? ==> Made(Op(s.cRequest.value, s.cBuffers.value))
  {
  }

  lemma ConfigureHistory(s: State, c: ConfigureEvent)
    requires ConfigureEnabled(s, c)
    ensures var n := ConfigureNext(s, c);
      && n.jobs == s.jobs && n.finished == s.finished && n.rOp == s.rOp
      && (!c.CQueue? ==> n.accepted == s.accepted && n.dropped == s.dropped)
      && (c.CQueue? ==> var op := Op(s.cRequest.value, s.cBuffers.value);
            && (n.accepted == s.accepted || n.accepted == s.accepted + [op])
            && (n.dropped == s.dropped || n.dropped == s.dropped + [op]))
  {
  }

  lemma ReadoutHistory(s: State, r: ReadoutEvent)
    requires Queueing(s) && ReadoutEnabled(s, r)
    ensures var n := ReadoutNext(s, r);
      && n.accepted == s.accepted && n.dropped == s.dropped
      && n.cpc == s.cpc && n.cRequest == s.cRequest && n.cBuffers == s.cBuffers && n.cPending == s.cPending
      && (n.rOp.Some? && n.rOp != s.rOp ==> n.rOp.value in s.accepted)
  {
    RingReadout(s, r);
    if r.RTake? {
      assert s.ring.Contents()[0] in s.accepted;
    }
  }

  lemma FaithfulStep(s: State, e: Event, n: State)
    requires Queueing(s) && Faithful(s) && Step(s, e, n)
    ensures Faithful(n)
  {
    match e {
      case Configure(c) => MakingStep(s, c); ConfigureHistory(s, c);
      case Readout(r) => ReadoutHistory(s, r); ReadoutPasses(s, r);
      case JpegDone(_) =>
      case Api(a) => ApiLeaves(s, a);
    }
  }

  /**
   Every operation that is ever accepted or dropped, held by readout, compressed or finished has
   exactly one buffer for each stream of its request, in the order in which the request names them.
   */
  lemma {:induction false} OperationsFaithful(size: nat, states: seq<State>, events: seq<Event>, i: nat)
    requires Run(size, states, events) && i <= |events|
    ensures Faithful(states[i])
  {
    if i > 0 {
      OperationsFaithful(size, states, events, i - 1);
      RunKeeps(size, states, events, i - 1);
      assert StepAt(states, events, i - 1);
      FaithfulStep(states[i - 1], events[i - 1], states[i]);
    }
  }

  /** Readout returns to the client the request of the operation it took, once, before any of its buffers. */
  lemma RequestReturned(size: nat, states: seq<State>, events: seq<Event>, i: nat)
    requires Run(size, states, events) && i < |events|
    ensures var s, n := states[i], states[i + 1];
      && (events[i] == Readout(RFree) ==> s.rOp.Some? && s.rRequest == Some(s.rOp.value.request) && n.rRequest == None)
      && (events[i] == Readout(RTake) ==> n.rOp.Some? && n.rRequest == Some(n.rOp.value.request))
      && (events[i] == Readout(RReturn) || Passes(events[i]) ==> s.rRequest == None)
      && (events[i] != Readout(RFree) && events[i] != Readout(RTake) ==> n.rRequest == s.rRequest)
  {
    RunKeeps(size, states, events, i);
    RunKeeps(size, states, events, i + 1);
    assert StepAt(states, events, i);
    RequestStep(states[i], events[i], states[i + 1]);
  }

  lemma RequestStep(s: State, e: Event, n: State)
    requires Step(s, e, n) && ReadoutShape(s) && ReadoutShape(n)
    ensures e == Readout(RFree) ==> s.rRequest.Some? && n.rRequest == None
    ensures e == Readout(RTake) ==> n.rRequest.Some?
    ensures e == Readout(RReturn) || Passes(e) ==> s.rRequest == None
    ensures e != Readout(RFree) && e != Readout(RTake) ==> n.rRequest == s.rRequest
  {
    match e {
      case Configure(c) => ConfigureKeepsRequest(s, c);
      case Readout(r) => ReadoutRequest(s, r);
      case JpegDone(_) =>
      case Api(a) => ApiLeaves(s, a);
    }
  }

  lemma ConfigureKeepsRequest(s: State, c: ConfigureEvent)
    requires ConfigureEnabled(s, c)
    ensures ConfigureNext(s, c).rRequest == s.rRequest
  {
  }

  lemma ReadoutRequest(s: State, r: ReadoutEvent)
    requires ReadoutEnabled(s, r) && ReadoutShape(s)
    ensures var n := ReadoutNext(s, r);
      && (r == RFree ==> s.rRequest.Some? && n.rRequest == None)
      && (r == RTake ==> n.rRequest.Some?)
      && (r == RReturn || r == RStart || r == RFinish ==> s.rRequest == None)
      && (r != RFree && r != RTake ==> n.rRequest == s.rRequest)
  {
  }

  /** A request that needs the compressor gets past the wait for it only while it is idle. */
  lemma WaitsForCompressor(size: nat, states: seq<State>, events: seq<Event>, i: nat)
    requires Run(size, states, events) && i < |events| && events[i] == Configure(CJpegDone)
    ensures var s := states[i];
      && s.cRequest.Some? && s.cBuffers.Some?
      && (!s.cRequest.value.capture || HasStill(Op(s.cRequest.value, s.cBuffers.value)) ==> s.jobs == [])
  {
    assert StepAt(states, events, i);
    var s := states[i];
    assert NeedsJpeg(s.cBuffers.value) <==> HasStill(Op(s.cRequest.value, s.cBuffers.value));
  }
}
