/**
 The request pipeline of the emulated camera: the configure thread hands requests over the
 in-flight ring to the readout thread, and that hands still images to the JPEG compressor, while
 API calls scan the stages. A step is a critical section, or a part of one between two lock
 operations. Who holds a lock is read off the program counters:

 - the parent's mutex: the API call, whenever one is under way (the two workers take it only for
   the length of one stream lookup, which is a single step);
 - the internals mutex of the configure thread: that thread, see `ConfigureInternals`;
 - the internals mutex of the readout thread: that thread, see `ReadoutInternals`;
 - the input mutex of the readout thread: the API call between the two halves of its scan of
   that stage, see `ReadoutInput`.

 Every other acquisition begins and ends within one step, which is enabled when the lock is free.
 */
module CameraPipeline {
  import opened Basics
  import opened InFlightRing

  /** A buffer of an output stream (positive id) or of an input stream (negated id). */
  datatype Buffer = Buffer(id: int, blob: bool)

  /** A request as the client queued it; `serial` is its place in the queue. */
  datatype Request = Request(serial: nat, capture: bool, ids: seq<int>)

  datatype Op = Op(request: Request, bufs: seq<Buffer>)

  datatype ConfigurePc =
    | CIdle
    | CDequeue        // internals held, about to ask the client for a request
    | CDequeued       // internals held, request not counted yet
    | CSetup          // internals held, building the buffer list
    | CWaitReady
    | CWaitJpeg
    | CVsync
    | CGet(i: nat)    // internals held, fetching buffer i, or about to queue if there is none left
    | CQueued         // internals held, queued for readout but still referenced
    | CCleared        // internals held, still counted
    | CExit           // internals held, about to release

  datatype ReadoutPc =
    | RIdle
    | RWait           // request held, waiting for the sensor
    | RBusy           // internals held
    | RSend(i: nat)   // internals held, returning buffer i, or about to pass the list on
    | RStarted        // internals held, compressor started, list still referenced
    | RCount          // internals held, still counted

  /** The API call under way, which holds the parent's mutex. */
  datatype ApiPc =
    | AIdle
    | AScanC(id: int)
    | AScanRing(id: int)
    | AScanHeld(id: int)   // input mutex of the readout thread held
    | AScanJpeg(id: int)
    | ARemove(id: int)
    | ACountC(mark: nat)   // mark is the number of requests that had been counted at the call
    | ACountR(mark: nat, sum: int)
    | ACountJ(mark: nat, sum: int)
    | ADone(mark: nat, sum: int)

  datatype State = State(
    streams: set<int>, nextId: int,
    cpc: ConfigurePc, cRequest: Option<Request>, cBuffers: Option<seq<Buffer>>, cPending: Option<Buffer>, cCount: int,
    ring: Ring<Op>,
    rpc: ReadoutPc, rRequest: Option<Request>, rBuffers: Option<seq<Buffer>>, rCount: int, rActive: bool,
    jobs: seq<Op>,
    apc: ApiPc,
    // History, which no step reads:
    dequeued: nat, counted: nat, accepted: seq<Op>, taken: seq<Op>, rOp: Option<Op>, finished: seq<Op>, dropped: seq<Op>)

  predicate ConfigureInternals(pc: ConfigurePc) {
    !(pc.CIdle? || pc.CWaitReady? || pc.CWaitJpeg? || pc.CVsync?)
  }

  predicate ReadoutInternals(pc: ReadoutPc) { !(pc.RIdle? || pc.RWait?) }

  /** The input mutex of the readout thread is free. */
  predicate ReadoutInput(pc: ApiPc) { !pc.AScanHeld? }

  /** The parent's mutex is free. */
  predicate ParentMutex(pc: ApiPc) { pc.AIdle? }

  predicate Uses(bufs: seq<Buffer>, id: int) {
    exists b :: b in bufs && b.id == id
  }

  predicate UsesAny(ops: seq<Op>, id: int) {
    exists op :: op in ops && Uses(op.bufs, id)
  }

  predicate NeedsJpeg(bufs: seq<Buffer>) {
    exists b :: b in bufs && b.id > 0 && b.blob
  }

  function Initial(size: nat): State
    requires size >= 2
  {
    State({}, 1, CIdle, None, None, None, 0, NewRing(size), RIdle, None, None, 0, false, [], AIdle,
          0, 0, [], [], None, [], [])
  }

  // ---------------------------------------------------------------------------------------
  // Steps
  // ---------------------------------------------------------------------------------------

  datatype ConfigureEvent =
    | CEnter | CDequeueNone | CDequeueOne(capture: bool, ids: seq<int>) | CCount
    | CLookup(blob: bool) | CPush | CLeaveSetup
    | CReady | CSkipReady | CJpegDone | CVsyncDone | CGetBuffer | CQueue | CClear | CUncount | CLeave

  datatype ReadoutEvent =
    | RSleep | RTake | RFrame | RFree | RReturn | RStart | RForget | RFinish | RUncount

  datatype ApiEvent =
    | ARelease(id: int) | ACount | AAllocate | AStep

  datatype Event =
    | Configure(c: ConfigureEvent)
    | Readout(r: ReadoutEvent)
    | JpegDone(i: nat)
    | Api(a: ApiEvent)

  /** The id of the next buffer to set up. */
  function NextId(s: State): int
    requires s.cRequest.Some? && s.cBuffers.Some? && |s.cBuffers.value| < |s.cRequest.value.ids|
  {
    s.cRequest.value.ids[|s.cBuffers.value|]
  }

  ghost predicate ConfigureEnabled(s: State, c: ConfigureEvent) {
    match c
    case CEnter => s.cpc.CIdle?
    case CDequeueNone => s.cpc.CDequeue?
    case CDequeueOne(_, _) => s.cpc.CDequeue?
    case CCount => s.cpc.CDequeued?
    case CLookup(_) => s.cpc.CSetup? && s.cPending.None? && ParentMutex(s.apc)
      && s.cRequest.Some? && s.cBuffers.Some? && |s.cBuffers.value| < |s.cRequest.value.ids|
      && (NextId(s) > 0 ==> NextId(s) in s.streams)
    case CPush => s.cpc.CSetup? && s.cPending.Some? && s.cBuffers.Some?
    case CLeaveSetup => s.cpc.CSetup? && s.cPending.None?
      && s.cRequest.Some? && s.cBuffers.Some? && |s.cBuffers.value| == |s.cRequest.value.ids|
    case CReady => s.cpc.CWaitReady? && ReadoutInput(s.apc) && s.ring.Valid() && s.ring.Ready()
    case CSkipReady => s.cpc.CWaitReady? && s.cRequest.Some? && !s.cRequest.value.capture
    case CJpegDone => s.cpc.CWaitJpeg? && s.cRequest.Some? && s.cBuffers.Some?
      && (s.jobs == [] || (s.cRequest.value.capture && !NeedsJpeg(s.cBuffers.value)))
    case CVsyncDone => s.cpc.CVsync?
    case CGetBuffer => s.cpc.CGet? && s.cBuffers.Some? && s.cpc.i < |s.cBuffers.value| && ParentMutex(s.apc)
    case CQueue => s.cpc.CGet? && s.cBuffers.Some? && s.cpc.i == |s.cBuffers.value|
      && s.cRequest.Some? && s.ring.Valid() && ReadoutInput(s.apc)
    case CClear => s.cpc.CQueued?
    case CUncount => s.cpc.CCleared?
    case CLeave => s.cpc.CExit?
  }

  ghost predicate ReadoutEnabled(s: State, r: ReadoutEvent) {
    match r
    case RSleep => s.rpc.RIdle? && ReadoutInput(s.apc) && s.ring.head == s.ring.tail
    case RTake => s.rpc.RIdle? && ReadoutInput(s.apc) && s.rActive && s.ring.Valid() && s.ring.head != s.ring.tail
      && s.ring.slots[s.ring.head].Full?
    case RFrame => s.rpc.RWait?
    case RFree => s.rpc.RBusy?
    case RReturn => s.rpc.RSend? && s.rBuffers.Some? && s.rpc.i < |s.rBuffers.value|
      && (s.rBuffers.value[s.rpc.i].id > 0 && !s.rBuffers.value[s.rpc.i].blob ==> ParentMutex(s.apc))
    case RStart => s.rpc.RSend? && s.rBuffers.Some? && s.rpc.i == |s.rBuffers.value|
      && NeedsJpeg(s.rBuffers.value) && s.rOp.Some?
    case RForget => s.rpc.RStarted?
    case RFinish => s.rpc.RSend? && s.rBuffers.Some? && s.rpc.i == |s.rBuffers.value|
      && !NeedsJpeg(s.rBuffers.value) && s.rOp.Some?
    case RUncount => s.rpc.RCount? && ReadoutInput(s.apc)
  }

  ghost predicate ApiEnabled(s: State, a: ApiEvent) {
    match a
    case ARelease(id) => s.apc.AIdle? && id in s.streams
    case ACount => s.apc.AIdle?
    case AAllocate => s.apc.AIdle?
    case AStep =>
      match s.apc
      case AIdle => false
      case AScanC(_) => !ConfigureInternals(s.cpc)
      case AScanRing(_) => s.ring.Valid()
      case AScanHeld(_) => !ReadoutInternals(s.rpc)
      case _ => true
  }

  ghost function ConfigureNext(s: State, c: ConfigureEvent): State
    requires ConfigureEnabled(s, c)
  {
    match c
    case CEnter => s.(cpc := CDequeue)
    case CDequeueNone => s.(cpc := CIdle)
    case CDequeueOne(capture, ids) =>
      s.(cpc := CDequeued, cRequest := Some(Request(s.dequeued, capture, ids)), dequeued := s.dequeued + 1)
    case CCount => s.(cpc := CSetup, cCount := s.cCount + 1, counted := s.counted + 1, cBuffers := Some([]))
    case CLookup(blob) => s.(cPending := Some(Buffer(NextId(s), blob)))
    case CPush => s.(cBuffers := Some(s.cBuffers.value + [s.cPending.value]), cPending := None)
    case CLeaveSetup => s.(cpc := CWaitReady)
    case CReady => s.(cpc := CWaitJpeg)
    case CSkipReady => s.(cpc := CWaitJpeg)
    case CJpegDone => s.(cpc := CVsync)
    case CVsyncDone => s.(cpc := CGet(0))
    case CGetBuffer => s.(cpc := CGet(s.cpc.i + 1))
    case CQueue =>
      var op := Op(s.cRequest.value, s.cBuffers.value);
      if s.ring.Ready() then
        s.(cpc := CQueued, ring := s.ring.Push(op), rCount := s.rCount + 1, rActive := true,
           accepted := s.accepted + [op])
      else
        s.(cpc := CQueued, dropped := s.dropped + [op])
    case CClear => s.(cpc := CCleared, cRequest := None, cBuffers := None)
    case CUncount => s.(cpc := CExit, cCount := s.cCount - 1)
    case CLeave => s.(cpc := CIdle)
  }

  ghost function ReadoutNext(s: State, r: ReadoutEvent): State
    requires ReadoutEnabled(s, r)
  {
    match r
    case RSleep => s.(rActive := false)
    case RTake =>
      var op := s.ring.slots[s.ring.head].op;
      s.(rpc := RWait, rRequest := Some(op.request), rBuffers := Some(op.bufs), ring := s.ring.Pop(),
         taken := s.taken + [op], rOp := Some(op))
    case RFrame => s.(rpc := RBusy)
    case RFree => s.(rpc := RSend(0), rRequest := None)
    case RReturn => s.(rpc := RSend(s.rpc.i + 1))
    case RStart => s.(rpc := RStarted, jobs := s.jobs + [Op(s.rOp.value.request, s.rBuffers.value)], rOp := None)
    case RForget => s.(rpc := RCount, rBuffers := None)
    case RFinish => s.(rpc := RCount, rBuffers := None, rOp := None, finished := s.finished + [s.rOp.value])
    case RUncount => s.(rpc := RIdle, rCount := s.rCount - 1)
  }

  ghost function ApiNext(s: State, a: ApiEvent): State
    requires ApiEnabled(s, a)
  {
    match a
    case ARelease(id) => s.(apc := AScanC(id))
    case ACount => s.(apc := ACountC(s.counted))
    case AAllocate => s.(streams := s.streams + {s.nextId}, nextId := s.nextId + 1)
    case AStep => s.(apc := ScanNext(s), streams := if s.apc.ARemove? then s.streams - {s.apc.id} else s.streams)
  }

  /** What the API call does next: a scan ends the call as soon as it finds the stream in use. */
  ghost function ScanNext(s: State): ApiPc
    requires ApiEnabled(s, AStep)
  {
    match s.apc
    case AScanC(id) => if s.cBuffers.Some? && Uses(s.cBuffers.value, id) then AIdle else AScanRing(id)
    case AScanRing(id) => if UsesAny(s.ring.Contents(), id) then AIdle else AScanHeld(id)
    case AScanHeld(id) => if s.rBuffers.Some? && Uses(s.rBuffers.value, id) then AIdle else AScanJpeg(id)
    case AScanJpeg(id) => if UsesAny(s.jobs, id) then AIdle else ARemove(id)
    case ARemove(_) => AIdle
    case ACountC(mark) => ACountR(mark, s.cCount)
    case ACountR(mark, sum) => ACountJ(mark, sum + s.rCount)
    case ACountJ(mark, sum) => ADone(mark, sum + if s.jobs != [] then 1 else 0)
    case ADone(_, _) => AIdle
  }

  ghost function JpegNext(s: State, i: nat): State
    requires i < |s.jobs|
  {
    s.(jobs := s.jobs[..i] + s.jobs[i + 1..], finished := s.finished + [s.jobs[i]])
  }

  /** Event e is possible in s and leads to n. */
  ghost predicate Step(s: State, e: Event, n: State) {
    match e
    case Configure(c) => ConfigureEnabled(s, c) && n == ConfigureNext(s, c)
    case Readout(r) => ReadoutEnabled(s, r) && n == ReadoutNext(s, r)
    case JpegDone(i) => i < |s.jobs| && n == JpegNext(s, i)
    case Api(a) => ApiEnabled(s, a) && n == ApiNext(s, a)
  }

  ghost predicate StepAt(states: seq<State>, events: seq<Event>, i: nat)
    requires i < |events| < |states|
  {
    Step(states[i], events[i], states[i + 1])
  }

  /** A run from the initial state: event i leads from state i to state i + 1. */
  ghost predicate Run(size: nat, states: seq<State>, events: seq<Event>) {
    && size >= 2 && |states| == |events| + 1 && states[0] == Initial(size)
    && forall i :: 0 <= i < |events| ==> StepAt(states, events, i)
  }

  // ---------------------------------------------------------------------------------------
  // Shape of a state
  // ---------------------------------------------------------------------------------------

  /** Which fields are set at which point of the configure thread. */
  ghost predicate ConfigureShape(s: State) {
    && (s.cRequest.Some? <==> !(s.cpc.CIdle? || s.cpc.CDequeue? || s.cpc.CCleared? || s.cpc.CExit?))
    && (s.cBuffers.Some? <==> s.cRequest.Some? && !s.cpc.CDequeued?)
    && (s.cPending.Some? ==> s.cpc.CSetup?)
    && (s.cpc.CSetup? ==> |s.cBuffers.value| + (if s.cPending.Some? then 1 else 0) <= |s.cRequest.value.ids|)
    && (s.cpc.CGet? ==> s.cpc.i <= |s.cBuffers.value|)
    && (s.cRequest.Some? ==> s.cRequest.value.serial + 1 == s.dequeued)
    && s.counted == (if s.cpc.CDequeued? then s.dequeued - 1 else s.dequeued)
  }

  /** Which fields are set at which point of the readout thread. */
  ghost predicate ReadoutShape(s: State) {
    && (s.rBuffers.Some? <==> !(s.rpc.RIdle? || s.rpc.RCount?))
    && (s.rOp.Some? <==> s.rpc.RWait? || s.rpc.RBusy? || s.rpc.RSend?)
    && (s.rOp.Some? ==> s.rBuffers == Some(s.rOp.value.bufs))
    && (s.rpc.RSend? ==> s.rpc.i <= |s.rBuffers.value|)
    && s.rRequest == (if (s.rpc.RWait? || s.rpc.RBusy?) && s.rOp.Some? then Some(s.rOp.value.request) else None)
  }

  ghost predicate Shape(s: State) { s.ring.Valid() && ConfigureShape(s) && ReadoutShape(s) }

  /** A step of the configure thread only ever appends to the waiting operations. */
  lemma RingConfigure(s: State, c: ConfigureEvent)
    requires s.ring.Valid() && ConfigureEnabled(s, c)
    ensures var n := ConfigureNext(s, c);
      && n.ring.Valid()
      && (c.CQueue? && s.ring.Ready()
          ==> n.ring.Contents() == s.ring.Contents() + [Op(s.cRequest.value, s.cBuffers.value)])
      && (!(c.CQueue? && s.ring.Ready()) ==> n.ring == s.ring)
  {
    if c.CQueue? && s.ring.Ready() {
      s.ring.PushAppends(Op(s.cRequest.value, s.cBuffers.value));
    }
  }

  /** A step of the readout thread only ever takes the oldest of them, which makes room. */
  lemma RingReadout(s: State, r: ReadoutEvent)
    requires s.ring.Valid() && ReadoutEnabled(s, r)
    ensures var n := ReadoutNext(s, r);
      && n.ring.Valid() && (s.ring.Ready() ==> n.ring.Ready())
      && (r.RTake? ==> s.ring.Contents() != [] && s.ring.slots[s.ring.head].op == s.ring.Contents()[0])
      && (r.RTake? ==> n.ring.Contents() == s.ring.Contents()[1..])
      && (!r.RTake? ==> n.ring == s.ring)
  {
    if r.RTake? {
      s.ring.PopTakesOldest();
      s.ring.ReadyMeansRoom();
      s.ring.Pop().ReadyMeansRoom();
    }
  }

  lemma ConfigureShapeKept(s: State, c: ConfigureEvent)
    requires ConfigureShape(s) && ConfigureEnabled(s, c)
    ensures ConfigureShape(ConfigureNext(s, c))
  {
  }

  lemma ReadoutShapeKept(s: State, r: ReadoutEvent)
    requires ReadoutShape(s) && s.ring.Valid() && ReadoutEnabled(s, r)
    ensures ReadoutShape(ReadoutNext(s, r))
  {
  }

  // ---------------------------------------------------------------------------------------
  // The ring in the whole run
  // ---------------------------------------------------------------------------------------

  /** The configure thread counts its request from the counting step to the uncounting step. */
  predicate CountedPc(pc: ConfigurePc) {
    !(pc.CIdle? || pc.CDequeue? || pc.CDequeued? || pc.CExit?)
  }

  /** The request has passed the wait for a free slot in the ring, and is not queued yet. */
  predicate PastReady(pc: ConfigurePc) { pc.CWaitJpeg? || pc.CVsync? || pc.CGet? }

  /** Readout takes the accepted operations in order and sleeps only when there is none. */
  ghost predicate Fifo(s: State)
    requires s.ring.Valid()
  {
    && s.accepted == s.taken + s.ring.Contents()
    && (!s.rActive ==> s.ring.Contents() == [] && s.rpc.RIdle?)
  }

  ghost predicate Counts(s: State)
    requires s.ring.Valid()
  {
    && s.cCount == (if CountedPc(s.cpc) then 1 else 0)
    && s.rCount == |s.ring.Contents()| + (if s.rpc.RIdle? then 0 else 1)
  }

  /** A capture that has found the ring ready still finds it ready when it is queued. */
  ghost predicate ReadyStays(s: State)
    requires s.ring.Valid()
  {
    && (PastReady(s.cpc) && s.cRequest.Some? && s.cRequest.value.capture ==> s.ring.Ready())
    && (forall op :: op in s.dropped ==> !op.request.capture)
  }

  ghost predicate Queueing(s: State) {
    Shape(s) && Fifo(s) && Counts(s) && ReadyStays(s)
  }

  lemma QueueingConfigure(s: State, c: ConfigureEvent)
    requires Queueing(s) && ConfigureEnabled(s, c)
    ensures Queueing(ConfigureNext(s, c))
  {
    RingConfigure(s, c);
    ConfigureShapeKept(s, c);
  }

  lemma QueueingReadout(s: State, r: ReadoutEvent)
    requires Queueing(s) && ReadoutEnabled(s, r)
    ensures Queueing(ReadoutNext(s, r))
  {
    RingReadout(s, r);
    ReadoutShapeKept(s, r);
    if r.RTake? {
      var w := s.ring.Contents();
      assert s.taken + w == (s.taken + [w[0]]) + w[1..];
    }
  }

  // ---------------------------------------------------------------------------------------
  // Safe release
  // ---------------------------------------------------------------------------------------

  ghost predicate InConfigure(s: State, id: int) {
    (s.cBuffers.Some? && Uses(s.cBuffers.value, id)) || (s.cPending.Some? && s.cPending.value.id == id)
  }

  ghost predicate InRing(s: State, id: int)
    requires s.ring.Valid()
  {
    UsesAny(s.ring.Contents(), id)
  }

  ghost predicate InReadout(s: State, id: int) { s.rBuffers.Some? && Uses(s.rBuffers.value, id) }

  ghost predicate InJpeg(s: State, id: int) { UsesAny(s.jobs, id) }

  /** What a release has established about the stages it has scanned, at each point of its scan. */
  ghost predicate Scanned(s: State)
    requires s.ring.Valid()
  {
    match s.apc
    case AScanRing(id) => !InConfigure(s, id)
    case AScanHeld(id) => !InConfigure(s, id) && !InRing(s, id)
    case AScanJpeg(id) => !InConfigure(s, id) && !InRing(s, id) && !InReadout(s, id)
    case ARemove(id) => !InConfigure(s, id) && !InRing(s, id) && !InReadout(s, id) && !InJpeg(s, id)
    case _ => true
  }

  lemma ScannedConfigure(s: State, c: ConfigureEvent)
    requires Shape(s) && Scanned(s) && ConfigureEnabled(s, c)
    ensures ConfigureNext(s, c).ring.Valid() && Scanned(ConfigureNext(s, c))
  {
    RingConfigure(s, c);
  }

  lemma ScannedReadout(s: State, r: ReadoutEvent)
    requires Shape(s) && Scanned(s) && ReadoutEnabled(s, r)
    ensures ReadoutNext(s, r).ring.Valid() && Scanned(ReadoutNext(s, r))
  {
    RingReadout(s, r);
  }

  lemma ScannedJpeg(s: State, i: nat)
    requires s.ring.Valid() && Scanned(s) && i < |s.jobs|
    ensures Scanned(JpegNext(s, i))
  {
  }

  lemma ScannedApi(s: State, a: ApiEvent)
    requires Shape(s) && Scanned(s) && ApiEnabled(s, a)
    ensures Scanned(ApiNext(s, a))
  {
  }

  /** Every output stream that a stage refers to is registered. */
  ghost predicate Registered(s: State)
    requires s.ring.Valid()
  {
    forall id :: id > 0 && (InConfigure(s, id) || InRing(s, id) || InReadout(s, id) || InJpeg(s, id)) ==> id in s.streams
  }

  lemma RegisteredConfigure(s: State, c: ConfigureEvent)
    requires Shape(s) && Registered(s) && ConfigureEnabled(s, c)
    ensures ConfigureNext(s, c).ring.Valid() && Registered(ConfigureNext(s, c))
  {
    RingConfigure(s, c);
  }

  lemma RegisteredReadout(s: State, r: ReadoutEvent)
    requires Shape(s) && Registered(s) && ReadoutEnabled(s, r)
    ensures ReadoutNext(s, r).ring.Valid() && Registered(ReadoutNext(s, r))
  {
    RingReadout(s, r);
  }

  lemma RegisteredJpeg(s: State, i: nat)
    requires s.ring.Valid() && Registered(s) && i < |s.jobs|
    ensures Registered(JpegNext(s, i))
  {
  }

  lemma RegisteredApi(s: State, a: ApiEvent)
    requires s.ring.Valid() && Scanned(s) && Registered(s) && ApiEnabled(s, a)
    ensures Registered(ApiNext(s, a))
  {
  }

  // ---------------------------------------------------------------------------------------
  // Conservation of requests
  // ---------------------------------------------------------------------------------------

  /** 1 if the request has serial q, otherwise 0. */
  function Is(r: Request, q: nat): nat { if r.serial == q then 1 else 0 }

  /** How many of the operations carry the request with serial q. */
  function Count(ops: seq<Op>, q: nat): nat {
    if ops == [] then 0 else Is(ops[0].request, q) + Count(ops[1..], q)
  }

  lemma {:induction false} CountConcat(x: seq<Op>, y: seq<Op>, q: nat)
    ensures Count(x + y, q) == Count(x, q) + Count(y, q)
  {
    if x == [] {
      assert x + y == y;
    } else {
      assert (x + y)[1..] == x[1..] + y;
      CountConcat(x[1..], y, q);
    }
  }

  lemma CountAppend(ops: seq<Op>, op: Op, q: nat)
    ensures Count(ops + [op], q) == Count(ops, q) + Is(op.request, q)
  {
    assert [op][1..] == [];
    CountConcat(ops, [op], q);
  }

  lemma CountRemove(ops: seq<Op>, i: nat, q: nat)
    requires i < |ops|
    ensures Count(ops, q) == Count(ops[..i] + ops[i + 1..], q) + Is(ops[i].request, q)
  {
    assert ops == ops[..i] + ops[i..];
    assert ops[i..][1..] == ops[i + 1..];
    CountConcat(ops[..i], ops[i..], q);
    CountConcat(ops[..i], ops[i + 1..], q);
  }

  /** The request that the configure thread holds and has not queued yet. */
  ghost function AtConfigure(s: State, q: nat): nat {
    if s.cRequest.Some? && !s.cpc.CQueued? then Is(s.cRequest.value, q) else 0
  }

  ghost function AtRing(s: State, q: nat): nat
    requires s.ring.Valid()
  {
    Count(s.ring.Contents(), q)
  }

  ghost function AtReadout(s: State, q: nat): nat {
    if s.rOp.Some? then Is(s.rOp.value.request, q) else 0
  }

  ghost function AtJpeg(s: State, q: nat): nat { Count(s.jobs, q) }

  ghost function Over(s: State, q: nat): nat { Count(s.finished, q) + Count(s.dropped, q) }

  /** In how many places the request with serial q is: the stages, the finished, the dropped. */
  ghost function Places(s: State, q: nat): nat
    requires s.ring.Valid()
  {
    AtConfigure(s, q) + AtRing(s, q) + AtReadout(s, q) + AtJpeg(s, q) + Over(s, q)
  }

  /** Every dequeued request is in exactly one place, and no other request is anywhere. */
  ghost predicate Conserved(s: State)
    requires s.ring.Valid()
  {
    forall q: nat :: Places(s, q) == if q < s.dequeued then 1 else 0
  }

  lemma PlacesConfigure(s: State, c: ConfigureEvent, q: nat)
    requires Shape(s) && ConfigureEnabled(s, c)
    ensures ConfigureNext(s, c).ring.Valid()
    ensures Places(ConfigureNext(s, c), q)
         == Places(s, q) + if c.CDequeueOne? && q == s.dequeued then 1 else 0
  {
    RingConfigure(s, c);
    if c.CQueue? {
      var op := Op(s.cRequest.value, s.cBuffers.value);
      CountAppend(s.ring.Contents(), op, q);
      CountAppend(s.dropped, op, q);
    }
  }

  lemma PlacesReadout(s: State, r: ReadoutEvent, q: nat)
    requires Shape(s) && ReadoutEnabled(s, r)
    ensures ReadoutNext(s, r).ring.Valid()
    ensures Places(ReadoutNext(s, r), q) == Places(s, q)
  {
    RingReadout(s, r);
    if r.RStart? {
      CountAppend(s.jobs, Op(s.rOp.value.request, s.rBuffers.value), q);
    } else if r.RFinish? {
      CountAppend(s.finished, s.rOp.value, q);
    }
  }

  lemma PlacesJpeg(s: State, i: nat, q: nat)
    requires s.ring.Valid() && i < |s.jobs|
    ensures Places(JpegNext(s, i), q) == Places(s, q)
  {
    CountRemove(s.jobs, i, q);
    CountAppend(s.finished, s.jobs[i], q);
  }

  // ---------------------------------------------------------------------------------------
  // The count of requests in progress
  // ---------------------------------------------------------------------------------------

  /** What a count has established about request q, counted before the call, while it adds up to zero. */
  ghost predicate Cleared(s: State, q: nat)
    requires s.ring.Valid()
  {
    match s.apc
    case ACountR(mark, 0) => q < mark ==> AtConfigure(s, q) == 0
    case ACountJ(mark, 0) => q < mark ==> AtConfigure(s, q) + AtRing(s, q) + AtReadout(s, q) == 0
    case ADone(mark, 0) => q < mark ==> AtConfigure(s, q) + AtRing(s, q) + AtReadout(s, q) + AtJpeg(s, q) == 0
    case _ => true
  }

  /** The sum so far is not negative, and the mark is not ahead of the requests counted. */
  ghost predicate Sums(s: State) {
    match s.apc
    case ACountC(mark) => mark <= s.counted
    case ACountR(mark, sum) => mark <= s.counted && sum >= 0
    case ACountJ(mark, sum) => mark <= s.counted && sum >= 0
    case ADone(mark, sum) => mark <= s.counted && sum >= 0
    case _ => true
  }

  ghost predicate Counting(s: State)
    requires s.ring.Valid()
  {
    Sums(s) && forall q :: Cleared(s, q)
  }

  lemma ClearedConfigure(s: State, c: ConfigureEvent, q: nat)
    requires Shape(s) && Sums(s) && Cleared(s, q) && ConfigureEnabled(s, c)
    ensures ConfigureNext(s, c).ring.Valid() && Cleared(ConfigureNext(s, c), q)
  {
    RingConfigure(s, c);
    if c.CQueue? {
      CountAppend(s.ring.Contents(), Op(s.cRequest.value, s.cBuffers.value), q);
    }
  }

  lemma ClearedReadout(s: State, r: ReadoutEvent, q: nat)
    requires Shape(s) && Cleared(s, q) && ReadoutEnabled(s, r)
    ensures ReadoutNext(s, r).ring.Valid() && Cleared(ReadoutNext(s, r), q)
  {
    RingReadout(s, r);
    if r.RStart? {
      CountAppend(s.jobs, Op(s.rOp.value.request, s.rBuffers.value), q);
    }
  }

  lemma ClearedJpeg(s: State, i: nat, q: nat)
    requires s.ring.Valid() && Cleared(s, q) && i < |s.jobs|
    ensures Cleared(JpegNext(s, i), q)
  {
    CountRemove(s.jobs, i, q);
  }

  lemma ClearedApi(s: State, a: ApiEvent, q: nat)
    requires Queueing(s) && Sums(s) && Cleared(s, q) && ApiEnabled(s, a)
    ensures Cleared(ApiNext(s, a), q)
  {
  }

  // ---------------------------------------------------------------------------------------
  // Every reachable state
  // ---------------------------------------------------------------------------------------

  ghost predicate Invariant(s: State) {
    Queueing(s) && Scanned(s) && Registered(s) && Conserved(s) && Counting(s)
  }

  lemma ConservedConfigure(s: State, c: ConfigureEvent)
    requires Shape(s) && Conserved(s) && ConfigureEnabled(s, c)
    ensures ConfigureNext(s, c).ring.Valid() && Conserved(ConfigureNext(s, c))
  {
    var n := ConfigureNext(s, c);
    RingConfigure(s, c);
    DequeuedConfigure(s, c);
    forall q: nat ensures Places(n, q) == if q < n.dequeued then 1 else 0 { PlacesConfigure(s, c, q); }
  }

  lemma DequeuedConfigure(s: State, c: ConfigureEvent)
    requires ConfigureEnabled(s, c)
    ensures ConfigureNext(s, c).dequeued == s.dequeued + if c.CDequeueOne? then 1 else 0
  {
  }

  lemma ConservedReadout(s: State, r: ReadoutEvent)
    requires Shape(s) && Conserved(s) && ReadoutEnabled(s, r)
    ensures ReadoutNext(s, r).ring.Valid() && Conserved(ReadoutNext(s, r))
  {
    var n := ReadoutNext(s, r);
    RingReadout(s, r);
    ReadoutLeaves(s, r);
    forall q: nat ensures Places(n, q) == if q < n.dequeued then 1 else 0 { PlacesReadout(s, r, q); }
  }

  lemma ReadoutLeaves(s: State, r: ReadoutEvent)
    requires ReadoutEnabled(s, r)
    ensures ReadoutNext(s, r).dequeued == s.dequeued && ReadoutNext(s, r).counted == s.counted
    ensures ReadoutNext(s, r).apc == s.apc
  {
  }

  lemma ConservedApi(s: State, a: ApiEvent)
    requires s.ring.Valid() && Conserved(s) && ApiEnabled(s, a)
    ensures ApiNext(s, a).ring.Valid() && Conserved(ApiNext(s, a))
  {
    ApiLeaves(s, a);
    forall q: nat ensures Places(ApiNext(s, a), q) == Places(s, q) { }
  }

  /** An API call changes nothing but its own counter and the registered streams. */
  lemma ApiLeaves(s: State, a: ApiEvent)
    requires ApiEnabled(s, a)
    ensures var n := ApiNext(s, a); n == s.(apc := n.apc, streams := n.streams, nextId := n.nextId)
  {
  }

  lemma SumsConfigure(s: State, c: ConfigureEvent)
    requires Sums(s) && ConfigureEnabled(s, c)
    ensures Sums(ConfigureNext(s, c))
  {
  }

  lemma CountingConfigure(s: State, c: ConfigureEvent)
    requires Shape(s) && Counting(s) && ConfigureEnabled(s, c)
    ensures ConfigureNext(s, c).ring.Valid() && Counting(ConfigureNext(s, c))
  {
    RingConfigure(s, c);
    SumsConfigure(s, c);
    forall q ensures Cleared(ConfigureNext(s, c), q) { ClearedConfigure(s, c, q); }
  }

  lemma CountingReadout(s: State, r: ReadoutEvent)
    requires Shape(s) && Counting(s) && ReadoutEnabled(s, r)
    ensures ReadoutNext(s, r).ring.Valid() && Counting(ReadoutNext(s, r))
  {
    RingReadout(s, r);
    ReadoutLeaves(s, r);
    forall q ensures Cleared(ReadoutNext(s, r), q) { ClearedReadout(s, r, q); }
  }

  lemma SumsApi(s: State, a: ApiEvent)
    requires Queueing(s) && Sums(s) && ApiEnabled(s, a)
    ensures Sums(ApiNext(s, a))
  {
  }

  lemma CountingApi(s: State, a: ApiEvent)
    requires Queueing(s) && Counting(s) && ApiEnabled(s, a)
    ensures ApiNext(s, a).ring.Valid() && Counting(ApiNext(s, a))
  {
    ApiLeaves(s, a);
    SumsApi(s, a);
    forall q ensures Cleared(ApiNext(s, a), q) { ClearedApi(s, a, q); }
  }

  lemma QueueingApi(s: State, a: ApiEvent)
    requires Queueing(s) && ApiEnabled(s, a)
    ensures Queueing(ApiNext(s, a))
  {
    ApiLeaves(s, a);
  }

  lemma ConfigureKeeps(s: State, c: ConfigureEvent)
    requires Invariant(s) && ConfigureEnabled(s, c)
    ensures Invariant(ConfigureNext(s, c))
  {
    QueueingConfigure(s, c);
    ScannedConfigure(s, c);
    RegisteredConfigure(s, c);
    ConservedConfigure(s, c);
    CountingConfigure(s, c);
  }

  lemma ReadoutKeeps(s: State, r: ReadoutEvent)
    requires Invariant(s) && ReadoutEnabled(s, r)
    ensures Invariant(ReadoutNext(s, r))
  {
    QueueingReadout(s, r);
    ScannedReadout(s, r);
    RegisteredReadout(s, r);
    ConservedReadout(s, r);
    CountingReadout(s, r);
  }

  lemma JpegKeeps(s: State, i: nat)
    requires Invariant(s) && i < |s.jobs|
    ensures Invariant(JpegNext(s, i))
  {
    var n := JpegNext(s, i);
    ScannedJpeg(s, i);
    RegisteredJpeg(s, i);
    forall q: nat ensures Places(n, q) == if q < n.dequeued then 1 else 0 { PlacesJpeg(s, i, q); }
    forall q ensures Cleared(n, q) { ClearedJpeg(s, i, q); }
  }

  lemma ApiKeeps(s: State, a: ApiEvent)
    requires Invariant(s) && ApiEnabled(s, a)
    ensures Invariant(ApiNext(s, a))
  {
    QueueingApi(s, a);
    ScannedApi(s, a);
    RegisteredApi(s, a);
    ConservedApi(s, a);
    CountingApi(s, a);
  }

  lemma StepKeeps(s: State, e: Event, n: State)
    requires Invariant(s) && Step(s, e, n)
    ensures Invariant(n)
  {
    match e {
      case Configure(c) => ConfigureKeeps(s, c);
      case Readout(r) => ReadoutKeeps(s, r);
      case JpegDone(i) => JpegKeeps(s, i);
      case Api(a) => ApiKeeps(s, a);
    }
  }

  lemma InitialHolds(size: nat)
    requires size >= 2
    ensures Invariant(Initial(size))
  {
  }

  lemma {:induction false} RunKeeps(size: nat, states: seq<State>, events: seq<Event>, i: nat)
    requires Run(size, states, events) && i <= |events|
    ensures Invariant(states[i])
  {
    if i == 0 {
      InitialHolds(size);
    } else {
      RunKeeps(size, states, events, i - 1);
      assert StepAt(states, events, i - 1);
      StepKeeps(states[i - 1], events[i - 1], states[i]);
    }
  }

  // ---------------------------------------------------------------------------------------
  // Main results, for every state of every run
  // ---------------------------------------------------------------------------------------

  /** When a release is about to remove a stream, no stage refers to it or is about to. */
  lemma SafeRelease(size: nat, states: seq<State>, events: seq<Event>, i: nat, id: int)
    requires Run(size, states, events) && i <= |events| && states[i].apc == ARemove(id)
    ensures var s := states[i];
      s.ring.Valid() && !InConfigure(s, id) && !InRing(s, id) && !InReadout(s, id) && !InJpeg(s, id)
    ensures forall b :: RefersTo(states[i], b) ==> b.id != id
  {
    RunKeeps(size, states, events, i);
    var s := states[i];
    forall b | RefersTo(s, b) ensures b.id != id {
      HeldIsIn(s, b);
    }
  }

  lemma HeldIsIn(s: State, b: Buffer)
    requires s.ring.Valid()
    ensures HeldByConfigure(s, b) ==> InConfigure(s, b.id)
    ensures HeldByRing(s, b) ==> InRing(s, b.id)
    ensures HeldByReadout(s, b) ==> InReadout(s, b.id)
    ensures HeldByJpeg(s, b) ==> InJpeg(s, b.id)
  {
    if op :| op in s.ring.Contents() && b in op.bufs {
      assert Uses(op.bufs, b.id);
    }
    if op :| op in s.jobs && b in op.bufs {
      assert Uses(op.bufs, b.id);
    }
  }

  /** The configure thread has b in its list, or is about to add it. */
  predicate HeldByConfigure(s: State, b: Buffer) {
    (s.cBuffers.Some? && b in s.cBuffers.value) || s.cPending == Some(b)
  }

  ghost predicate HeldByRing(s: State, b: Buffer)
    requires s.ring.Valid()
  {
    exists op :: op in s.ring.Contents() && b in op.bufs
  }

  predicate HeldByReadout(s: State, b: Buffer) { s.rBuffers.Some? && b in s.rBuffers.value }

  predicate HeldByJpeg(s: State, b: Buffer) { exists op :: op in s.jobs && b in op.bufs }

  ghost predicate RefersTo(s: State, b: Buffer)
    requires s.ring.Valid()
  {
    HeldByConfigure(s, b) || HeldByRing(s, b) || HeldByReadout(s, b) || HeldByJpeg(s, b)
  }

  /** So the workers, which look streams up again later, always find them registered. */
  lemma NoDanglingStream(size: nat, states: seq<State>, events: seq<Event>, i: nat, b: Buffer)
    requires Run(size, states, events) && i <= |events| && b.id > 0
    requires states[i].ring.Valid() && RefersTo(states[i], b)
    ensures b.id in states[i].streams
  {
    RunKeeps(size, states, events, i);
    HeldIsIn(states[i], b);
  }

  /**
   The ring refines a queue: what readout has taken, followed by what waits, is what was accepted,
   in order; nothing but a reprocess request is ever refused for want of room; and readout sleeps
   only if nothing waits and it holds nothing.
   */
  lemma RingIsQueue(size: nat, states: seq<State>, events: seq<Event>, i: nat)
    requires Run(size, states, events) && i <= |events|
    ensures var s := states[i];
      && s.ring.Valid()
      && s.accepted == s.taken + s.ring.Contents()
      && (forall op :: op in s.dropped ==> !op.request.capture)
      && (!s.rActive ==> s.ring.Contents() == [] && s.rOp == None && s.rBuffers == None)
  {
    RunKeeps(size, states, events, i);
  }

  /** Every request dequeued so far is in exactly one stage, or finished once, or dropped once. */
  lemma RequestsConserved(size: nat, states: seq<State>, events: seq<Event>, i: nat, q: nat)
    requires Run(size, states, events) && i <= |events|
    ensures states[i].ring.Valid() && Places(states[i], q) == if q < states[i].dequeued then 1 else 0
  {
    RunKeeps(size, states, events, i);
  }

  function MarkOf(pc: ApiPc): Option<nat> {
    match pc
    case ACountC(mark) => Some(mark)
    case ACountR(mark, _) => Some(mark)
    case ACountJ(mark, _) => Some(mark)
    case ADone(mark, _) => Some(mark)
    case _ => None
  }

  /** One count of the requests in progress, from the event that begins it to state j. */
  ghost predicate CountCall(size: nat, states: seq<State>, events: seq<Event>, i: nat, j: nat) {
    && Run(size, states, events) && i < j <= |events| && events[i] == Api(ACount)
    && forall k :: i < k <= j ==> !states[k].apc.AIdle?
  }

  lemma {:induction false} MarkKept(size: nat, states: seq<State>, events: seq<Event>, i: nat, j: nat)
    requires CountCall(size, states, events, i, j)
    ensures MarkOf(states[j].apc) == Some(states[i].counted)
  {
    assert StepAt(states, events, j - 1);
    if j > i + 1 {
      MarkKept(size, states, events, i, j - 1);
      MarkStep(states[j - 1], events[j - 1], states[j]);
    }
  }

  lemma MarkStep(s: State, e: Event, n: State)
    requires Step(s, e, n) && MarkOf(s.apc).Some? && !n.apc.AIdle?
    ensures MarkOf(n.apc) == MarkOf(s.apc)
  {
  }

  /**
   A count that adds up to zero is sound although it is not a snapshot: every request counted
   before the call began is over. If the configure thread was not just then between dequeueing a
   request and counting it, that is every request dequeued before the call began.
   */
  lemma ZeroMeansOver(size: nat, states: seq<State>, events: seq<Event>, i: nat, j: nat, mark: nat, q: nat)
    requires CountCall(size, states, events, i, j) && states[j].apc == ADone(mark, 0)
    requires q < if states[i].cpc.CDequeued? then states[i].dequeued - 1 else states[i].dequeued
    ensures Over(states[j], q) == 1
  {
    MarkKept(size, states, events, i, j);
    RunKeeps(size, states, events, i);
    RunKeeps(size, states, events, j);
    assert Cleared(states[j], q);
    assert Places(states[j], q) == 1;
  }

  /**
   The exact exception: a count that runs undisturbed from state s and adds up to zero leaves
   every request dequeued before it over, if and only if no request is between being dequeued and
   being counted.
   */
  lemma ZeroExactly(size: nat, states: seq<State>, events: seq<Event>, i: nat)
    requires Run(size, states, events) && i <= |events|
    requires var s := states[i]; s.cCount + s.rCount + (if s.jobs != [] then 1 else 0) == 0
    ensures var s := states[i];
      (forall q: nat :: q < s.dequeued ==> Over(s, q) == 1) <==> !s.cpc.CDequeued?
  {
    RunKeeps(size, states, events, i);
    var s := states[i];
    if s.cpc.CDequeued? {
      var q := s.dequeued - 1;
      assert Places(s, q) == 1 && AtConfigure(s, q) == 1;
    } else {
      forall q: nat | q < s.dequeued ensures Over(s, q) == 1 {
        assert Places(s, q) == 1;
      }
    }
  }

  lemma RunExtends(size: nat, states: seq<State>, events: seq<Event>, e: Event, n: State)
    requires Run(size, states, events) && Step(states[|events|], e, n)
    ensures Run(size, states + [n], events + [e])
  {
    var more, all := states + [n], events + [e];
    forall i | 0 <= i < |all| ensures StepAt(more, all, i) {
      assert i < |events| ==> StepAt(states, events, i);
    }
  }

  /** A count that runs undisturbed. */
  lemma CountSteps(s: State)
    requires s.apc.AIdle? && s.cCount == 0 && s.rCount == 0 && s.jobs == []
    ensures Step(s, Api(ACount), s.(apc := ACountC(s.counted)))
    ensures Step(s.(apc := ACountC(s.counted)), Api(AStep), s.(apc := ACountR(s.counted, 0)))
    ensures Step(s.(apc := ACountR(s.counted, 0)), Api(AStep), s.(apc := ACountJ(s.counted, 0)))
    ensures Step(s.(apc := ACountJ(s.counted, 0)), Api(AStep), s.(apc := ADone(s.counted, 0)))
  {
  }

  /**
   The exception is real in every such run: with a request dequeued but not counted, and the
   later stages empty, a count that runs undisturbed returns zero and that request is not over.
   */
  lemma ZeroMissesUncounted(size: nat, states: seq<State>, events: seq<Event>)
    returns (more: seq<State>, all: seq<Event>)
    requires Run(size, states, events)
    requires var s := states[|events|]; s.apc.AIdle? && s.cpc.CDequeued? && s.rCount == 0 && s.jobs == []
    ensures |all| == |events| + 4 && |more| == |all| + 1 && states <= more
    ensures CountCall(size, more, all, |events|, |all|)
    ensures var s := states[|events|];
      more[|all|].apc == ADone(s.counted, 0) && s.dequeued > 0 && Over(more[|all|], s.dequeued - 1) == 0
  {
    var s := states[|events|];
    RunKeeps(size, states, events, |events|);
    assert Places(s, s.dequeued - 1) == 1 && AtConfigure(s, s.dequeued - 1) == 1;
    CountSteps(s);
    more, all := states, events;
    RunExtends(size, more, all, Api(ACount), s.(apc := ACountC(s.counted)));
    more, all := more + [s.(apc := ACountC(s.counted))], all + [Api(ACount)];
    RunExtends(size, more, all, Api(AStep), s.(apc := ACountR(s.counted, 0)));
    more, all := more + [s.(apc := ACountR(s.counted, 0))], all + [Api(AStep)];
    RunExtends(size, more, all, Api(AStep), s.(apc := ACountJ(s.counted, 0)));
    more, all := more + [s.(apc := ACountJ(s.counted, 0))], all + [Api(AStep)];
    RunExtends(size, more, all, Api(AStep), s.(apc := ADone(s.counted, 0)));
    more, all := more + [s.(apc := ADone(s.counted, 0))], all + [Api(AStep)];
  }

  /** The shortest such run: a stream is allocated, and a request for it is dequeued. */
  lemma UncountedReached(size: nat) returns (states: seq<State>, events: seq<Event>)
    requires size >= 2
    ensures Run(size, states, events)
    ensures var s := states[|events|]; s.apc.AIdle? && s.cpc.CDequeued? && s.rCount == 0 && s.jobs == []
    ensures var s := states[|events|]; s.streams == {1} && s.cRequest == Some(Request(0, true, [1]))
  {
    var s0 := Initial(size);
    var s1 := ApiNext(s0, AAllocate);
    var s2 := s1.(cpc := CDequeue);
    var s3 := s2.(cpc := CDequeued, cRequest := Some(Request(0, true, [1])), dequeued := 1);
    states, events := [s0], [];
    RunExtends(size, states, events, Api(AAllocate), s1);
    states, events := states + [s1], events + [Api(AAllocate)];
    RunExtends(size, states, events, Configure(CEnter), s2);
    states, events := states + [s2], events + [Configure(CEnter)];
    RunExtends(size, states, events, Configure(CDequeueOne(true, [1])), s3);
    states, events := states + [s3], events + [Configure(CDequeueOne(true, [1]))];
  }
}
