/**
 The matching of output contexts to output messages. Both queues mix entries of many connections;
 a match takes the first context that has a message for its connection, and the first such
 message. The lemmas show that this gives every connection two queues of its own.
 */
module Channels {
  import opened Basics

  datatype Entry<T> = Entry(cid: int, item: T)

  /** The items of one connection, in order. */
  function Of<T>(es: seq<Entry<T>>, cid: int): seq<T> {
    if es == [] then []
    else if es[0].cid == cid then [es[0].item] + Of(es[1..], cid)
    else Of(es[1..], cid)
  }

  /** Index of the first entry of a connection, or |es|. */
  function First<T>(es: seq<Entry<T>>, cid: int): (i: nat)
    ensures i <= |es| && (i < |es| ==> es[i].cid == cid)
    ensures forall k :: 0 <= k < i ==> es[k].cid != cid
  {
    if es == [] || es[0].cid == cid then 0 else 1 + First(es[1..], cid)
  }

  /** Index of the first context whose connection has a message, or |cs|. */
  function Pick<C, M>(cs: seq<Entry<C>>, ms: seq<Entry<M>>): (i: nat)
    ensures i <= |cs| && (i < |cs| ==> First(ms, cs[i].cid) < |ms|)
    ensures forall k :: 0 <= k < i ==> First(ms, cs[k].cid) == |ms|
  {
    if cs == [] || First(ms, cs[0].cid) < |ms| then 0 else 1 + Pick(cs[1..], ms)
  }

  function Without<T>(es: seq<T>, i: nat): seq<T>
    requires i < |es|
  {
    es[..i] + es[i + 1..]
  }

  /** A search finds a pair exactly if some connection occurs in both queues. */
  lemma PickExactly<C, M>(cs: seq<Entry<C>>, ms: seq<Entry<M>>)
    ensures Pick(cs, ms) < |cs| <==> exists cid :: Of(cs, cid) != [] && Of(ms, cid) != []
  {
    if Pick(cs, ms) < |cs| {
      var c := cs[Pick(cs, ms)];
      HasItems(cs, c.cid);
      HasItems(ms, c.cid);
      assert Of(cs, c.cid) != [] && Of(ms, c.cid) != [];
    } else {
      forall cid ensures Of(cs, cid) == [] || Of(ms, cid) == [] {
        HasItems(cs, cid);
        HasItems(ms, cid);
      }
    }
  }

  lemma {:induction false} HasItems<T>(es: seq<Entry<T>>, cid: int)
    ensures Of(es, cid) != [] <==> First(es, cid) < |es|
  {
    if es != [] && es[0].cid != cid {
      HasItems(es[1..], cid);
    }
  }

  /** The first entry of a connection is the head of its queue; taking it leaves all other queues alone. */
  lemma {:induction false} TakeFirst<T>(es: seq<Entry<T>>, cid: int, d: int)
    requires First(es, cid) < |es|
    ensures var i := First(es, cid);
      Of(es, d) == (if d == cid then [es[i].item] else []) + Of(Without(es, i), d)
  {
    var i := First(es, cid);
    if i == 0 {
      assert Without(es, 0) == es[1..];
    } else {
      TakeFirst(es[1..], cid, d);
      assert Without(es, i) == [es[0]] + Without(es[1..], i - 1);
    }
  }

  /** The context that a match takes is the first of its connection. */
  lemma PickIsFirst<C, M>(cs: seq<Entry<C>>, ms: seq<Entry<M>>)
    requires Pick(cs, ms) < |cs|
    ensures First(cs, cs[Pick(cs, ms)].cid) == Pick(cs, ms)
  {
    var i := Pick(cs, ms);
    assert forall k :: 0 <= k < i ==> First(ms, cs[k].cid) == |ms|;
  }

  lemma {:induction false} OfAppend<T>(es: seq<Entry<T>>, e: Entry<T>, cid: int)
    ensures Of(es + [e], cid) == Of(es, cid) + if e.cid == cid then [e.item] else []
  {
    if es == [] {
      assert es + [e] == [e] && [e][1..] == [];
    } else {
      assert (es + [e])[1..] == es[1..] + [e];
      OfAppend(es[1..], e, cid);
    }
  }

  // ---------------------------------------------------------------------------------------
  // Runs
  // ---------------------------------------------------------------------------------------

  datatype Event<C, M> = PushContext(c: Entry<C>) | PushMessage(m: Entry<M>) | Match

  /** The two queues, and what has been pushed and delivered so far. */
  datatype State<C, M> = State(
    cs: seq<Entry<C>>, ms: seq<Entry<M>>,
    pushedC: seq<Entry<C>>, pushedM: seq<Entry<M>>, delivered: seq<Entry<(C, M)>>)

  function Next<C, M>(s: State<C, M>, e: Event<C, M>): State<C, M> {
    match e
    case PushContext(c) => s.(cs := s.cs + [c], pushedC := s.pushedC + [c])
    case PushMessage(m) => s.(ms := s.ms + [m], pushedM := s.pushedM + [m])
    case Match =>
      var i := Pick(s.cs, s.ms);
      if i == |s.cs| then s
      else
        var j := First(s.ms, s.cs[i].cid);
        s.(cs := Without(s.cs, i), ms := Without(s.ms, j),
           delivered := s.delivered + [Entry(s.cs[i].cid, (s.cs[i].item, s.ms[j].item))])
  }

  function Run<C, M>(events: seq<Event<C, M>>): State<C, M> {
    if events == [] then State([], [], [], [], [])
    else Next(Run(events[..|events| - 1]), events[|events| - 1])
  }

  function Lefts<C, M>(ps: seq<(C, M)>): seq<C> { seq(|ps|, i requires 0 <= i < |ps| => ps[i].0) }

  function Rights<C, M>(ps: seq<(C, M)>): seq<M> { seq(|ps|, i requires 0 <= i < |ps| => ps[i].1) }

  /** For one connection: what was delivered, followed by what waits, is what was pushed. */
  ghost predicate Queues<C, M>(s: State<C, M>, cid: int) {
    && Of(s.pushedC, cid) == Lefts(Of(s.delivered, cid)) + Of(s.cs, cid)
    && Of(s.pushedM, cid) == Rights(Of(s.delivered, cid)) + Of(s.ms, cid)
  }

  lemma TakeKeeps<T>(pushed: seq<Entry<T>>, done: seq<T>, waiting: seq<Entry<T>>, c: int, cid: int)
    requires Of(pushed, cid) == done + Of(waiting, cid)
    requires First(waiting, c) < |waiting|
    ensures var i := First(waiting, c);
      Of(pushed, cid) == (done + if c == cid then [waiting[i].item] else []) + Of(Without(waiting, i), cid)
  {
    TakeFirst(waiting, c, cid);
    var i := First(waiting, c);
    var x := if c == cid then [waiting[i].item] else [];
    assert done + (x + Of(Without(waiting, i), cid)) == (done + x) + Of(Without(waiting, i), cid);
  }

  lemma DeliverAppends<C, M>(delivered: seq<Entry<(C, M)>>, c: int, pair: (C, M), cid: int)
    ensures Lefts(Of(delivered + [Entry(c, pair)], cid)) == Lefts(Of(delivered, cid)) + if c == cid then [pair.0] else []
    ensures Rights(Of(delivered + [Entry(c, pair)], cid)) == Rights(Of(delivered, cid)) + if c == cid then [pair.1] else []
  {
    OfAppend(delivered, Entry(c, pair), cid);
  }

  lemma MatchKeeps<C, M>(s: State<C, M>, cid: int)
    requires Queues(s, cid)
    ensures Queues(Next(s, Match), cid)
  {
    var i := Pick(s.cs, s.ms);
    if i < |s.cs| {
      var c := s.cs[i].cid;
      PickIsFirst(s.cs, s.ms);
      DeliverAppends(s.delivered, c, (s.cs[i].item, s.ms[First(s.ms, c)].item), cid);
      TakeKeeps(s.pushedC, Lefts(Of(s.delivered, cid)), s.cs, c, cid);
      TakeKeeps(s.pushedM, Rights(Of(s.delivered, cid)), s.ms, c, cid);
    }
  }

  lemma PushKeeps<T>(pushed: seq<Entry<T>>, done: seq<T>, waiting: seq<Entry<T>>, e: Entry<T>, cid: int)
    requires Of(pushed, cid) == done + Of(waiting, cid)
    ensures Of(pushed + [e], cid) == done + Of(waiting + [e], cid)
  {
    OfAppend(pushed, e, cid);
    OfAppend(waiting, e, cid);
    var x := if e.cid == cid then [e.item] else [];
    assert done + (Of(waiting, cid) + x) == (done + Of(waiting, cid)) + x;
  }

  lemma {:induction false} RunKeeps<C, M>(events: seq<Event<C, M>>, cid: int)
    ensures Queues(Run(events), cid)
  {
    if events != [] {
      var s := Run(events[..|events| - 1]);
      RunKeeps(events[..|events| - 1], cid);
      match events[|events| - 1] {
        case PushContext(c) => PushKeeps(s.pushedC, Lefts(Of(s.delivered, cid)), s.cs, c, cid);
        case PushMessage(m) => PushKeeps(s.pushedM, Rights(Of(s.delivered, cid)), s.ms, m, cid);
        case Match => MatchKeeps(s, cid);
      }
    }
  }

  function ContextsIn<C, M>(events: seq<Event<C, M>>): seq<Entry<C>> {
    if events == [] then []
    else
      var last := events[|events| - 1];
      ContextsIn(events[..|events| - 1]) + if last.PushContext? then [last.c] else []
  }

  function MessagesIn<C, M>(events: seq<Event<C, M>>): seq<Entry<M>> {
    if events == [] then []
    else
      var last := events[|events| - 1];
      MessagesIn(events[..|events| - 1]) + if last.PushMessage? then [last.m] else []
  }

  /** What counts as pushed is every push of the run, in order. */
  lemma {:induction false} PushedAreEvents<C, M>(events: seq<Event<C, M>>)
    ensures Run(events).pushedC == ContextsIn(events) && Run(events).pushedM == MessagesIn(events)
  {
    if events != [] {
      PushedAreEvents(events[..|events| - 1]);
    }
  }

  /**
   Over any run, the k-th chunk delivered for a connection is the k-th message pushed for it,
   paired with the k-th context pushed for it.
   */
  lemma DeliveredInOrder<C, M>(events: seq<Event<C, M>>, cid: int, k: nat)
    requires k < |Of(Run(events).delivered, cid)|
    ensures var s := Run(events);
      && k < |Of(s.pushedC, cid)| && k < |Of(s.pushedM, cid)|
      && Of(s.delivered, cid)[k] == (Of(s.pushedC, cid)[k], Of(s.pushedM, cid)[k])
      && s.pushedC == ContextsIn(events) && s.pushedM == MessagesIn(events)
  {
    PushedAreEvents(events);
    RunKeeps(events, cid);
  }

  /** Once a search finds nothing, every connection has been delivered all it can be. */
  lemma QuiescentMeansServed<C, M>(events: seq<Event<C, M>>, cid: int)
    requires var s := Run(events); Pick(s.cs, s.ms) == |s.cs|
    ensures var s := Run(events);
      |Of(s.delivered, cid)| == Min(|Of(s.pushedC, cid)|, |Of(s.pushedM, cid)|)
    ensures |Of(Run(events).delivered, cid)| == Min(|Of(ContextsIn(events), cid)|, |Of(MessagesIn(events), cid)|)
  {
    PushedAreEvents(events);
    RunKeeps(events, cid);
    var s := Run(events);
    PickExactly(s.cs, s.ms);
    assert Of(s.cs, cid) == [] || Of(s.ms, cid) == [];
  }

  /**
   So what a connection gets does not depend on how its traffic was interleaved, nor on what the
   other connections did.
   */
  lemma Isolation<C, M>(events: seq<Event<C, M>>, others: seq<Event<C, M>>, cid: int)
    requires var s := Run(events); Pick(s.cs, s.ms) == |s.cs|
    requires var s := Run(others); Pick(s.cs, s.ms) == |s.cs|
    requires Of(Run(events).pushedC, cid) == Of(Run(others).pushedC, cid)
    requires Of(Run(events).pushedM, cid) == Of(Run(others).pushedM, cid)
    ensures Of(Run(events).delivered, cid) == Of(Run(others).delivered, cid)
  {
    QuiescentMeansServed(events, cid);
    QuiescentMeansServed(others, cid);
    var x, y := Of(Run(events).delivered, cid), Of(Run(others).delivered, cid);
    forall k | 0 <= k < |x| ensures x[k] == y[k] {
      DeliveredInOrder(events, cid, k);
      DeliveredInOrder(others, cid, k);
    }
  }
}
