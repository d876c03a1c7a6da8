/**
 The linked lists of the guest control service, updated in place, proved against the queues of
 Channels. A search is one atomic step: it runs under the mutex that every push takes.
 */
module GuestControl {
  import opened Channels

  datatype Context = Context(context: int, handle: int, flags: int)

  datatype Message = Message(term: bool, data: seq<bv8>)

  class Cell<T> {
    const entry: Entry<T>
    var next: Cell?<T>

    constructor (entry: Entry<T>)
      ensures this.entry == entry
    {
      this.entry := entry;
      next := null;
    }
  }

  function EntriesOf<T>(cells: seq<Cell<T>>): seq<Entry<T>> {
    seq(|cells|, i requires 0 <= i < |cells| => cells[i].entry)
  }

  lemma WithoutAt<T>(es: seq<T>, i: nat)
    requires i < |es|
    ensures |Without(es, i)| == |es| - 1
    ensures forall k :: 0 <= k < i ==> Without(es, i)[k] == es[k]
    ensures forall k :: i <= k < |es| - 1 ==> Without(es, i)[k] == es[k + 1]
  {
  }

  lemma EntriesWithout<T>(cells: seq<Cell<T>>, i: nat)
    requires i < |cells|
    ensures EntriesOf(Without(cells, i)) == Without(EntriesOf(cells), i)
  {
  }

  class List<T> {
    var head: Cell?<T>
    ghost var cells: seq<Cell<T>>

    ghost function At(i: int): Cell?<T>
      reads this
    {
      if 0 <= i < |cells| then cells[i] else null
    }

    ghost predicate Valid()
      reads this, cells
    {
      && head == At(0)
      && (forall i :: 0 <= i < |cells| ==> cells[i].next == At(i + 1))
      && (forall i, j :: 0 <= i < j < |cells| ==> cells[i] != cells[j])
    }

    ghost function Entries(): seq<Entry<T>>
      reads this
    {
      EntriesOf(cells)
    }

    constructor ()
      ensures Valid() && Entries() == [] && cells == []
    {
      head := null;
      cells := [];
    }

    /** Walks to the last cell and links the new one after it. */
    method Push(c: Cell<T>)
      requires Valid() && c !in cells
      modifies this, cells, c
      ensures Valid()
      ensures cells == old(cells) + [c]
      ensures Entries() == old(Entries()) + [c.entry]
    {
      c.next := null;
      if head == null {
        head := c;
        cells := [c];
        return;
      }
      var m: Cell<T> := head;
      ghost var i := 0;
      while m.next != null
        invariant i < |cells| && m == cells[i]
        invariant cells == old(cells) && unchanged(this) && Valid()
        decreases |cells| - i
      {
        m := m.next;
        i := i + 1;
      }
      m.next := c;
      cells := cells + [c];
    }

    /** Takes the first cell off a list that is not empty. */
    method Pop() returns (c: Cell<T>)
      requires Valid() && head != null
      modifies this
      ensures Valid()
      ensures old(cells) == [c] + cells
      ensures old(Entries()) == [c.entry] + Entries()
    {
      c := head;
      head := head.next;
      cells := cells[1..];
    }

    /** Splices out cell i, given the cell before it. */
    method Unlink(q: Cell?<T>, p: Cell<T>, ghost i: nat)
      requires Valid() && i < |cells| && p == cells[i] && q == At(i - 1)
      modifies this, q
      ensures Valid()
      ensures i < |old(cells)| && cells == Without(old(cells), i)
      ensures Entries() == Without(old(Entries()), i)
    {
      if q != null {
        q.next := p.next;
      } else {
        head := p.next;
      }
      EntriesWithout(cells, i);
      WithoutAt(cells, i);
      cells := Without(cells, i);
    }
  }

  /** What one search takes, as the queues define it. */
  ghost predicate Takes(cs: seq<Entry<Context>>, ms: seq<Entry<Message>>,
                        c: Cell?<Context>, m: Cell?<Message>,
                        csAfter: seq<Entry<Context>>, msAfter: seq<Entry<Message>>)
  {
    var i := Pick(cs, ms);
    if i == |cs| then
      c == null && m == null && csAfter == cs && msAfter == ms
    else
      var j := First(ms, cs[i].cid);
      && c != null && c.entry == cs[i] && csAfter == Without(cs, i)
      && m != null && m.entry == ms[j] && msAfter == Without(ms, j)
  }

  /** A search that returns is the Match step of Channels, so the results on its runs hold of the lists. */
  lemma SearchIsMatch(s: State<Context, Message>, c: Cell?<Context>, m: Cell?<Message>,
                      csAfter: seq<Entry<Context>>, msAfter: seq<Entry<Message>>)
    requires Takes(s.cs, s.ms, c, m, csAfter, msAfter)
    ensures var n := Next(s, Match);
      && n.cs == csAfter && n.ms == msAfter
      && (c == null <==> n == s)
      && (c != null ==> m.entry.cid == c.entry.cid)
      && (c != null ==> n.delivered == s.delivered + [Entry(c.entry.cid, (c.entry.item, m.entry.item))])
  {
    if c != null {
      assert |Next(s, Match).delivered| == |s.delivered| + 1;
    }
  }

  /** The two splices of a search that has found a pair. */
  method TakePair(contexts: List<Context>, q: Cell?<Context>, p: Cell<Context>, ghost i: nat,
                  messages: List<Message>, qm: Cell?<Message>, pm: Cell<Message>, ghost j: nat)
    requires contexts.Valid() && messages.Valid()
    requires i < |contexts.cells| && p == contexts.cells[i] && q == contexts.At(i - 1)
    requires j < |messages.cells| && pm == messages.cells[j] && qm == messages.At(j - 1)
    requires i == Pick(contexts.Entries(), messages.Entries()) && j == First(messages.Entries(), p.entry.cid)
    modifies contexts, contexts.cells, messages, messages.cells
    ensures contexts.Valid() && messages.Valid()
    ensures Takes(old(contexts.Entries()), old(messages.Entries()), p, pm, contexts.Entries(), messages.Entries())
  {
    contexts.Unlink(q, p, i);
    messages.Unlink(qm, pm, j);
  }

  /** The inner loop: the first message of a connection and the cell before it. */
  method FindMessage(messages: List<Message>, cid: int)
    returns (qm: Cell?<Message>, pm: Cell?<Message>, ghost j: nat)
    requires messages.Valid()
    ensures j == First(messages.Entries(), cid)
    ensures pm == messages.At(j) && qm == messages.At(j - 1)
  {
    ghost var ms := messages.Entries();
    pm, qm, j := messages.head, null, 0;
    while pm != null
      invariant j <= |ms| && pm == messages.At(j) && qm == messages.At(j - 1)
      invariant forall k :: 0 <= k < j ==> ms[k].cid != cid
      decreases |ms| - j
    {
      if cid == pm.entry.cid {
        break;
      }
      qm := pm;
      pm := pm.next;
      j := j + 1;
    }
    FirstIs(ms, cid, j);
  }

  /** The outer loop: the first context whose connection has a message, and that message. */
  method FindPair(contexts: List<Context>, messages: List<Message>)
    returns (q: Cell?<Context>, p: Cell?<Context>, ghost i: nat, qm: Cell?<Message>, pm: Cell?<Message>, ghost j: nat)
    requires contexts.Valid() && messages.Valid()
    ensures i == Pick(contexts.Entries(), messages.Entries())
    ensures p == contexts.At(i) && q == contexts.At(i - 1)
    ensures p == null ==> pm == null
    ensures p != null ==> j == First(messages.Entries(), p.entry.cid)
    ensures p != null ==> pm != null && pm == messages.At(j) && qm == messages.At(j - 1)
  {
    ghost var cs, ms := contexts.Entries(), messages.Entries();
    p, q, i := contexts.head, null, 0;
    qm, pm, j := null, null, 0;
    while p != null
      invariant i <= |cs| && p == contexts.At(i) && q == contexts.At(i - 1) && pm == null
      invariant Unmatched(cs, ms, i)
      decreases |cs| - i
    {
      qm, pm, j := FindMessage(messages, p.entry.cid);
      if pm != null {
        break;
      }
      q := p;
      p := p.next;
      i := i + 1;
    }
    PickIs(cs, ms, i);
  }

  /** One search, under the mutex: find a pair and splice both cells out. */
  method FindNext(contexts: List<Context>, messages: List<Message>) returns (c: Cell?<Context>, m: Cell?<Message>)
    requires contexts.Valid() && messages.Valid()
    modifies contexts, contexts.cells, messages, messages.cells
    ensures contexts.Valid() && messages.Valid()
    ensures Takes(old(contexts.Entries()), old(messages.Entries()), c, m, contexts.Entries(), messages.Entries())
  {
    var q, p, i, qm, pm, j := FindPair(contexts, messages);
    if p != null {
      TakePair(contexts, q, p, i, messages, qm, pm, j);
    }
    return p, pm;
  }

  /** The search index is determined by what lies before it. */
  lemma FirstIs<T>(es: seq<Entry<T>>, cid: int, i: nat)
    requires i <= |es| && (i < |es| ==> es[i].cid == cid)
    requires forall k :: 0 <= k < i ==> es[k].cid != cid
    ensures First(es, cid) == i
  {
    var f := First(es, cid);
    assert f < |es| ==> es[f].cid == cid;
  }

  ghost predicate Unmatched(cs: seq<Entry<Context>>, ms: seq<Entry<Message>>, i: nat)
    requires i <= |cs|
  {
    forall k :: 0 <= k < i ==> First(ms, cs[k].cid) == |ms|
  }

  lemma PickIs(cs: seq<Entry<Context>>, ms: seq<Entry<Message>>, i: nat)
    requires i <= |cs| && (i < |cs| ==> First(ms, cs[i].cid) < |ms|)
    requires Unmatched(cs, ms, i)
    ensures Pick(cs, ms) == i
  {
    var f := Pick(cs, ms);
    assert f < |cs| ==> First(ms, cs[f].cid) < |ms|;
  }

  datatype Sent = Complete | Failed | Ended | Pending

  /**
   What a client has been sent, and how that ended, when `left` bytes remain. `results` are the
   return values of the successive writes; Pending means that they ran out.
   */
  function Progress(left: nat, results: seq<int>): (r: (nat, Sent))
    ensures r.0 <= left && (r.1 == Complete <==> r.0 == left)
  {
    if left == 0 then (0, Complete)
    else if results == [] then (0, Pending)
    else if results[0] < 0 then (0, Failed)
    else if results[0] == 0 then (0, Ended)
    else
      var w := if results[0] <= left then results[0] else left;
      var rest := Progress(left - w, results[1..]);
      (w + rest.0, rest.1)
  }

  /** What the first k writes have taken. */
  function Taken(results: seq<int>, k: nat): int
    requires k <= |results|
  {
    if k == 0 then 0 else Taken(results, k - 1) + results[k - 1]
  }

  lemma {:induction false} TakenRest(results: seq<int>, k: nat)
    requires 0 < k <= |results|
    ensures Taken(results, k) == results[0] + Taken(results[1..], k - 1)
  {
    if k > 1 {
      TakenRest(results, k - 1);
    } else {
      assert Taken(results, 0) == 0;
    }
  }

  /**
   Where the loop stops. All writes before it took bytes, and together fewer than there are; what
   ends it is a write that fails, one that takes nothing, one that takes all the rest, or that there
   are no more results.
   */
  lemma {:induction false} StopsAt(left: nat, results: seq<int>) returns (k: nat)
    ensures k <= |results| && (k == 0 || Taken(results, k) < left)
    ensures forall i :: 0 <= i < k ==> results[i] > 0
    ensures var (n, outcome) := Progress(left, results);
      match outcome
      case Failed => k < |results| && results[k] < 0 && n == Taken(results, k)
      case Ended => k < |results| && results[k] == 0 && n == Taken(results, k)
      case Complete => n == left && (left == 0 || (k < |results| && results[k] >= left - Taken(results, k)))
      case Pending => k == |results| && n == Taken(results, k)
  {
    k := 0;
    if left > 0 && results != [] && 0 < results[0] < left {
      var j := StopsAt(left - results[0], results[1..]);
      k := j + 1;
      TakenRest(results, k);
    }
  }

  /** The write loop for one message; a write takes at most what it is asked to. */
  method Write(data: seq<bv8>, results: seq<int>) returns (sent: seq<bv8>, outcome: Sent)
    ensures sent == data[..Progress(|data|, results).0] && outcome == Progress(|data|, results).1
    ensures outcome == Complete <==> sent == data
  {
    sent := [];
    var toWrite, nWrite, rest := |data|, 0, results;
    while toWrite > 0
      invariant 0 <= nWrite && 0 <= toWrite && nWrite + toWrite == |data| && sent == data[..nWrite]
      invariant Progress(|data|, results) == (nWrite + Progress(toWrite, rest).0, Progress(toWrite, rest).1)
    {
      if rest == [] { return sent, Pending; }
      var w := if rest[0] <= toWrite then rest[0] else toWrite;
      if w < 0 { return sent, Failed; }
      if w == 0 { return sent, Ended; }
      sent := sent + data[nWrite..nWrite + w];
      toWrite, nWrite, rest := toWrite - w, nWrite + w, rest[1..];
    }
    outcome := Complete;
  }
}
