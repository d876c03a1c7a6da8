/**
 Audio capture: frames go from the driver through the period buffer into the input buffer of the
 preprocessors, which take and give what they like within the limits they are told. A frame is one
 value. The audio HAL without mmap keeps the left sample of every pair that its driver gives, in
 place; the one with mmap has the preprocessors. No resampler is in use.
 */
module Capture {
  import opened Basics

  /** Keeps the left sample of every pair, in place. */
  method DiscardRight<T>(samples: array<T>, frames: nat)
    requires 2 * frames <= samples.Length
    modifies samples
    ensures forall k :: 0 <= k < frames ==> samples[k] == old(samples[2 * k])
    ensures forall k :: frames <= k < samples.Length ==> samples[k] == old(samples[k])
  {
    var i := 1;
    while i < frames
      invariant 1 <= i && (frames > 0 ==> i <= frames)
      invariant forall k :: 0 <= k < i && k < frames ==> samples[k] == old(samples[2 * k])
      invariant forall k :: 0 <= k < samples.Length && (i <= k || frames <= k) ==> samples[k] == old(samples[k])
    {
      samples[i] := samples[i * 2];
      i := i + 1;
    }
  }

  /** One call of the preprocessors: the frames it takes and gives, if the limits allow it. */
  datatype Process = Process(consumed: nat, produced: nat)

  /** What a call was offered: frames to take, and room to fill. */
  datatype Offer = Offer(frames: nat, room: nat)

  /** What the calls took and gave, each within its offer. */
  function Taken(script: seq<Process>, offers: seq<Offer>): nat
    requires |offers| <= |script|
  {
    if offers == [] then 0
    else
      var k := |offers| - 1;
      Taken(script, offers[..k]) + Min(script[k].consumed, offers[k].frames)
  }

  function Made(script: seq<Process>, offers: seq<Offer>): nat
    requires |offers| <= |script|
  {
    if offers == [] then 0
    else
      var k := |offers| - 1;
      Made(script, offers[..k]) + Min(script[k].produced, offers[k].room)
  }

  lemma OneCallMore(script: seq<Process>, offers: seq<Offer>, o: Offer)
    requires |offers| < |script|
    ensures Taken(script, offers + [o]) == Taken(script, offers) + Min(script[|offers|].consumed, o.frames)
    ensures Made(script, offers + [o]) == Made(script, offers) + Min(script[|offers|].produced, o.room)
  {
    assert (offers + [o])[..|offers|] == offers;
  }

  function ConsumedBy(script: seq<Process>): nat {
    if script == [] then 0 else ConsumedBy(script[..|script| - 1]) + script[|script| - 1].consumed
  }

  function ProducedBy(script: seq<Process>): nat {
    if script == [] then 0 else ProducedBy(script[..|script| - 1]) + script[|script| - 1].produced
  }

  /** The calls keep within what they are offered. */
  predicate WithinOffers(script: seq<Process>, offers: seq<Offer>)
    requires |offers| <= |script|
  {
    forall k :: 0 <= k < |offers| ==> script[k].consumed <= offers[k].frames && script[k].produced <= offers[k].room
  }

  /** Preprocessors that keep within their offers take and give all that they say. */
  lemma {:induction false} TakenInFull(script: seq<Process>, offers: seq<Offer>)
    requires |offers| <= |script| && WithinOffers(script, offers)
    ensures Taken(script, offers) == ConsumedBy(script[..|offers|]) && Made(script, offers) == ProducedBy(script[..|offers|])
  {
    if offers != [] {
      var k := |offers| - 1;
      TakenInFull(script, offers[..k]);
      assert script[..k + 1][..k] == script[..k];
    }
  }

  /** No call takes or gives more than it was offered. */
  lemma {:induction false} TakenWithin(script: seq<Process>, offers: seq<Offer>, frames: nat, room: nat)
    requires |offers| <= |script| && forall k :: 0 <= k < |offers| ==> offers[k].frames <= frames && offers[k].room <= room
    ensures Taken(script, offers) <= |offers| * frames && Made(script, offers) <= |offers| * room
  {
    if offers != [] {
      var k := |offers| - 1;
      TakenWithin(script, offers[..k], frames, room);
      assert |offers| * frames == k * frames + frames && |offers| * room == k * room + room;
    }
  }

  datatype Outcome = Delivered | DriverFailed | Starved

  /** The frames of one period, of which a stereo driver gives two samples each. */
  function FramesOf<T>(period: seq<T>, stereo: bool): seq<T> {
    if stereo then seq(|period| / 2, k requires 0 <= k < |period| / 2 => period[2 * k]) else period
  }

  function Samples(frames: nat, stereo: bool): nat { if stereo then 2 * frames else frames }

  function Flat<T>(periods: seq<seq<T>>, stereo: bool): seq<T> {
    if periods == [] then [] else FramesOf(periods[0], stereo) + Flat(periods[1..], stereo)
  }

  /** `driver` is what pcm_read will give, period by period; after the last one it fails. */
  class StreamIn<T(0)> {
    const periodSize: nat
    const stereo: bool
    const buffer: array<T>
    var framesIn: nat
    var procBuf: array<T>
    var procFramesIn: nat
    var readFailed: bool
    var driver: seq<seq<T>>
    /** All frames of the driver, and those that the preprocessors have consumed. */
    ghost const whole: seq<T>
    ghost var consumed: seq<T>

    ghost predicate Valid()
      reads this
    {
      && 0 < periodSize && buffer.Length == Samples(periodSize, stereo) && framesIn <= periodSize
      && procFramesIn <= procBuf.Length && procBuf != buffer
      && forall k :: 0 <= k < |driver| ==> |driver[k]| == Samples(periodSize, stereo)
    }

    /** The part of the period buffer that has not been taken yet. */
    ghost function Unread(): seq<T>
      requires Valid()
      reads this, buffer
    {
      buffer[periodSize - framesIn..periodSize]
    }

    /** All frames that have not reached the processing buffer. */
    ghost function Ahead(): seq<T>
      requires Valid()
      reads this, buffer
    {
      Unread() + Flat(driver, stereo)
    }

    /** What the preprocessors have left for later. */
    ghost function Leftover(): seq<T>
      requires Valid()
      reads this, procBuf
    {
      procBuf[..procFramesIn]
    }

    /** No frame is lost, doubled or moved. */
    ghost predicate Conserved()
      requires Valid()
      reads this, buffer, procBuf
    {
      whole == consumed + Leftover() + Ahead()
    }

    constructor (periodSize: nat, stereo: bool, driver: seq<seq<T>>)
      requires 0 < periodSize && forall k :: 0 <= k < |driver| ==> |driver[k]| == Samples(periodSize, stereo)
      ensures Valid() && Conserved() && fresh(buffer) && fresh(procBuf)
      ensures whole == Flat(driver, stereo) && consumed == []
    {
      this.periodSize, this.stereo := periodSize, stereo;
      buffer := new T[Samples(periodSize, stereo)];
      procBuf := new T[0];
      framesIn, procFramesIn, readFailed := 0, 0, false;
      this.driver := driver;
      whole, consumed := Flat(driver, stereo), [];
    }

    /** pcm_read, and the loop that discards the right channel. */
    method ReadPeriod(period: seq<T>)
      requires Valid() && |period| == Samples(periodSize, stereo)
      modifies buffer
      ensures buffer[..periodSize] == FramesOf(period, stereo)
    {
      forall i | 0 <= i < |period| { buffer[i] := period[i]; }
      if stereo {
        DiscardRight(buffer, periodSize);
      }
    }

    /** Makes at most `count` frames available, at index `start` of the period buffer. */
    method GetNextBuffer(count: nat) returns (n: nat, start: nat)
      requires Valid()
      modifies this`framesIn, this`readFailed, this`driver, buffer
      ensures Valid() && Ahead() == old(Ahead())
      ensures readFailed <==> old(framesIn) == 0 && old(driver) == []
      ensures n == Min(count, framesIn) && start == periodSize - framesIn
      ensures if readFailed then framesIn == 0 && Ahead() == [] else framesIn > 0
    {
      readFailed := false;
      assert framesIn == 0 ==> Unread() == [];
      if framesIn == 0 {
        if driver == [] {
          readFailed := true;
          return 0, periodSize;
        }
        ReadPeriod(driver[0]);
        driver := driver[1..];
        framesIn := periodSize;
      }
      n := if count > framesIn then framesIn else count;
      start := periodSize - framesIn;
    }

    method ReleaseBuffer(n: nat)
      requires Valid() && n <= framesIn
      modifies this`framesIn
      ensures Valid() && framesIn == old(framesIn) - n
    {
      framesIn := framesIn - n;
    }

    /** memcpy from the period buffer to the processing buffer. */
    method Copy(at: nat, start: nat, n: nat)
      requires Valid() && at + n <= procBuf.Length && start + n <= periodSize
      modifies procBuf
      ensures procBuf[..at + n] == old(procBuf[..at]) + buffer[start..start + n]
    {
      forall i | 0 <= i < n { procBuf[at + i] := buffer[start + i]; }
    }

    method Take(at: nat, start: nat, n: nat) returns (ghost taken: seq<T>)
      requires Valid() && at + n <= procBuf.Length && n <= framesIn && start == periodSize - framesIn
      modifies this`framesIn, procBuf
      ensures Valid() && |taken| == n && old(Ahead()) == taken + Ahead()
      ensures procBuf[..at + n] == old(procBuf[..at]) + taken
    {
      taken := buffer[start..start + n];
      ghost var rest := buffer[start + n..periodSize];
      assert Unread() == taken + rest;
      Regroup(taken, rest, Flat(driver, stereo));
      Copy(at, start, n);
      ReleaseBuffer(n);
      assert Unread() == rest;
    }

    /** One turn of the loop in ReadFrames. */
    method Fetch(at: nat, count: nat) returns (n: nat, ghost taken: seq<T>)
      requires Valid() && at + count <= procBuf.Length && count > 0
      modifies this`framesIn, this`readFailed, this`driver, buffer, procBuf
      ensures Valid() && |taken| == n <= count
      ensures if readFailed then n == 0 && Ahead() == [] else n > 0
      ensures old(Ahead()) == taken + Ahead()
      ensures procBuf[..at + n] == old(procBuf[..at]) + taken
    {
      var start;
      n, start := GetNextBuffer(count);
      taken := Take(at, start, n);
    }

    /** Moves `frames` frames to position `at` of the processing buffer, unless the driver fails. */
    method ReadFrames(at: nat, frames: nat) returns (ok: bool, ghost got: seq<T>)
      requires Valid() && at + frames <= procBuf.Length
      modifies this`framesIn, this`readFailed, this`driver, buffer, procBuf
      ensures Valid() && |got| <= frames
      ensures procBuf[..at + |got|] == old(procBuf[..at]) + got
      ensures if ok then |got| == frames else |got| < frames && Ahead() == []
      ensures old(Ahead()) == got + Ahead()
    {
      var written := 0;
      got := [];
      while written < frames
        invariant Valid() && written == |got| <= frames
        invariant procBuf[..at + written] == old(procBuf[..at]) + got
        invariant old(Ahead()) == got + Ahead()
        decreases frames - written
      {
        var n;
        ghost var taken;
        n, taken := Fetch(at + written, frames - written);
        if readFailed {
          return false, got;
        }
        Regroup(old(procBuf[..at]), got, taken);
        Regroup(got, taken, Ahead());
        got := got + taken;
        written := written + n;
      }
      ok := true;
    }

    /** realloc. */
    method Reserve(frames: nat)
      requires Valid()
      modifies this`procBuf
      ensures Valid() && procBuf.Length >= frames && Leftover() == old(Leftover())
      ensures fresh(procBuf) || procBuf == old(procBuf)
    {
      if procBuf.Length < frames {
        var larger := new T[frames];
        forall i | 0 <= i < procFramesIn { larger[i] := procBuf[i]; }
        assert larger[..procFramesIn] == procBuf[..procFramesIn];
        procBuf := larger;
      }
    }

    /** The first n frames have been consumed; the others move to the front. */
    method Consume(n: nat)
      requires Valid() && n <= procFramesIn
      modifies this`procFramesIn, this`consumed, procBuf
      ensures Valid() && procFramesIn == old(procFramesIn) - n
      ensures consumed == old(consumed) + old(Leftover())[..n] && Leftover() == old(Leftover())[n..]
      ensures old(Conserved()) ==> Conserved()
    {
      Regroup(consumed, procBuf[..n], procBuf[n..procFramesIn]);
      assert Leftover() == procBuf[..n] + procBuf[n..procFramesIn];
      var left := procFramesIn - n;
      var i := 0;
      while i < left
        invariant i <= left && unchanged(this)
        invariant forall k :: 0 <= k < i ==> procBuf[k] == old(procBuf[n + k])
        invariant forall k :: i <= k < procBuf.Length ==> procBuf[k] == old(procBuf[k])
      {
        procBuf[i] := procBuf[n + i];
        i := i + 1;
      }
      consumed := consumed + old(procBuf[..n]);
      procFramesIn := left;
    }

    method TopUp(frames: nat) returns (ok: bool, ghost lost: seq<T>)
      requires Valid() && Conserved() && procFramesIn <= frames <= procBuf.Length
      modifies this`framesIn, this`readFailed, this`driver, this`procFramesIn, buffer, procBuf
      ensures Valid()
      ensures if ok then Conserved() && procFramesIn == frames
              else whole == consumed + Leftover() + lost && Ahead() == [] && |lost| + procFramesIn < frames
    {
      ghost var leftover, ahead := Leftover(), Ahead();
      ok, lost := ReadFrames(procFramesIn, frames - procFramesIn);
      Moved(consumed, leftover, ahead, lost, Ahead());
      ghost var n := procFramesIn;
      assert procBuf[..n] == procBuf[..n + |lost|][..n] == leftover;
      if ok {
        procFramesIn := frames;
        assert Leftover() == leftover + lost;
      }
    }

    /** The reload at the head of the loop in process_frames. */
    method Reload(frames: nat) returns (ok: bool, ghost lost: seq<T>)
      requires Valid() && Conserved()
      modifies this`framesIn, this`readFailed, this`driver, this`procBuf, this`procFramesIn, buffer, procBuf
      ensures Valid() && (fresh(procBuf) || procBuf == old(procBuf))
      ensures if ok then Conserved() && procFramesIn >= frames
              else whole == consumed + Leftover() + lost && Ahead() == [] && |lost| + procFramesIn < frames
    {
      ok, lost := true, [];
      if procFramesIn < frames {
        Reserve(frames);
        ok, lost := TopUp(frames);
      }
    }

    /** One call of the preprocessors, with room for so many frames. */
    method Call(p: Process, room: nat) returns (made: nat)
      requires Valid() && Conserved()
      modifies this`procFramesIn, this`consumed, procBuf
      ensures Valid() && Conserved() && old(consumed) <= consumed && made == Min(p.produced, room)
      ensures |consumed| == |old(consumed)| + Min(p.consumed, old(procFramesIn))
    {
      Consume(Min(p.consumed, procFramesIn));
      made := Min(p.produced, room);
    }

    /**
     process_frames. `script` is what the calls of the preprocessors do, one after another; Starved
     means that it has come to its end. `offers` is what each call was offered.
     */
    method ProcessFrames(frames: nat, script: seq<Process>)
      returns (outcome: Outcome, written: nat, ghost offers: seq<Offer>, ghost lost: seq<T>)
      requires Valid() && Conserved()
      modifies this, buffer, procBuf
      ensures Valid() && old(consumed) <= consumed && |offers| <= |script|
      ensures |consumed| == |old(consumed)| + Taken(script, offers) && written == Made(script, offers)
      ensures outcome == Delivered <==> written == frames
      ensures outcome != DriverFailed ==> Conserved()
      ensures outcome == DriverFailed ==> whole == consumed + Leftover() + lost && Ahead() == [] && |lost| < frames
      ensures forall k :: 0 <= k < |offers| ==> offers[k].frames >= frames && 0 < offers[k].room <= frames
    {
      written, offers, lost := 0, [], [];
      var calls := 0;
      while written < frames
        invariant Valid() && Conserved() && written <= frames && calls == |offers| <= |script|
        invariant old(consumed) <= consumed && |consumed| == |old(consumed)| + Taken(script, offers)
        invariant written == Made(script, offers)
        invariant fresh(procBuf) || procBuf == old(procBuf)
        invariant forall k :: 0 <= k < |offers| ==> offers[k].frames >= frames && 0 < offers[k].room <= frames
        decreases |script| - calls
      {
        var ok;
        ok, lost := Reload(frames);
        if !ok { return DriverFailed, written, offers, lost; }
        if calls == |script| { return Starved, written, offers, []; }
        OneCallMore(script, offers, Offer(procFramesIn, frames - written));
        offers := offers + [Offer(procFramesIn, frames - written)];
        var made := Call(script[calls], frames - written);
        calls := calls + 1;
        if made == 0 { continue; }
        written := written + made;
      }
      outcome := Delivered;
    }
  }

  lemma Regroup<T>(a: seq<T>, b: seq<T>, c: seq<T>)
    ensures (a + b) + c == a + (b + c)
  {
  }

  lemma Moved<T>(consumed: seq<T>, leftover: seq<T>, ahead: seq<T>, got: seq<T>, rest: seq<T>)
    requires ahead == got + rest
    ensures consumed + leftover + ahead == consumed + (leftover + got) + rest
    ensures rest == [] ==> consumed + leftover + ahead == consumed + leftover + got
  {
    Regroup(consumed + leftover, got, rest);
    Regroup(consumed, leftover, got);
  }
}
