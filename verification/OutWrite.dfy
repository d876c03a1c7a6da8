/**
 The throttle of audio output: how long a write sleeps before it hands its frames to the driver, and
 how the fill level it aims at follows its target.
 */
module OutWrite {
  import opened Basics

  // A period is 512 frames and the rate 44100 frames a second; both stand as literals in the arithmetic.
  const SHORT_COUNT := 2
  const LONG_COUNT := 8
  const MIN_SLEEP := 2000
  const MAX_SLEEP := 512 * 2 * 1000000 / 44100
  const STEP := 512 / 4

  /** What the driver says: the number of frames that fit, or an error. */
  datatype Reading = Available(frames: nat) | Failed

  /** A C int, and the unsigned type that a period size brings into an expression. */
  type Int32 = x: int | -0x8000_0000 <= x < 0x8000_0000

  function Unsigned(x: int): int { x % 0x1_0000_0000 }

  function Signed(x: int): int { if x < 0x8000_0000 then x else x - 0x1_0000_0000 }

  function Fill(bufferSize: nat, reading: Reading): (fill: int)
    ensures if reading.Failed? then fill == -1 else fill + reading.frames == bufferSize
  {
    if reading.Failed? then -1 else bufferSize - reading.frames
  }

  /** The sleep that would bring the fill down to the threshold. */
  function Sleep(fill: int, threshold: int): int
    requires fill > threshold
  {
    (fill - threshold) * 1000000 / 44100
  }

  function SumOf(sleeps: seq<int>): int {
    if sleeps == [] then 0 else SumOf(sleeps[..|sleeps| - 1]) + sleeps[|sleeps| - 1]
  }

  /**
   Sleep k was asked for because reading k was above the threshold by enough; it is what would bring
   the fill down to the threshold, cut to what remains of the limit.
   */
  ghost predicate Asked(bufferSize: nat, read: nat -> Reading, threshold: int, sleeps: seq<int>, k: nat)
    requires k < |sleeps|
  {
    var fill := Fill(bufferSize, read(k));
    && fill > threshold && Sleep(fill, threshold) >= MIN_SLEEP
    && sleeps[k] == Min(Sleep(fill, threshold), MAX_SLEEP - SumOf(sleeps[..k]))
  }

  ghost predicate Each(bufferSize: nat, read: nat -> Reading, threshold: int, sleeps: seq<int>) {
    forall k :: 0 <= k < |sleeps| ==> 0 <= sleeps[k] && Asked(bufferSize, read, threshold, sleeps, k)
  }

  /** A run of sleeps, none of which has reached the limit if the total has not. */
  ghost predicate Slept(bufferSize: nat, read: nat -> Reading, threshold: int, sleeps: seq<int>, total: int) {
    && total == SumOf(sleeps) <= MAX_SLEEP && |sleeps| * 2000 <= total
    && Each(bufferSize, read, threshold, sleeps)
  }

  lemma SleptMore(bufferSize: nat, read: nat -> Reading, threshold: int, sleeps: seq<int>, total: int, sleep: int, x: int)
    requires Slept(bufferSize, read, threshold, sleeps, total)
    requires var fill := Fill(bufferSize, read(|sleeps|)); fill > threshold && sleep == Sleep(fill, threshold) >= MIN_SLEEP
    requires x == Min(sleep, MAX_SLEEP - total)
    ensures var more := sleeps + [x];
      && Each(bufferSize, read, threshold, more)
      && (if total + sleep <= MAX_SLEEP then Slept(bufferSize, read, threshold, more, total + sleep) else SumOf(more) == MAX_SLEEP)
  {
    var more := sleeps + [x];
    SumAppend(sleeps, x);
    forall k | 0 <= k < |more| ensures 0 <= more[k] && Asked(bufferSize, read, threshold, more, k) {
      assert more[..k] == sleeps[..k];
      assert k < |sleeps| ==> Asked(bufferSize, read, threshold, sleeps, k);
      assert sleeps[..|sleeps|] == sleeps;
    }
  }

  /** A step of the threshold after a write that last saw `fill`, or -1. */
  function Next(threshold: int, target: int, fill: int): int {
    if threshold > target then Max(threshold - STEP, target)
    else if threshold < target then Min(threshold + STEP, target)
    else if Depleted(target, fill) then (fill / 512 + 1) * 512 + STEP
    else threshold
  }

  predicate Depleted(target: int, fill: int) {
    fill != -1 && fill < target && target - fill > 1024
  }

  datatype BufferType = NoType | Short | Long

  function TargetOf(t: BufferType): int {
    512 * (if t == Long then LONG_COUNT else SHORT_COUNT)
  }

  class StreamOut {
    var writeThreshold: int
    var curWriteThreshold: int
    var bufferType: BufferType

    ghost predicate Valid()
      reads this
    {
      bufferType != NoType ==>
        writeThreshold == TargetOf(bufferType) && curWriteThreshold <= TargetOf(Long)
    }

    constructor ()
      ensures Valid() && bufferType == NoType
    {
      bufferType := NoType;
    }

    /** A change of the screen or of capture: a new target, which the first write also starts at. */
    method SetBufferType(long: bool)
      requires Valid()
      modifies this
      ensures Valid() && bufferType == (if long then Long else Short)
      ensures writeThreshold == if long then 4096 else 1024
      ensures curWriteThreshold == if old(bufferType) == NoType then writeThreshold else old(curWriteThreshold)
    {
      var wanted := if long then Long else Short;
      if wanted != bufferType {
        var count := if wanted == Long then LONG_COUNT else SHORT_COUNT;
        writeThreshold := 512 * count;
        if bufferType == NoType {
          curWriteThreshold := writeThreshold;
        }
        bufferType := wanted;
      }
    }

    /**
     Sleeps while the driver holds more than the threshold. `read` is what the driver answers, call by
     call, and `sleeps` are the sleeps asked for.
     */
    method Throttle(bufferSize: nat, read: nat -> Reading) returns (fill: int, sleeps: seq<int>)
      requires Valid() && bufferType != NoType
      ensures 0 <= SumOf(sleeps) <= 23219 && |sleeps| <= 12
      ensures Each(bufferSize, read, curWriteThreshold, sleeps)
      ensures fill == Fill(bufferSize, read(|sleeps|)) || (sleeps != [] && fill == Fill(bufferSize, read(|sleeps| - 1)) && SumOf(sleeps) == 23219)
      ensures read(|sleeps|).Failed? || fill <= curWriteThreshold || Sleep(fill, curWriteThreshold) < 2000 || SumOf(sleeps) == 23219
    {
      var total := 0;
      sleeps := [];
      while true
        invariant Slept(bufferSize, read, curWriteThreshold, sleeps, total)
        decreases MAX_SLEEP - total
      {
        var reading := read(|sleeps|);
        if reading.Failed? {
          fill := -1;
          break;
        }
        fill := bufferSize - reading.frames;
        if fill > curWriteThreshold {
          var sleep := Sleep(fill, curWriteThreshold);
          if sleep < MIN_SLEEP { break; }
          sleeps, total := Nap(bufferSize, read, sleeps, total, sleep);
        }
        if !(fill > curWriteThreshold && total <= MAX_SLEEP) { break; }
      }
    }

    /** usleep, for as long as the limit allows. */
    method Nap(ghost bufferSize: nat, ghost read: nat -> Reading, sleeps: seq<int>, total: int, sleep: int)
      returns (longer: seq<int>, sum: int)
      requires Slept(bufferSize, read, curWriteThreshold, sleeps, total)
      requires var fill := Fill(bufferSize, read(|sleeps|));
        fill > curWriteThreshold && sleep == Sleep(fill, curWriteThreshold) >= MIN_SLEEP
      ensures sum == total + sleep && |longer| == |sleeps| + 1
      ensures if sum <= MAX_SLEEP then Slept(bufferSize, read, curWriteThreshold, longer, sum)
              else SumOf(longer) == MAX_SLEEP && Each(bufferSize, read, curWriteThreshold, longer)
    {
      var time := sleep;
      sum := total + time;
      if sum > MAX_SLEEP {
        time := MAX_SLEEP - (sum - time);
      }
      SleptMore(bufferSize, read, curWriteThreshold, sleeps, total, sleep, time);
      longer := sleeps + [time];
    }

    /** The step of the threshold at the end of a write; the reset is computed on unsigned values. */
    method Adjust(fill: Int32)
      requires Valid() && bufferType != NoType
      modifies this`curWriteThreshold
      ensures Valid() && curWriteThreshold == Next(old(curWriteThreshold), writeThreshold, fill)
    {
      if curWriteThreshold > writeThreshold {
        curWriteThreshold := curWriteThreshold - STEP;
        if curWriteThreshold < writeThreshold {
          curWriteThreshold := writeThreshold;
        }
      } else if curWriteThreshold < writeThreshold {
        curWriteThreshold := curWriteThreshold + STEP;
        if curWriteThreshold > writeThreshold {
          curWriteThreshold := writeThreshold;
        }
      } else if fill != -1 && fill < writeThreshold && writeThreshold - fill > 1024 {
        UnsignedReset(fill);
        curWriteThreshold := Signed(Unsigned(Unsigned(Unsigned(fill) / 512 + 1) * 512));
        curWriteThreshold := Signed(Unsigned(Unsigned(curWriteThreshold) + STEP));
      }
    }
  }

  /** The detour through unsigned values rounds down for every fill, because 512 divides their range. */
  lemma UnsignedReset(fill: Int32)
    requires fill < 0x1_0000
    ensures var x := Signed(Unsigned(Unsigned(Unsigned(fill) / 512 + 1) * 512));
      x == (fill / 512 + 1) * 512 && Signed(Unsigned(Unsigned(x) + 128)) == x + 128
  {
    UnsignedPeriods(fill);
    var r := fill / 512 + 1;
    assert -0x40_0000 < r <= 128;
    if fill < 0 {
      assert Unsigned(Unsigned(fill) / 512 + 1) == 0x80_0000 + r;
    }
  }

  lemma UnsignedPeriods(fill: Int32)
    ensures Unsigned(fill) / 512 == if fill < 0 then fill / 512 + 0x80_0000 else fill / 512
  {
    if fill < 0 {
      assert Unsigned(fill) == fill + 0x80_0000 * 512;
    }
  }

  /**
   A sleep is as many whole microseconds as the rate needs to play the frames above the threshold:
   what is played meanwhile brings the fill down to it and not below.
   */
  lemma SleepDrains(fill: int, threshold: int)
    requires fill > threshold
    ensures var sleep := Sleep(fill, threshold);
      44100 * sleep <= (fill - threshold) * 1000000 < 44100 * (sleep + 1)
  {
    QuotientBounds((fill - threshold) * 1000000);
  }

  lemma QuotientBounds(x: int)
    ensures 44100 * (x / 44100) <= x < 44100 * (x / 44100 + 1)
  {
  }

  lemma SumAppend(sleeps: seq<int>, x: int)
    ensures SumOf(sleeps + [x]) == SumOf(sleeps) + x
  {
    assert (sleeps + [x])[..|sleeps|] == sleeps;
  }

  // ---------------------------------------------------------------------------------------
  // Following the target
  // ---------------------------------------------------------------------------------------

  function Distance(x: int, y: int): nat { if x < y then y - x else x - y }

  /** Away from its target the threshold moves a quarter period towards it, and never past it. */
  lemma StepsTowards(threshold: int, target: int, fill: int)
    requires threshold != target
    ensures var next := Next(threshold, target, fill);
      && Distance(next, target) == (if Distance(threshold, target) > STEP then Distance(threshold, target) - STEP else 0)
      && (threshold < target ==> threshold < next <= target) && (threshold > target ==> target <= next < threshold)
  {
  }

  /** At its target it stays, unless the driver is depleted: then it restarts just above the fill. */
  lemma ResetLandsBetween(target: int, fill: int)
    ensures var next, depleted := Next(target, target, fill), fill != -1 && fill < target - 2 * 512;
      if depleted then fill < next < target && 128 < next - fill <= 512 + 128 && next % 512 == 128 else next == target
  {
  }

  /** The threshold after a run of writes, given what each of them last saw. */
  function After(threshold: int, target: int, fills: seq<int>): int {
    if fills == [] then threshold
    else Next(After(threshold, target, fills[..|fills| - 1]), target, fills[|fills| - 1])
  }

  /** With enough writes the target is reached, whatever the fills; how many is exact. */
  lemma {:induction false} Converges(threshold: int, target: int, fills: seq<int>)
    requires (|fills| - 1) * STEP < Distance(threshold, target)
    ensures Distance(After(threshold, target, fills), target)
         == if |fills| * STEP < Distance(threshold, target) then Distance(threshold, target) - |fills| * STEP else 0
  {
    if fills != [] {
      var before := fills[..|fills| - 1];
      Converges(threshold, target, before);
      StepsTowards(After(threshold, target, before), target, fills[|fills| - 1]);
    }
  }

  /** Over any run of writes and for any fills, it never exceeds the larger of its start and its target. */
  lemma {:induction false} StaysBelow(threshold: int, target: int, fills: seq<int>)
    ensures After(threshold, target, fills) <= Max(threshold, target)
  {
    if fills != [] {
      StaysBelow(threshold, target, fills[..|fills| - 1]);
      ResetLandsBetween(target, fills[|fills| - 1]);
    }
  }

  /** A reset is positive exactly if the fill is not more than a period below zero. */
  lemma ResetPositiveExactly(target: int, fill: int)
    requires Depleted(target, fill)
    ensures Next(target, target, fill) > 0 <==> fill >= -512
  {
  }

  /** So with such fills, which are all there are while the driver reports no more room than its buffer has, it stays positive. */
  lemma {:induction false} StaysPositive(threshold: int, target: int, fills: seq<int>)
    requires 0 < threshold && 0 < target && forall k :: 0 <= k < |fills| ==> fills[k] >= -512
    ensures 0 < After(threshold, target, fills)
  {
    if fills != [] {
      var last := fills[|fills| - 1];
      StaysPositive(threshold, target, fills[..|fills| - 1]);
      if Depleted(target, last) {
        ResetPositiveExactly(target, last);
      }
    }
  }
}
