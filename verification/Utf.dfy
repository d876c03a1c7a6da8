/**
 The conversion of a UTF-16 string to UTF-8, against the definitions of the two encodings: section
 2.2 of RFC 2781 and section 3 of RFC 3629. Shifts and masks are written as / and %.
 */
module Utf {
  import opened Basics

  type Unit = x: int | 0 <= x < 0x10000

  predicate High(u: Unit) { 0xD800 <= u < 0xDC00 }

  predicate Low(u: Unit) { 0xDC00 <= u < 0xE000 }

  /** The bytes of one code point. */
  function Bytes(p: int): seq<Byte>
    requires 0 <= p < 0x110000
  {
    if p < 0x80 then [p]
    else if p < 0x800 then [0xC0 + p / 0x40, 0x80 + p % 0x40]
    else if p < 0x10000 then [0xE0 + p / 0x1000, 0x80 + p / 0x40 % 0x40, 0x80 + p % 0x40]
    else [0xF0 + p / 0x40000, 0x80 + p / 0x1000 % 0x40, 0x80 + p / 0x40 % 0x40, 0x80 + p % 0x40]
  }

  /** Code points that an encoding may carry. */
  predicate Scalar(p: int) { 0 <= p < 0x110000 && !(0xD800 <= p < 0xE000) }

  ghost predicate Scalars(ps: seq<int>) { forall k :: 0 <= k < |ps| ==> Scalar(ps[k]) }

  function Encode(ps: seq<int>): seq<Byte>
    requires Scalars(ps)
  {
    if ps == [] then [] else Bytes(ps[0]) + Encode(ps[1..])
  }

  function Pair(hi: Unit, lo: Unit): int { 0x10000 + hi % 0x400 * 0x400 + lo % 0x400 }

  function Prepend(ps: seq<int>, rest: Option<seq<int>>): Option<seq<int>> {
    if rest.None? then None else Some(ps + rest.value)
  }

  /** The code points from unit i up to the first zero unit, unless something is not a character. */
  function Points(s: seq<Unit>, i: nat): (r: Option<seq<int>>)
    requires i <= |s|
    ensures r.Some? ==> Scalars(r.value)
    decreases |s| - i
  {
    if i == |s| || s[i] == 0 then Some([])
    else if High(s[i]) && i + 1 < |s| && Low(s[i + 1]) then Prepend([Pair(s[i], s[i + 1])], Points(s, i + 2))
    else if High(s[i]) || Low(s[i]) || s[i] >= 0xFFFE then None
    else Prepend([s[i]], Points(s, i + 1))
  }

  lemma {:induction false} EncodeAppend(ps: seq<int>, p: int)
    requires Scalars(ps) && Scalar(p)
    ensures Scalars(ps + [p]) && Encode(ps + [p]) == Encode(ps) + Bytes(p)
  {
    if ps != [] {
      assert (ps + [p])[1..] == ps[1..] + [p];
      EncodeAppend(ps[1..], p);
    }
  }

  lemma PrependNothing(r: Option<seq<int>>)
    ensures Prepend([], r) == r
  {
    assert r.Some? ==> [] + r.value == r.value;
  }

  lemma PrependStep(done: seq<int>, p: int, r: Option<seq<int>>)
    ensures Prepend(done, Prepend([p], r)) == Prepend(done + [p], r)
  {
    if r.Some? {
      assert done + ([p] + r.value) == (done + [p]) + r.value;
    }
  }

  // ---------------------------------------------------------------------------------------
  // The loop
  // ---------------------------------------------------------------------------------------

  /** The number of units of the character at i; 0 if the loop stops there. */
  function Width16(s: seq<Unit>, i: nat): (n: nat)
    requires i <= |s|
    ensures i + n <= |s|
  {
    if i == |s| || s[i] == 0 then 0
    else if High(s[i]) && i + 1 < |s| && Low(s[i + 1]) then 2
    else if High(s[i]) || Low(s[i]) || s[i] >= 0xFFFE then 0
    else 1
  }

  /** The character of n units at i. */
  function CharAt(s: seq<Unit>, i: nat): int
    requires i <= |s| && Width16(s, i) > 0
  {
    if Width16(s, i) == 2 then Pair(s[i], s[i + 1]) else s[i]
  }

  /** Where the loop stops, coming from i, and the characters that it has written by then. */
  function Stop(s: seq<Unit>, i: nat): (e: nat)
    requires i <= |s|
    ensures i <= e <= |s| && Width16(s, e) == 0
    decreases |s| - i
  {
    var n := Width16(s, i);
    if n == 0 then i else Stop(s, i + n)
  }

  function Read(s: seq<Unit>, i: nat): (ps: seq<int>)
    requires i <= |s|
    ensures Scalars(ps)
    decreases |s| - i
  {
    var n := Width16(s, i);
    if n == 0 then [] else [CharAt(s, i)] + Read(s, i + n)
  }

  /** The bytes that are allocated, and those that are stored; a null result stores no terminator. */
  function Capacity(s: seq<Unit>): nat { 2 * |s| + 1 }

  function Stored(s: seq<Unit>): nat {
    |Encode(Read(s, 0))| + if Points(s, 0).Some? then 1 else 0
  }

  lemma OneChar(s: seq<Unit>, i: nat)
    requires i <= |s| && Width16(s, i) > 0
    ensures var p, n := CharAt(s, i), i + Width16(s, i);
      Scalar(p) && Points(s, i) == Prepend([p], Points(s, n)) && Read(s, i) == [p] + Read(s, n)
  {
  }

  lemma {:induction false} EncodeLength(a: seq<int>, b: seq<int>)
    requires Scalars(a) && Scalars(b)
    ensures Scalars(a + b) && |Encode(a + b)| == |Encode(a)| + |Encode(b)|
  {
    if a == [] {
      assert a + b == b;
    } else {
      assert (a + b)[1..] == a[1..] + b;
      EncodeLength(a[1..], b);
    }
  }

  /**
   Characters read so far and written as w: `all` and `read` are what the whole input gives, `rest`
   and `tail` what it gives from here on.
   */
  ghost predicate Progress(done: seq<int>, w: seq<Byte>, all: Option<seq<int>>, rest: Option<seq<int>>, read: seq<int>, tail: seq<int>) {
    Scalars(done) && w == Encode(done) && all == Prepend(done, rest) && read == done + tail
  }

  lemma Progressed(done: seq<int>, w: seq<Byte>, all: Option<seq<int>>, rest: Option<seq<int>>, read: seq<int>, tail: seq<int>,
                   p: int, rest': Option<seq<int>>, tail': seq<int>)
    requires Progress(done, w, all, rest, read, tail) && Scalar(p)
    requires rest == Prepend([p], rest') && tail == [p] + tail'
    ensures Progress(done + [p], w + Bytes(p), all, rest', read, tail')
  {
    EncodeAppend(done, p);
    PrependStep(done, p, rest');
    assert done + ([p] + tail') == (done + [p]) + tail';
  }

  /** The same, at unit i of s. */
  ghost predicate At(s: seq<Unit>, done: seq<int>, w: seq<Byte>, i: nat) {
    i <= |s| && Progress(done, w, Points(s, 0), Points(s, i), Read(s, 0), Read(s, i))
  }

  lemma NextChar(s: seq<Unit>, done: seq<int>, w: seq<Byte>, i: nat)
    requires At(s, done, w, i) && Width16(s, i) > 0
    ensures var p := CharAt(s, i); Scalar(p) && At(s, done + [p], w + Bytes(p), i + Width16(s, i))
  {
    var p, n := CharAt(s, i), i + Width16(s, i);
    OneChar(s, i);
    Progressed(done, w, Points(s, 0), Points(s, i), Read(s, 0), Read(s, i), p, Points(s, n), Read(s, n));
  }

  /** What has been written is stored in the end, and all of it once the loop has stopped. */
  lemma WrittenIsStored(s: seq<Unit>, done: seq<int>, w: seq<Byte>, i: nat)
    requires At(s, done, w, i)
    ensures |w| <= Stored(s)
    ensures Width16(s, i) == 0 ==> Stored(s) == |w| + if Points(s, 0).Some? then 1 else 0
  {
    EncodeLength(done, Read(s, i));
    assert done + [] == done;
  }

  lemma Finished(s: seq<Unit>, done: seq<int>, w: seq<Byte>, i: nat)
    requires At(s, done, w, i) && Width16(s, i) == 0
    ensures Points(s, 0) == if i == |s| || s[i] == 0 then Some(done) else None
  {
    assert done + [] == done;
  }

  /** What is known at unit i, and what more if the loop stops there. */
  lemma Here(s: seq<Unit>, done: seq<int>, w: seq<Byte>, i: nat)
    requires At(s, done, w, i)
    ensures w == Encode(done) && |w| <= Stored(s)
    ensures Width16(s, i) == 0 ==>
      if i == |s| || s[i] == 0 then Points(s, 0) == Some(done) && Stored(s) == |w| + 1
      else Points(s, 0) == None && Stored(s) == |w|
  {
    WrittenIsStored(s, done, w, i);
    if Width16(s, i) == 0 {
      Finished(s, done, w, i);
    }
  }

  /** One more character written. */
  lemma Onward(s: seq<Unit>, done: seq<int>, w: seq<Byte>, i: nat, more: seq<Byte>)
    requires At(s, done, w, i) && Width16(s, i) > 0 && more == w + Bytes(CharAt(s, i))
    ensures At(s, done + [CharAt(s, i)], more, i + Width16(s, i)) && |more| <= Stored(s)
  {
    NextChar(s, done, w, i);
    WrittenIsStored(s, done + [CharAt(s, i)], more, i + Width16(s, i));
  }

  /** The stores for one unit that is no surrogate. */
  method StoreUnit(w: seq<Byte>, wc: Unit) returns (out: seq<Byte>)
    requires wc < 0xFFFE
    ensures out == w + Bytes(wc)
  {
    out := w;
    if wc < 0x80 {
      out := out + [wc];
    } else if wc < 0x800 {
      out := out + [0xC0 + wc / 0x40];
      out := out + [0x80 + wc % 0x40];
    } else {
      out := out + [0xE0 + wc / 0x1000];
      out := out + [0x80 + wc / 0x40 % 0x40];
      out := out + [0x80 + wc % 0x40];
    }
  }

  /** The stores for a pair of surrogates. */
  method StorePair(w: seq<Byte>, wc: Unit, wc2: Unit) returns (out: seq<Byte>)
    requires High(wc) && Low(wc2)
    ensures out == w + Bytes(Pair(wc, wc2))
  {
    var p: int := 0x10000 + wc as int % 0x400 * 0x400 + wc2 as int % 0x400;
    out := w + [0xF0 + p / 0x40000];
    out := out + [0x80 + p / 0x1000 % 0x40];
    out := out + [0x80 + p / 0x40 % 0x40];
    out := out + [0x80 + p % 0x40];
  }

  /** Text is the result with its terminator. Overflow means that a store went past the allocation. */
  datatype Result = Text(bytes: seq<Byte>) | Null | Overflow

  /** The conversion. */
  method Convert(s: seq<Unit>) returns (out: Result)
    ensures out.Overflow? <==> Stored(s) > Capacity(s)
    ensures out.Null? <==> Stored(s) <= Capacity(s) && Points(s, 0).None?
    ensures out.Text? ==> Points(s, 0).Some? && out.bytes == Encode(Points(s, 0).value) + [0]
  {
    var w: seq<Byte> := [];
    ghost var done: seq<int> := [];
    var i := 0;
    PrependNothing(Points(s, 0));
    assert [] + Read(s, 0) == Read(s, 0);
    while i < |s|
      invariant At(s, done, w, i) && |w| <= Capacity(s)
    {
      Here(s, done, w, i);
      ghost var at, before := i, w;
      var wc := s[i];
      i := i + 1;
      if wc == 0 {
        i := i - 1;
        break;
      } else if wc < 0xD800 || wc > 0xDFFF {
        if wc >= 0xFFFE { return Null; }
        w := StoreUnit(w, wc);
      } else {
        if wc >= 0xDC00 { return Null; }
        if i >= |s| { return Null; }
        var wc2 := s[i];
        i := i + 1;
        if wc2 < 0xDC00 || wc2 > 0xDFFF { return Null; }
        w := StorePair(w, wc, wc2);
      }
      Onward(s, done, before, at, w);
      done := done + [CharAt(s, at)];
      if |w| > Capacity(s) { return Overflow; }
    }
    Here(s, done, w, i);
    w := w + [0];
    if |w| > Capacity(s) { return Overflow; }
    return Text(w);
  }

  // ---------------------------------------------------------------------------------------
  // The allocation
  // ---------------------------------------------------------------------------------------

  /** How many units of s between i and e take three bytes, and how many take one. */
  function Wide(s: seq<Unit>, i: nat, e: nat): (n: nat)
    requires i <= e <= |s|
    ensures n <= e - i
    decreases e - i
  {
    if i == e then 0 else Wide(s, i + 1, e) + if s[i] >= 0x800 && !High(s[i]) && !Low(s[i]) then 1 else 0
  }

  function Narrow(s: seq<Unit>, i: nat, e: nat): nat
    requires i <= e <= |s|
    decreases e - i
  {
    if i == e then 0 else Narrow(s, i + 1, e) + if s[i] < 0x80 then 1 else 0
  }

  lemma CharLength(s: seq<Unit>, i: nat, e: nat)
    requires i <= |s| && Width16(s, i) > 0 && i + Width16(s, i) <= e <= |s|
    ensures var n := Width16(s, i);
      |Bytes(CharAt(s, i))| == 2 * n + (Wide(s, i, e) - Wide(s, i + n, e)) - (Narrow(s, i, e) - Narrow(s, i + n, e))
  {
    if Width16(s, i) == 2 {
      assert Wide(s, i, e) == Wide(s, i + 1, e) == Wide(s, i + 2, e);
      assert Narrow(s, i, e) == Narrow(s, i + 1, e) == Narrow(s, i + 2, e);
    }
  }

  lemma ReadOne(s: seq<Unit>, i: nat)
    requires i <= |s| && Width16(s, i) > 0
    ensures var n := Width16(s, i);
      |Encode(Read(s, i))| == |Bytes(CharAt(s, i))| + |Encode(Read(s, i + n))| && Stop(s, i) == Stop(s, i + n)
  {
    OneChar(s, i);
    EncodeCons(CharAt(s, i), Read(s, i + Width16(s, i)));
  }

  lemma {:induction false} ReadLength(s: seq<Unit>, i: nat)
    requires i <= |s|
    ensures var e := Stop(s, i); |Encode(Read(s, i))| == 2 * (e - i) + Wide(s, i, e) - Narrow(s, i, e)
    decreases |s| - i
  {
    var n := Width16(s, i);
    if n > 0 {
      ReadLength(s, i + n);
      CharLength(s, i, Stop(s, i));
      ReadOne(s, i);
    }
  }

  lemma {:induction false} StopEnds(s: seq<Unit>, i: nat)
    requires i <= |s|
    ensures Stop(s, i) <= End(s, i)
    ensures Points(s, i).Some? <==> Stop(s, i) == End(s, i)
    ensures Points(s, i).Some? ==> Points(s, i).value == Read(s, i)
    decreases |s| - i
  {
    var n := Width16(s, i);
    if n > 0 {
      StopEnds(s, i + n);
      if n == 2 {
        assert End(s, i) == End(s, i + 1) == End(s, i + 2);
      }
    }
  }

  /**
   The exact condition for the allocation to be too small: up to where the loop stops, there are more
   units of three bytes than units of one byte, by more than two for each unit that is not read; a
   null result has one byte more to spare, because it writes no terminator.
   */
  lemma OverflowExactly(s: seq<Unit>)
    ensures var e := Stop(s, 0); var spare := 2 * (|s| - e) + if Points(s, 0).None? then 1 else 0;
      Stored(s) > Capacity(s) <==> Wide(s, 0, e) > Narrow(s, 0, e) + spare
  {
    ReadLength(s, 0);
  }

  /** The same for a result that is not null, said of the first zero unit. */
  lemma TextOverflowExactly(s: seq<Unit>)
    requires Points(s, 0).Some?
    ensures var e := End(s, 0);
      |Encode(Points(s, 0).value)| + 1 > Capacity(s) <==> Wide(s, 0, e) > Narrow(s, 0, e) + 2 * (|s| - e)
  {
    StopEnds(s, 0);
    OverflowExactly(s);
  }

  /** A zero in the first two thirds of the input is enough for the allocation to hold the result. */
  lemma EarlyZeroFits(s: seq<Unit>)
    requires 3 * End(s, 0) <= 2 * |s|
    ensures Stored(s) <= Capacity(s)
  {
    ReadLength(s, 0);
    StopEnds(s, 0);
  }

  /** One unit of three bytes and nothing else: four bytes with the terminator, and three allocated. */
  lemma OneWideUnit()
    ensures Stored([0x800]) == 4 && Capacity([0x800]) == 3
  {
    var s: seq<Unit> := [0x800];
    assert Read(s, 0) == [0x800] + Read(s, 1);
    assert Encode([0x800]) == Bytes(0x800) + Encode([]);
    StopEnds(s, 0);
  }

  // ---------------------------------------------------------------------------------------
  // The null result
  // ---------------------------------------------------------------------------------------

  /** Index of the first zero unit from i on, or the length. */
  function End(s: seq<Unit>, i: nat): (e: nat)
    requires i <= |s|
    ensures i <= e <= |s|
    decreases |s| - i
  {
    if i == |s| || s[i] == 0 then i else End(s, i + 1)
  }

  /** Unit i is half of a pair without its other half. */
  predicate Lone(s: seq<Unit>, i: nat)
    requires i < |s|
  {
    || (High(s[i]) && !(i + 1 < |s| && Low(s[i + 1])))
    || (Low(s[i]) && !(i > 0 && High(s[i - 1])))
  }

  predicate Rejected(s: seq<Unit>, i: nat)
    requires i < |s|
  {
    Lone(s, i) || s[i] >= 0xFFFE
  }

  lemma {:induction false} NullFrom(s: seq<Unit>, i: nat)
    requires i <= |s| && (0 < i < |s| ==> !(High(s[i - 1]) && Low(s[i])))
    ensures Points(s, i).None? <==> exists k :: i <= k < End(s, i) && Rejected(s, k)
    decreases |s| - i
  {
    if i == |s| || s[i] == 0 {
    } else if High(s[i]) && i + 1 < |s| && Low(s[i + 1]) {
      NullFrom(s, i + 2);
      assert End(s, i) == End(s, i + 1) == End(s, i + 2);
      assert !Rejected(s, i) && !Rejected(s, i + 1);
    } else if High(s[i]) || Low(s[i]) || s[i] >= 0xFFFE {
      assert Rejected(s, i);
    } else {
      NullFrom(s, i + 1);
      assert !Rejected(s, i);
    }
  }

  /** The result is null exactly if a lone surrogate, U+FFFE or U+FFFF comes before the first zero. */
  lemma NullExactly(s: seq<Unit>)
    ensures Points(s, 0).None? <==> exists k :: 0 <= k < End(s, 0) && Rejected(s, k)
  {
    NullFrom(s, 0);
  }

  // ---------------------------------------------------------------------------------------
  // A strict decoder
  // ---------------------------------------------------------------------------------------

  predicate Tail(b: Byte) { 0x80 <= b < 0xC0 }

  /** How many bytes the character that starts with b takes; 0 if none starts so. */
  function Width(b: Byte): nat {
    if b < 0x80 then 1 else if b < 0xC0 then 0 else if b < 0xE0 then 2 else if b < 0xF0 then 3 else if b < 0xF8 then 4 else 0
  }

  /** The value of the first n bytes of t, when the first is a lead byte and the others are tails. */
  function Value(t: seq<Byte>, n: nat): int
    requires 1 <= n <= 4 && n <= |t|
  {
    if n == 1 then t[0]
    else if n == 2 then Join(t[0] as int - 0xC0, t[1])
    else if n == 3 then Join(Join(t[0] as int - 0xE0, t[1]), t[2])
    else Join(Join(Join(t[0] as int - 0xF0, t[1]), t[2]), t[3])
  }

  /** One more tail byte, which carries six bits. */
  function Join(x: int, b: int): int { x * 0x40 + (b - 0x80) }

  function Least(n: nat): int { if n <= 1 then 0 else if n == 2 then 0x80 else if n == 3 then 0x800 else 0x10000 }

  predicate Starts(t: seq<Byte>) {
    && t != []
    && var n := Width(t[0]);
      && 1 <= n <= |t|
      && (forall k :: 1 <= k < n ==> Tail(t[k]))
      && Least(n) <= Value(t, n)
      && Scalar(Value(t, n))
  }

  /** Decodes UTF-8; no surrogates, nothing above U+10FFFF, and nothing longer than it has to be. */
  function Decode(t: seq<Byte>): Option<seq<int>>
    decreases |t|
  {
    if t == [] then Some([])
    else if !Starts(t) then None
    else var n := Width(t[0]); Prepend([Value(t, n)], Decode(t[n..]))
  }

  lemma JoinSplits(p: nat)
    ensures Tail(0x80 + p % 0x40) && Join(p / 0x40, 0x80 + p % 0x40) == p
  {
  }

  lemma SplitJoins(x: int, b: Byte)
    requires 0 <= x && Tail(b)
    ensures 0 <= Join(x, b) && Join(x, b) / 0x40 == x && 0x80 + Join(x, b) % 0x40 == b
  {
  }

  lemma Shifts(p: nat)
    ensures p / 0x40 / 0x40 == p / 0x1000 && p / 0x40 / 0x40 / 0x40 == p / 0x40000
  {
  }

  lemma BytesValue(p: int)
    requires Scalar(p)
    ensures var t, n := Bytes(p), |Bytes(p)|;
      && Width(t[0]) == n && Value(t, n) == p && Least(n) <= p
      && forall k :: 1 <= k < n ==> Tail(t[k])
  {
    Shifts(p);
    JoinSplits(p);
    JoinSplits(p / 0x40);
    JoinSplits(p / 0x1000);
  }

  lemma BytesStart(p: int, rest: seq<Byte>)
    requires Scalar(p)
    ensures var t, n := Bytes(p) + rest, |Bytes(p)|;
      Starts(t) && Width(t[0]) == n && Value(t, n) == p && t[n..] == rest
  {
    BytesValue(p);
    var b, t, n := Bytes(p), Bytes(p) + rest, |Bytes(p)|;
    assert forall k :: 0 <= k < n ==> t[k] == b[k];
  }

  /** Decoding what was encoded gives the code points back. */
  lemma {:induction false} DecodeEncode(ps: seq<int>)
    requires Scalars(ps)
    ensures Decode(Encode(ps)) == Some(ps)
  {
    if ps != [] {
      DecodeEncode(ps[1..]);
      BytesStart(ps[0], Encode(ps[1..]));
      assert [ps[0]] + ps[1..] == ps;
    }
  }

  lemma StartsBytes(t: seq<Byte>)
    requires Starts(t)
    ensures Bytes(Value(t, Width(t[0]))) == t[..Width(t[0])]
  {
    var n := Width(t[0]);
    if n == 2 {
      SplitJoins(t[0] as int - 0xC0, t[1]);
    } else if n == 3 {
      var x := Join(t[0] as int - 0xE0, t[1]);
      SplitJoins(t[0] as int - 0xE0, t[1]);
      SplitJoins(x, t[2]);
      Shifts(Join(x, t[2]));
    } else if n == 4 {
      var x := Join(t[0] as int - 0xF0, t[1]);
      var y := Join(x, t[2]);
      SplitJoins(t[0] as int - 0xF0, t[1]);
      SplitJoins(x, t[2]);
      SplitJoins(y, t[3]);
      Shifts(Join(y, t[3]));
    }
  }

  lemma EncodeCons(p: int, ps: seq<int>)
    requires Scalar(p) && Scalars(ps)
    ensures Scalars([p] + ps) && Encode([p] + ps) == Bytes(p) + Encode(ps)
  {
    assert ([p] + ps)[1..] == ps;
  }

  lemma DecodeStep(t: seq<Byte>) returns (n: nat, p: int)
    requires t != [] && Decode(t).Some?
    ensures 1 <= n <= |t| && Scalar(p) && Bytes(p) == t[..n]
    ensures Decode(t[n..]).Some? && Decode(t).value == [p] + Decode(t[n..]).value
  {
    n := Width(t[0]);
    p := Value(t, n);
    StartsBytes(t);
  }

  lemma Rejoin(t: seq<Byte>, n: nat, p: int, ps: seq<int>)
    requires n <= |t| && Scalar(p) && Bytes(p) == t[..n] && Scalars(ps) && Encode(ps) == t[n..]
    ensures Scalars([p] + ps) && Encode([p] + ps) == t
  {
    EncodeCons(p, ps);
    assert t == t[..n] + t[n..];
  }

  /** The decoder accepts one spelling only: what decodes is what encoding gives. */
  lemma {:induction false} EncodeDecode(t: seq<Byte>)
    requires Decode(t).Some?
    ensures Scalars(Decode(t).value) && Encode(Decode(t).value) == t
    decreases |t|
  {
    if t != [] {
      var n, p := DecodeStep(t);
      EncodeDecode(t[n..]);
      Rejoin(t, n, p, Decode(t[n..]).value);
    }
  }

  // ---------------------------------------------------------------------------------------
  // The string
  // ---------------------------------------------------------------------------------------

  /** The units of one code point. */
  function Units(p: int): seq<Unit>
    requires Scalar(p)
  {
    if p < 0x10000 then [p] else [0xD800 + (p - 0x10000) / 0x400, 0xDC00 + (p - 0x10000) % 0x400]
  }

  function Encode16(ps: seq<int>): seq<Unit>
    requires Scalars(ps)
  {
    if ps == [] then [] else Units(ps[0]) + Encode16(ps[1..])
  }

  lemma PairUnits(hi: Unit, lo: Unit)
    requires High(hi) && Low(lo)
    ensures 0x10000 <= Pair(hi, lo) < 0x110000 && Units(Pair(hi, lo)) == [hi, lo]
  {
  }

  /** The code points are those of the units up to the first zero. */
  lemma {:induction false} Faithful(s: seq<Unit>, i: nat)
    requires i <= |s| && Points(s, i).Some?
    ensures Encode16(Points(s, i).value) == s[i..End(s, i)]
    decreases |s| - i
  {
    var ps := Points(s, i).value;
    if i == |s| || s[i] == 0 {
    } else if High(s[i]) {
      PairUnits(s[i], s[i + 1]);
      Faithful(s, i + 2);
      assert ps[1..] == Points(s, i + 2).value;
      assert End(s, i) == End(s, i + 2);
      assert s[i..End(s, i)] == [s[i], s[i + 1]] + s[i + 2..End(s, i)];
    } else {
      Faithful(s, i + 1);
      assert ps[1..] == Points(s, i + 1).value;
      assert s[i..End(s, i)] == [s[i]] + s[i + 1..End(s, i)];
    }
  }

  /** No zero byte before the terminator, and at most three bytes for each unit. */
  lemma {:induction false} CleanAndShort(s: seq<Unit>, i: nat)
    requires i <= |s| && Points(s, i).Some?
    ensures var t := Encode(Points(s, i).value); |t| <= 3 * (End(s, i) - i) && forall k :: 0 <= k < |t| ==> t[k] != 0
    decreases |s| - i
  {
    var ps := Points(s, i).value;
    if i == |s| || s[i] == 0 {
    } else {
      var n := if High(s[i]) then i + 2 else i + 1;
      CleanAndShort(s, n);
      assert ps[1..] == Points(s, n).value;
      assert ps[0] > 0 && End(s, i) == End(s, n);
    }
  }

  /**
   A result that is not null is a faithful transcoding: a strict reader of the bytes before the
   terminator gets exactly the code points of the input up to its first zero.
   */
  lemma Transcodes(s: seq<Unit>, t: seq<Byte>)
    requires Points(s, 0).Some? && t == Encode(Points(s, 0).value)
    ensures Decode(t).Some? && Scalars(Decode(t).value) && Encode16(Decode(t).value) == s[..End(s, 0)]
    ensures 0 !in t && |t| <= 3 * End(s, 0)
  {
    DecodeEncode(Points(s, 0).value);
    Faithful(s, 0);
    CleanAndShort(s, 0);
  }
}
