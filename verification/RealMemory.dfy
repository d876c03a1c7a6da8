/**
 The first-fit allocator for real-mode memory: a table of adjacent blocks that tiles a fixed
 arena. The functions here specify its operations on tables, and the lemmas say what a table
 means. The class in RealMemoryManager.dfy updates a table in place and meets these functions.
 */
module RealMemory {
  import opened Basics

  const BASE := 0x1000
  const SIZE := 0xa0000
  const MAX_BLOCKS := 0x100
  /** Block sizes are stored in a 20-bit field. */
  const FIELD := 0x10_0000

  datatype Block = Block(size: nat, free: bool)
  type Table = seq<Block>

  const INITIAL: Table := [Block(SIZE, true)]

  /** Stores a size into the 20-bit field. */
  function Field(x: int): nat { x % 0x10_0000 }

  /** Rounds up to a multiple of 16, for negative sizes as well. */
  function Round(size: int): int { (size + 15) / 16 * 16 }

  function Total(t: Table): int {
    if t == [] then 0 else t[0].size + Total(t[1..])
  }

  predicate Fits(b: Block, n: int) { b.free && n < b.size }

  /** The address of the first free block strictly larger than n, when t starts at a. */
  function FirstFit(t: Table, a: int, n: int): Option<int> {
    if t == [] then None
    else if Fits(t[0], n) then Some(a)
    else FirstFit(t[1..], a + t[0].size, n)
  }

  /** Splits the first free block strictly larger than n into a live head and a free tail. */
  function Split(t: Table, n: int): Table {
    if t == [] then []
    else if Fits(t[0], n) then [Block(Field(n), false), Block(Field(t[0].size - n), true)] + t[1..]
    else [t[0]] + Split(t[1..], n)
  }

  function AllocAddr(t: Table, size: int): Option<int> {
    if |t| == MAX_BLOCKS then None else FirstFit(t, BASE, Round(size))
  }

  function AllocTable(t: Table, size: int): Table {
    if |t| == MAX_BLOCKS then t else Split(t, Round(size))
  }

  /** Puts the free block b in front of t, merging it with a free head of t. */
  function Absorb(b: Block, t: Table): Table {
    if t != [] && t[0].free then [Block(Field(b.size + t[0].size), true)] + t[1..] else [b] + t
  }

  /** Releases the first block that starts at p, when t starts at a. */
  function Release(t: Table, a: int, p: int): Table {
    if t == [] then []
    else if a == p then Absorb(Block(t[0].size, true), t[1..])
    else
      var rest := Release(t[1..], a + t[0].size, p);
      if a + t[0].size == p && t[0].free then Absorb(t[0], rest) else [t[0]] + rest
  }

  function FreeTable(t: Table, p: int): Table { Release(t, BASE, p) }

  // ---------------------------------------------------------------------------------------
  // What a table means
  // ---------------------------------------------------------------------------------------

  /** The live blocks of a table that starts at address a, as a map from address to size. */
  function LiveFrom(t: Table, a: int): map<int, int> {
    if t == [] then map[]
    else if t[0].free then LiveFrom(t[1..], a + t[0].size)
    else LiveFrom(t[1..], a + t[0].size)[a := t[0].size]
  }

  function Live(t: Table): map<int, int> { LiveFrom(t, BASE) }

  /** Blocks of positive size on 16-byte paragraphs, with no two free blocks side by side. */
  ghost predicate Tidy(t: Table) {
    t == [] ||
    (&& t[0].size > 0 && t[0].size % 16 == 0
     && (|t| > 1 ==> !(t[0].free && t[1].free))
     && Tidy(t[1..]))
  }

  /** The integrity of a table: a tidy tiling of the arena that ends in a free block. */
  ghost predicate WellFormed(t: Table) {
    1 <= |t| <= MAX_BLOCKS && Tidy(t) && Total(t) == SIZE && t[|t| - 1].free
  }

  lemma Prepend(b: Block, t: Table, a: int)
    ensures Total([b] + t) == b.size + Total(t)
    ensures LiveFrom([b] + t, a)
         == if b.free then LiveFrom(t, a + b.size) else LiveFrom(t, a + b.size)[a := b.size]
    ensures Tidy([b] + t) <==>
      b.size > 0 && b.size % 16 == 0 && (t != [] ==> !(b.free && t[0].free)) && Tidy(t)
    ensures t != [] ==> ([b] + t)[|t|] == t[|t| - 1]
  {
    assert ([b] + t)[1..] == t;
  }

  /** Live blocks lie inside the stretch that the table covers, on multiples of 16. */
  lemma {:induction false} LiveBounds(t: Table, a: int)
    requires Tidy(t)
    ensures Total(t) >= 0
    ensures forall p :: p in LiveFrom(t, a) ==>
      a <= p && p + LiveFrom(t, a)[p] <= a + Total(t) && LiveFrom(t, a)[p] > 0 && (p - a) % 16 == 0
  {
    if t != [] {
      LiveBounds(t[1..], a + t[0].size);
    }
  }

  /** Any two live blocks are disjoint. */
  lemma {:induction false} LiveDisjoint(t: Table, a: int, p: int, q: int)
    requires Tidy(t) && p in LiveFrom(t, a) && q in LiveFrom(t, a) && p < q
    ensures p + LiveFrom(t, a)[p] <= q
  {
    LiveBounds(t[1..], a + t[0].size);
    if p != a || t[0].free {
      LiveDisjoint(t[1..], a + t[0].size, p, q);
    }
  }

  // ---------------------------------------------------------------------------------------
  // Canonical form
  // ---------------------------------------------------------------------------------------

  /** Tidy tables of the same extent are determined by their live blocks. */
  lemma {:induction false} CanonicalFrom(s: Table, t: Table, a: int)
    requires Tidy(s) && Tidy(t) && Total(s) == Total(t) && LiveFrom(s, a) == LiveFrom(t, a)
    ensures s == t
  {
    if s != [] { LiveBounds(s[1..], a + s[0].size); }
    if t != [] { LiveBounds(t[1..], a + t[0].size); }
    if s != [] && t != [] {
      assert !s[0].free ==> a in LiveFrom(s, a);
      assert !t[0].free ==> a in LiveFrom(t, a);
      if s[0].free {
        FreeHeadsAgree(s, t, a);
        FreeHeadsAgree(t, s, a);
      } else {
        assert s[0].size == LiveFrom(s, a)[a] == t[0].size;
        TailLive(s, a);
        TailLive(t, a);
      }
      CanonicalFrom(s[1..], t[1..], a + s[0].size);
    }
  }

  lemma TailLive(t: Table, a: int)
    requires Tidy(t) && t != [] && !t[0].free
    ensures LiveFrom(t[1..], a + t[0].size) == LiveFrom(t, a) - {a}
  {
    LiveBounds(t[1..], a + t[0].size);
  }

  /** The free gap at the head of s ends at a live block, so the gap of t reaches no further. */
  lemma FreeHeadsAgree(s: Table, t: Table, a: int)
    requires Tidy(s) && Tidy(t) && Total(s) == Total(t) && LiveFrom(s, a) == LiveFrom(t, a)
    requires s != [] && t != [] && s[0].free && t[0].free
    ensures s[0].size >= t[0].size
  {
    LiveBounds(t[1..], a + t[0].size);
    assert s[1..] != [] ==> a + s[0].size in LiveFrom(s[1..], a + s[0].size);
  }

  /** Two well-formed tables with the same live blocks are the same table. */
  lemma Canonical(s: Table, t: Table)
    requires WellFormed(s) && WellFormed(t) && Live(s) == Live(t)
    ensures s == t
  {
    CanonicalFrom(s, t, BASE);
  }

  // ---------------------------------------------------------------------------------------
  // Allocation
  // ---------------------------------------------------------------------------------------

  lemma RoundUp(size: int)
    ensures Round(size) % 16 == 0 && size <= Round(size) < size + 16
    ensures size >= 1 ==> Round(size) >= 16
  {
  }

  lemma FieldFits(x: int)
    requires 0 <= x < FIELD
    ensures Field(x) == x
  {
  }

  /** A split adds one live block of n bytes and keeps the table tidy. */
  lemma {:induction false} SplitKeeps(t: Table, a: int, n: int)
    requires Tidy(t) && Total(t) < FIELD && 0 < n && n % 16 == 0
    ensures var r := Split(t, n);
      && Tidy(r) && Total(r) == Total(t)
      && (t != [] ==> r != [] && (r[0].free ==> t[0].free) && r[|r| - 1].free == t[|t| - 1].free)
      && |r| == |t| + (if FirstFit(t, a, n).Some? then 1 else 0)
      && (FirstFit(t, a, n) == None ==> r == t)
  {
    if t != [] {
      LiveBounds(t[1..], a);
      if Fits(t[0], n) {
        SplitHead(t, a, n);
      } else {
        SplitKeeps(t[1..], a + t[0].size, n);
        Prepend(t[0], Split(t[1..], n), a);
      }
    }
  }

  /** The added block is disjoint from the other live blocks. */
  lemma {:induction false} SplitLive(t: Table, a: int, n: int)
    requires Tidy(t) && Total(t) < FIELD && 0 < n && n % 16 == 0 && FirstFit(t, a, n).Some?
    ensures var p := FirstFit(t, a, n).value;
      && a <= p < a + Total(t) && p !in LiveFrom(t, a) && (p - a) % 16 == 0
      && LiveFrom(Split(t, n), a) == LiveFrom(t, a)[p := n]
  {
    var at := a + t[0].size;
    LiveBounds(t[1..], at);
    if Fits(t[0], n) {
      SplitHead(t, a, n);
    } else {
      SplitLive(t[1..], at, n);
      Prepend(t[0], Split(t[1..], n), a);
      SwapUpdates(LiveFrom(t[1..], at), FirstFit(t, a, n).value, n, a, t[0].size);
    }
  }

  lemma SwapUpdates(m: map<int, int>, p: int, n: int, q: int, k: int)
    requires p != q
    ensures m[p := n][q := k] == m[q := k][p := n]
  {
  }

  lemma SplitHead(t: Table, a: int, n: int)
    requires Tidy(t) && t != [] && t[0].size < FIELD && 0 < n && n % 16 == 0 && Fits(t[0], n)
    ensures var r := Split(t, n);
      && Tidy(r) && Total(r) == Total(t) && LiveFrom(r, a) == LiveFrom(t, a)[a := n]
      && !r[0].free && |r| == |t| + 1 && r[|r| - 1].free == t[|t| - 1].free
  {
    var r := Split(t, n);
    FieldFits(n);
    FieldFits(t[0].size - n);
    var tail := Block(t[0].size - n, true);
    assert tail.size > 0 && tail.size % 16 == 0;
    assert r == [Block(n, false)] + ([tail] + t[1..]);
    Prepend(tail, t[1..], a + n);
    Prepend(Block(n, false), [tail] + t[1..], a);
  }

  /**
   For every size of at least 1: allocation keeps the table well formed and either adds exactly
   one live block of the rounded size, or fails and changes nothing.
   */
  lemma AllocKeeps(t: Table, size: int)
    requires WellFormed(t) && size >= 1
    ensures WellFormed(AllocTable(t, size))
    ensures match AllocAddr(t, size)
      case None => AllocTable(t, size) == t
      case Some(p) => p !in Live(t) && p % 16 == 0 && Live(AllocTable(t, size)) == Live(t)[p := Round(size)]
  {
    RoundUp(size);
    SplitKeeps(t, BASE, Round(size));
    if AllocAddr(t, size).Some? {
      SplitLive(t, BASE, Round(size));
    }
  }

  // ---------------------------------------------------------------------------------------
  // Release
  // ---------------------------------------------------------------------------------------

  /** Releasing p keeps the table tidy, and can free the head only if that starts at p. */
  lemma {:induction false} ReleaseKeeps(t: Table, a: int, p: int)
    requires Tidy(t) && Total(t) < FIELD
    ensures var r := Release(t, a, p);
      Tidy(r) && Total(r) == Total(t) && (t != [] ==> r != [] && (r[0].free ==> t[0].free || a == p))
  {
    if t != [] {
      var at := a + t[0].size;
      LiveBounds(t[1..], at);
      if a == p {
        AbsorbMeaning(Block(t[0].size, true), t[1..], a);
      } else {
        ReleaseKeeps(t[1..], at, p);
        ReleaseHead(t, a, p);
      }
    }
  }

  lemma ReleaseHead(t: Table, a: int, p: int)
    requires Tidy(t) && t != [] && Total(t) < FIELD && a != p
    requires var rest := Release(t[1..], a + t[0].size, p);
      Tidy(rest) && Total(rest) == Total(t[1..])
      && (t[1..] != [] ==> rest != [] && (rest[0].free ==> t[1].free || a + t[0].size == p))
    ensures var r := Release(t, a, p);
      Tidy(r) && Total(r) == Total(t) && r != [] && (r[0].free ==> t[0].free)
  {
    var rest := Release(t[1..], a + t[0].size, p);
    if a + t[0].size == p && t[0].free {
      AbsorbMeaning(t[0], rest, a);
    } else {
      Prepend(t[0], rest, a);
    }
  }

  /** Releasing p makes the table no longer and keeps its end free. */
  lemma {:induction false} ReleaseEnd(t: Table, a: int, p: int)
    requires t != []
    ensures var r := Release(t, a, p);
      r != [] && |r| <= |t| && (t[|t| - 1].free ==> r[|r| - 1].free)
  {
    if a == p {
      AbsorbEnd(Block(t[0].size, true), t[1..]);
    } else if |t| > 1 {
      var rest := Release(t[1..], a + t[0].size, p);
      ReleaseEnd(t[1..], a + t[0].size, p);
      AbsorbEnd(t[0], rest);
      PrependEnd(t[0], rest);
    }
  }

  predicate EndsFree(t: Table) { t != [] && t[|t| - 1].free }

  lemma PrependEnd(b: Block, t: Table)
    ensures |[b] + t| == |t| + 1 && (EndsFree(t) ==> EndsFree([b] + t))
  {
  }

  lemma AbsorbEnd(b: Block, t: Table)
    ensures var r := Absorb(b, t);
      && r != [] && |r| <= |t| + 1
      && (t == [] ==> r == [b]) && (EndsFree(t) ==> EndsFree(r))
  {
  }

  lemma RemoveKey(m: map<int, int>, a: int, n: int, p: int)
    requires a !in m
    ensures a != p ==> m[a := n] - {p} == (m - {p})[a := n]
    ensures a == p ==> m[a := n] - {p} == m && m - {p} == m
  {
  }

  /** Releasing p removes the live block at p, if there is one. */
  lemma {:induction false} ReleaseLive(t: Table, a: int, p: int)
    requires Tidy(t) && Total(t) < FIELD
    ensures LiveFrom(Release(t, a, p), a) == LiveFrom(t, a) - {p}
  {
    if t != [] {
      var at := a + t[0].size;
      var tail := LiveFrom(t[1..], at);
      assert a !in tail by { LiveBounds(t[1..], at); }
      RemoveKey(tail, a, t[0].size, p);
      if a == p {
        assert LiveFrom(Release(t, a, p), a) == tail by {
          AbsorbMeaning(Block(t[0].size, true), t[1..], a);
        }
      } else {
        ReleaseLive(t[1..], at, p);
        ReleaseKeeps(t[1..], at, p);
        ReleaseStep(t, a, p, Release(t[1..], at, p));
      }
    }
  }

  /** Releasing an address past the head leaves the head as live as it was. */
  lemma ReleaseStep(t: Table, a: int, p: int, rest: Table)
    requires Tidy(t) && Total(t) < FIELD && t != [] && a != p
    requires rest == Release(t[1..], a + t[0].size, p) && Tidy(rest) && Total(rest) == Total(t[1..])
    ensures var tail := LiveFrom(rest, a + t[0].size);
      LiveFrom(Release(t, a, p), a) == if t[0].free then tail else tail[a := t[0].size]
  {
    if a + t[0].size == p && t[0].free {
      AbsorbLive(t[0], rest, a);
    } else {
      Prepend(t[0], rest, a);
    }
  }

  lemma AbsorbLive(b: Block, t: Table, a: int)
    requires Tidy(t) && b.free && b.size > 0 && b.size % 16 == 0 && b.size + Total(t) < FIELD
    ensures LiveFrom(Absorb(b, t), a) == LiveFrom(t, a + b.size)
  {
    AbsorbMeaning(b, t, a);
  }

  lemma AbsorbMeaning(b: Block, t: Table, a: int)
    requires Tidy(t) && b.free && b.size > 0 && b.size % 16 == 0 && b.size + Total(t) < FIELD
    ensures var r := Absorb(b, t);
      && Tidy(r) && Total(r) == b.size + Total(t) && LiveFrom(r, a) == LiveFrom(t, a + b.size)
      && r != [] && r[0].free && |r| <= |t| + 1
      && (t == [] || t[|t| - 1].free ==> r[|r| - 1].free)
  {
    var r := Absorb(b, t);
    if t != [] && t[0].free {
      LiveBounds(t[1..], 0);
      FieldFits(b.size + t[0].size);
      assert r[1..] == t[1..];
    } else {
      assert r[1..] == t;
    }
  }

  /**
   Releasing any address keeps the table well formed and removes exactly the live block that
   starts there; an address that starts no live block changes nothing.
   */
  lemma FreeKeeps(t: Table, p: int)
    requires WellFormed(t)
    ensures WellFormed(FreeTable(t, p)) && Live(FreeTable(t, p)) == Live(t) - {p}
    ensures p !in Live(t) ==> FreeTable(t, p) == t
  {
    ReleaseKeeps(t, BASE, p);
    ReleaseEnd(t, BASE, p);
    ReleaseLive(t, BASE, p);
    if p !in Live(t) {
      assert Live(t) - {p} == Live(t);
      Canonical(FreeTable(t, p), t);
    }
  }

  // ---------------------------------------------------------------------------------------
  // First fit, said of the live blocks alone
  // ---------------------------------------------------------------------------------------

  /** The m bytes at x lie in the stretch of `total` bytes at a, clear of every live block. */
  ghost predicate Gap(live: map<int, int>, a: int, total: int, x: int, m: int) {
    a <= x && x + m <= a + total && forall p :: p in live ==> p + live[p] <= x || x + m <= p
  }

  ghost predicate LowestGap(live: map<int, int>, a: int, total: int, p: int, m: int) {
    Gap(live, a, total, p, m) && forall x :: Gap(live, a, total, x, m) ==> p <= x
  }

  ghost predicate NoGap(live: map<int, int>, a: int, total: int, m: int) {
    forall x :: !Gap(live, a, total, x, m)
  }

  /**
   First fit takes the lowest gap that is a paragraph longer than the request: the paragraph
   more is the strict inequality, which keeps a free block at the end.
   */
  lemma {:induction false} FirstFitIsLowestGap(t: Table, a: int, n: int, m: int)
    requires Tidy(t) && 0 < n && n % 16 == 0 && m == n + 16
    ensures match FirstFit(t, a, n)
      case Some(p) => LowestGap(LiveFrom(t, a), a, Total(t), p, m)
      case None => NoGap(LiveFrom(t, a), a, Total(t), m)
  {
    if t != [] {
      var at := a + t[0].size;
      LiveBounds(t[1..], at);
      if !Fits(t[0], n) {
        FirstFitIsLowestGap(t[1..], at, n, m);
        forall x ensures Gap(LiveFrom(t, a), a, Total(t), x, m)
                     <==> Gap(LiveFrom(t[1..], at), at, Total(t[1..]), x, m) {
          GapPastHead(t, a, x, m);
        }
      }
    }
  }

  /** A head that is live or too small holds no part of a gap. */
  lemma GapPastHead(t: Table, a: int, x: int, m: int)
    requires Tidy(t) && t != [] && m > 0 && (t[0].free ==> t[0].size < m)
    ensures var at := a + t[0].size;
      Gap(LiveFrom(t, a), a, Total(t), x, m) <==> Gap(LiveFrom(t[1..], at), at, Total(t[1..]), x, m)
  {
    var at := a + t[0].size;
    LiveBounds(t[1..], at);
    if Gap(LiveFrom(t, a), a, Total(t), x, m) {
      assert !t[0].free ==> a in LiveFrom(t, a) && LiveFrom(t, a)[a] == t[0].size;
      if t[1..] != [] {
        assert t[0].free ==> at in LiveFrom(t, a) && LiveFrom(t, a)[at] == t[1].size;
      }
      assert x >= at;
      assert forall p :: p in LiveFrom(t[1..], at) ==>
        p in LiveFrom(t, a) && LiveFrom(t, a)[p] == LiveFrom(t[1..], at)[p];
    }
  }

  /** An allocation is determined by the live blocks: it takes the lowest gap, if there is one. */
  lemma AllocIsLowestGap(t: Table, size: int)
    requires WellFormed(t) && size >= 1
    ensures match AllocAddr(t, size)
      case Some(p) => |t| < 256 && LowestGap(Live(t), 0x1000, 0xa0000, p, Round(size) + 16)
      case None => |t| == 256 || NoGap(Live(t), 0x1000, 0xa0000, Round(size) + 16)
  {
    RoundUp(size);
    FirstFitIsLowestGap(t, BASE, Round(size), Round(size) + 16);
  }

  // ---------------------------------------------------------------------------------------
  // Requests of any size
  // ---------------------------------------------------------------------------------------

  /** The size of the block that FirstFit picks. */
  function FitSize(t: Table, n: int): Option<nat> {
    if t == [] then None else if Fits(t[0], n) then Some(t[0].size) else FitSize(t[1..], n)
  }

  lemma SplitFields(s: int, n: int)
    requires 0 < s < FIELD
    ensures Field(s - n) == if Field(n) <= s then s - Field(n) else s - Field(n) + FIELD
    ensures Field(Field(n) + Field(s - n)) == s
  {
    var k, q := Field(n), n / FIELD;
    assert n == q * FIELD + k;
    assert s - n == -q * FIELD + (s - k);
  }

  lemma SplitExactHead(t: Table, n: int)
    requires Tidy(t) && t != [] && t[0].free && t[0].size < FIELD && n % 16 == 0
    ensures var r := [Block(Field(n), false), Block(Field(t[0].size - n), true)] + t[1..];
      Tidy(r) && Total(r) == Total(t) <==> 0 < Field(n) < t[0].size
  {
    var head, tail := Block(Field(n), false), Block(Field(t[0].size - n), true);
    assert [head, tail] + t[1..] == [head] + ([tail] + t[1..]);
    Prepend(tail, t[1..], 0);
    Prepend(head, [tail] + t[1..], 0);
    FieldParagraphs(t[0].size, n);
    SplitFields(t[0].size, n);
  }

  /** A split of any size keeps the tiling exactly if the stored size is positive and fits. */
  lemma {:induction false} SplitExact(t: Table, n: int)
    requires Tidy(t) && Total(t) < FIELD && n % 16 == 0 && FitSize(t, n).Some?
    ensures Tidy(Split(t, n)) && Total(Split(t, n)) == Total(t) <==> 0 < Field(n) < FitSize(t, n).value
  {
    LiveBounds(t[1..], 0);
    if Fits(t[0], n) {
      SplitExactHead(t, n);
    } else {
      SplitExact(t[1..], n);
      Prepend(t[0], Split(t[1..], n), 0);
      SplitHeadStays(t[1..], n);
    }
  }

  lemma FieldParagraph(n: int)
    requires n % 16 == 0
    ensures Field(n) % 16 == 0
  {
    var y := n / 0x10_0000 * 0x1_0000;
    assert Field(n) == n - 16 * y;
    Multiple16(n, y);
  }

  lemma FieldParagraphs(s: int, n: int)
    requires s % 16 == 0 && n % 16 == 0
    ensures Field(n) % 16 == 0 && Field(s - n) % 16 == 0
  {
    Multiple16(s, n / 16);
    assert s - 16 * (n / 16) == s - n;
    FieldParagraph(n);
    FieldParagraph(s - n);
  }

  lemma Multiple16(x: int, y: int)
    ensures (x - 16 * y) % 16 == x % 16
  {
  }

  lemma SplitHeadStays(t: Table, n: int)
    ensures t != [] ==> Split(t, n) != [] && (Split(t, n)[0].free ==> t[0].free)
    ensures t != [] && FitSize(t, n).Some? ==> Split(t, n)[|Split(t, n)| - 1].free || !t[|t| - 1].free
  {
  }

  /**
   Requests below 1 are not refused. What a successful one leaves behind is a table of integrity
   exactly if the request, rounded and stored in 20 bits, is positive and smaller than the block.
   */
  lemma AllocExact(t: Table, size: int)
    requires WellFormed(t) && AllocAddr(t, size).Some?
    ensures FitSize(t, Round(size)).Some?
    ensures WellFormed(AllocTable(t, size))
       <==> 0 < Field(Round(size)) < FitSize(t, Round(size)).value
  {
    RoundUp(size);
    FitSizeAgrees(t, BASE, Round(size));
    SplitExact(t, Round(size));
    SplitHeadStays(t, Round(size));
  }

  lemma {:induction false} FitSizeAgrees(t: Table, a: int, n: int)
    ensures FirstFit(t, a, n).Some? <==> FitSize(t, n).Some?
    ensures |Split(t, n)| == |t| + if FitSize(t, n).Some? then 1 else 0
  {
    if t != [] && !Fits(t[0], n) {
      FitSizeAgrees(t[1..], a + t[0].size, n);
    }
  }

  /** A request for no bytes leaves a live block of size zero. */
  lemma AllocOfNothing()
    ensures WellFormed(INITIAL) && AllocAddr(INITIAL, 0) == Some(BASE)
    ensures !WellFormed(AllocTable(INITIAL, 0))
  {
    assert Split(INITIAL, 0)[0] == Block(0, false);
  }

  /** Freeing what was just allocated restores the exact table, whatever the size requested. */
  lemma AllocThenFree(t: Table, size: int)
    requires WellFormed(t) && AllocAddr(t, size).Some?
    ensures FreeTable(AllocTable(t, size), AllocAddr(t, size).value) == t
  {
    SplitThenRelease(t, BASE, Round(size));
  }

  lemma {:induction false} SplitThenRelease(t: Table, a: int, n: int)
    requires Tidy(t) && Total(t) < FIELD && FirstFit(t, a, n).Some?
    ensures a <= FirstFit(t, a, n).value
    ensures Release(Split(t, n), a, FirstFit(t, a, n).value) == t
  {
    LiveBounds(t[1..], a);
    if Fits(t[0], n) {
      SplitThenReleaseHead(t, a, n);
    } else {
      SplitThenRelease(t[1..], a + t[0].size, n);
      assert Split(t, n)[1..] == Split(t[1..], n);
    }
  }

  lemma SplitThenReleaseHead(t: Table, a: int, n: int)
    requires Tidy(t) && t != [] && 0 < t[0].size < FIELD && Fits(t[0], n)
    ensures Release(Split(t, n), a, a) == t
  {
    var head, tail := Block(Field(n), false), Block(Field(t[0].size - n), true);
    SplitFields(t[0].size, n);
    assert Split(t, n)[1..] == [tail] + t[1..];
    assert ([tail] + t[1..])[1..] == t[1..];
  }

  // ---------------------------------------------------------------------------------------
  // Runs
  // ---------------------------------------------------------------------------------------

  datatype Op = Alloc(size: int) | Free(p: int)

  function Apply(t: Table, op: Op): Table {
    match op
    case Alloc(size) => AllocTable(t, size)
    case Free(p) => FreeTable(t, p)
  }

  function Run(t: Table, ops: seq<Op>): Table
    decreases |ops|
  {
    if ops == [] then t else Run(Apply(t, ops[0]), ops[1..])
  }

  predicate Requests(ops: seq<Op>) {
    forall i :: 0 <= i < |ops| && ops[i].Alloc? ==> ops[i].size >= 1
  }

  lemma InitialTable()
    ensures WellFormed(INITIAL) && Live(INITIAL) == map[]
  {
    assert INITIAL[1..] == [];
    assert LiveFrom(INITIAL[1..], BASE + SIZE) == map[];
    assert Live(INITIAL) == LiveFrom(INITIAL[1..], BASE + SIZE);
  }

  /** The first block of any size up to the whole arena less one paragraph starts at the bottom, 0x1000. */
  lemma FirstAllocation(size: int)
    requires 0 < size <= 0x9fff0
    ensures AllocAddr(INITIAL, size) == Some(0x1000)
    ensures Live(AllocTable(INITIAL, size)) == map[0x1000 := Round(size)] && size <= Round(size) < size + 16
  {
    var t := AllocTable(INITIAL, size);
    assert t == [Block(Field(Round(size)), false), Block(Field(SIZE - Round(size)), true)];
    assert t[1..] == [Block(Field(SIZE - Round(size)), true)] && t[1..][1..] == [];
    assert Field(Round(size)) == Round(size);
    assert LiveFrom(t[1..][1..], BASE + SIZE) == map[];
    assert LiveFrom(t[1..], BASE + Round(size)) == map[];
    assert LiveFrom(t, BASE) == map[][BASE := Round(size)];
  }

  /** Every table that a run of requests and arbitrary releases can reach is well formed. */
  lemma {:induction false} RunKeeps(t: Table, ops: seq<Op>)
    requires WellFormed(t) && Requests(ops)
    ensures WellFormed(Run(t, ops))
    decreases |ops|
  {
    if ops != [] {
      match ops[0] {
        case Alloc(size) => AllocKeeps(t, size);
        case Free(p) => FreeKeeps(t, p);
      }
      RunKeeps(Apply(t, ops[0]), ops[1..]);
    }
  }

  /** Two runs that leave the same blocks live leave the same table, whatever their histories. */
  lemma RunsAgree(ops: seq<Op>, others: seq<Op>)
    requires Requests(ops) && Requests(others)
    requires Live(Run(INITIAL, ops)) == Live(Run(INITIAL, others))
    ensures Run(INITIAL, ops) == Run(INITIAL, others)
  {
    InitialTable();
    RunKeeps(INITIAL, ops);
    RunKeeps(INITIAL, others);
    Canonical(Run(INITIAL, ops), Run(INITIAL, others));
  }

  /** A run that has freed all its blocks is back at the initial table. */
  lemma AllFreed(ops: seq<Op>)
    requires Requests(ops) && Live(Run(INITIAL, ops)) == map[]
    ensures Run(INITIAL, ops) == INITIAL
  {
    InitialTable();
    RunKeeps(INITIAL, ops);
    Canonical(Run(INITIAL, ops), INITIAL);
  }

  function Frees(ps: seq<int>): (ops: seq<Op>)
    ensures Requests(ops)
  {
    if ps == [] then [] else [Free(ps[0])] + Frees(ps[1..])
  }

  lemma {:induction false} FreesLive(t: Table, ps: seq<int>)
    requires WellFormed(t)
    ensures WellFormed(Run(t, Frees(ps))) && Live(Run(t, Frees(ps))) == Live(t) - (set p | p in ps)
    decreases |ps|
  {
    if ps != [] {
      FreeKeeps(t, ps[0]);
      FreesLive(FreeTable(t, ps[0]), ps[1..]);
      assert Frees(ps)[1..] == Frees(ps[1..]);
      assert ps == [ps[0]] + ps[1..];
      assert (set p | p in ps) == {ps[0]} + (set p | p in ps[1..]);
    }
  }

  /** Releases may come in any order, repeated and mixed with junk: only the set of addresses counts. */
  lemma FreesCommute(t: Table, ps: seq<int>, qs: seq<int>)
    requires WellFormed(t) && (set p | p in ps) == (set q | q in qs)
    ensures Run(t, Frees(ps)) == Run(t, Frees(qs))
  {
    FreesLive(t, ps);
    FreesLive(t, qs);
    Canonical(Run(t, Frees(ps)), Run(t, Frees(qs)));
  }

  /** Releasing every live block, in any order, leads back to the single free block. */
  lemma FreeingAllRestores(t: Table, ps: seq<int>)
    requires WellFormed(t) && forall p :: p in Live(t) ==> p in ps
    ensures Run(t, Frees(ps)) == INITIAL
  {
    FreesLive(t, ps);
    InitialTable();
    var all := set p | p in ps;
    assert forall p :: p in Live(t) ==> p in all;
    assert (Live(t) - all).Keys == {};
    Canonical(Run(t, Frees(ps)), INITIAL);
  }
}
