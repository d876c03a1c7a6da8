/**
 The allocator in place: a fixed array of blocks, of which the first `count` are in use, edited
 by moving its tail up or down by one entry. Each method meets its function on tables.
 */
module RealMemoryManager {
  import opened Basics
  import opened RealMemory

  class MemInfo {
    var ready: bool
    var count: nat
    const blocks: array<Block>

    ghost predicate Valid()
      reads this
    {
      blocks.Length == MAX_BLOCKS && count <= MAX_BLOCKS && (ready ==> count > 0)
    }

    ghost function Contents(): Table
      reads this, blocks
      requires Valid()
    {
      blocks[..count]
    }

    constructor ()
      ensures Valid() && !ready && fresh(blocks)
    {
      ready, count := false, 0;
      blocks := new Block[MAX_BLOCKS](_ => Block(0, false));
    }

    /** `mapped` tells whether the arena could be mapped. */
    method Init(mapped: bool) returns (ok: bool)
      requires Valid()
      modifies this, blocks
      ensures Valid() && ready == ok
      ensures ok <==> old(ready) || mapped
      ensures ok ==> Contents() == if old(ready) then old(Contents()) else INITIAL
      ensures !ok ==> Contents() == old(Contents())
    {
      if ready { return true; }
      if !mapped { return false; }
      ready, count := true, 1;
      blocks[0] := Block(SIZE, true);
      ok := true;
    }

    /** Makes room at i by moving the tail up; the entry at i stays duplicated. */
    method InsertBlock(i: nat)
      requires Valid() && i < count < MAX_BLOCKS
      modifies `count, blocks
      ensures Valid() && Contents() == old(Contents()[..i] + [Contents()[i]] + Contents()[i..])
    {
      forall k | i < k <= count {
        blocks[k] := blocks[k - 1];
      }
      count := count + 1;
    }

    /** Removes the entry at i by moving the tail down. */
    method DeleteBlock(i: nat)
      requires Valid() && i < count && count > 1
      modifies `count, blocks
      ensures Valid() && Contents() == old(Contents()[..i] + Contents()[i + 1..])
    {
      count := count - 1;
      forall k | i <= k < count {
        blocks[k] := blocks[k + 1];
      }
    }

    /** The body of the search loop of the allocation, once it has found its block. */
    method SplitBlock(i: nat, n: int)
      requires Valid() && i < count < MAX_BLOCKS && blocks[i].free
      modifies `count, blocks
      ensures Valid()
      ensures Contents() == SplitAt(old(Contents()), i, n)
    {
      InsertBlock(i);
      blocks[i] := Block(Field(n), false);
      blocks[i + 1] := Block(Field(blocks[i + 1].size - n), blocks[i + 1].free);
    }

    method AllocReal(size: int) returns (m: Option<int>)
      requires Valid()
      modifies `count, blocks
      ensures Valid()
      ensures m == if ready then AllocAddr(old(Contents()), size) else None
      ensures Contents() == if ready then AllocTable(old(Contents()), size) else old(Contents())
    {
      if !ready || count == MAX_BLOCKS { return None; }
      m := Search(Round(size));
    }

    /** The search loop of the allocation. */
    method Search(n: int) returns (m: Option<int>)
      requires Valid() && count < MAX_BLOCKS
      modifies `count, blocks
      ensures Valid()
      ensures m == FirstFit(old(Contents()), BASE, n) && Contents() == Split(old(Contents()), n)
    {
      ghost var t := Contents();
      var r, i := BASE, 0;
      while i < count
        invariant i <= count == |t| && Contents() == t
        invariant r == Start(t, BASE, i)
        invariant forall k :: 0 <= k < i ==> !Fits(t[k], n)
      {
        if blocks[i].free && n < blocks[i].size {
          SearchEnds(t, BASE, i, n);
          SplitBlock(i, n);
          return Some(r);
        }
        r := r + blocks[i].size;
        i := i + 1;
      }
      SearchEnds(t, BASE, i, n);
      return None;
    }

    method FreeReal(m: int)
      requires Valid()
      modifies `count, blocks
      ensures Valid()
      ensures Contents() == if ready then FreeTable(old(Contents()), m) else old(Contents())
    {
      ghost var t := Contents();
      if !ready { return; }
      var i, r := 0, BASE;
      while m != r
        invariant i < count == |t| && Contents() == t
        invariant Find(t, BASE, m) == i + Find(t[i..], r, m)
        decreases count - i
      {
        assert t[i..][1..] == t[i + 1..];
        r := r + blocks[i].size;
        i := i + 1;
        if i == count {
          ReleaseNone(t, BASE, m);
          return;
        }
      }
      ReleaseAt(t, BASE, m);
      FreeBlock(i);
    }

    /** The part of the release that follows the search. */
    method FreeBlock(i: nat)
      requires Valid() && i < count
      modifies `count, blocks
      ensures Valid() && Contents() == FreeAt(old(Contents()), i)
    {
      ghost var t := Contents();
      blocks[i] := Block(blocks[i].size, true);
      assert Contents() == t[i := Block(t[i].size, true)];
      AbsorbNext(i);
      AbsorbIntoPrevious(i);
    }

    method AbsorbNext(i: nat)
      requires Valid() && i < count
      modifies `count, blocks
      ensures Valid() && Contents() == MergeRight(old(Contents()), i)
    {
      ghost var t := Contents();
      if i + 1 < count && blocks[i + 1].free {
        ghost var merged := Block(Field(t[i].size + t[i + 1].size), t[i].free);
        blocks[i] := Block(Field(blocks[i].size + blocks[i + 1].size), blocks[i].free);
        assert Contents() == t[i := merged];
        DeleteBlock(i + 1);
        assert t[i := merged][..i + 1] == t[..i] + [merged];
        assert t[i := merged][i + 2..] == t[i + 2..];
      }
    }

    method AbsorbIntoPrevious(i: nat)
      requires Valid() && i < count
      modifies `count, blocks
      ensures Valid() && Contents() == MergeLeft(old(Contents()), i)
    {
      ghost var t := Contents();
      if i >= 1 && blocks[i - 1].free {
        ghost var merged := Block(Field(t[i - 1].size + t[i].size), true);
        blocks[i - 1] := Block(Field(blocks[i - 1].size + blocks[i].size), blocks[i - 1].free);
        assert Contents() == t[i - 1 := merged];
        DeleteBlock(i);
        assert t[i - 1 := merged][..i] == t[..i - 1] + [merged];
        assert t[i - 1 := merged][i + 1..] == t[i + 1..];
      }
    }
  }

  /** The address at which block i starts when t starts at a. */
  function Start(t: Table, a: int, i: nat): int
    requires i <= |t|
  {
    if i == 0 then a else Start(t, a, i - 1) + t[i - 1].size
  }

  lemma {:induction false} StartOfTail(t: Table, a: int, i: nat)
    requires 0 < i <= |t|
    ensures Start(t, a, i) == Start(t[1..], a + t[0].size, i - 1)
  {
    if i > 1 {
      StartOfTail(t, a, i - 1);
    }
  }

  /** Where the search loop of an allocation stops. */
  lemma {:induction false} SearchEnds(t: Table, a: int, i: nat, n: int)
    requires i <= |t| && (i < |t| ==> Fits(t[i], n))
    requires forall k :: 0 <= k < i ==> !Fits(t[k], n)
    ensures FirstFit(t, a, n) == if i < |t| then Some(Start(t, a, i)) else None
    ensures Split(t, n) == if i < |t| then SplitAt(t, i, n) else t
  {
    if i > 0 {
      assert !Fits(t[0], n);
      StartOfTail(t, a, i);
      SearchEnds(t[1..], a + t[0].size, i - 1, n);
      if i < |t| {
        SplitAtTail(t, i, n);
      }
    }
  }

  function SplitAt(t: Table, i: nat, n: int): Table
    requires i < |t|
  {
    t[..i] + [Block(Field(n), false), Block(Field(t[i].size - n), true)] + t[i + 1..]
  }

  lemma SplitAtTail(t: Table, i: nat, n: int)
    requires 0 < i < |t|
    ensures SplitAt(t, i, n) == [t[0]] + SplitAt(t[1..], i - 1, n)
  {
    assert t[..i] == [t[0]] + t[1..][..i - 1];
    assert t[i + 1..] == t[1..][i..];
  }

  /** Index of the first block that starts at p when t starts at a, or |t|. */
  function Find(t: Table, a: int, p: int): (i: nat)
    ensures i <= |t|
  {
    if t == [] || a == p then 0 else 1 + Find(t[1..], a + t[0].size, p)
  }

  function MergeRight(t: Table, i: nat): Table
    requires i < |t|
  {
    if i + 1 < |t| && t[i + 1].free
    then t[..i] + [Block(Field(t[i].size + t[i + 1].size), t[i].free)] + t[i + 2..]
    else t
  }

  function MergeLeft(t: Table, i: nat): Table
    requires i < |t|
  {
    if i >= 1 && t[i - 1].free
    then t[..i - 1] + [Block(Field(t[i - 1].size + t[i].size), true)] + t[i + 1..]
    else t
  }

  function FreeAt(t: Table, i: nat): Table
    requires i < |t|
  {
    MergeLeft(MergeRight(t[i := Block(t[i].size, true)], i), i)
  }

  lemma {:induction false} ReleaseNone(t: Table, a: int, p: int)
    requires Find(t, a, p) == |t|
    ensures Release(t, a, p) == t
  {
    if t != [] {
      ReleaseNone(t[1..], a + t[0].size, p);
    }
  }

  lemma MergeRightTail(h: Block, u: Table, i: nat)
    requires i < |u|
    ensures MergeRight([h] + u, i + 1) == [h] + MergeRight(u, i)
  {
    var t := [h] + u;
    assert t[i + 1] == u[i];
    if i + 1 < |u| {
      assert t[i + 2] == u[i + 1];
      assert t[..i + 1] == [h] + u[..i];
      assert t[i + 3..] == u[i + 2..];
    }
  }

  lemma MergeLeftTail(h: Block, u: Table, i: nat)
    requires 1 <= i < |u|
    ensures MergeLeft([h] + u, i + 1) == [h] + MergeLeft(u, i)
  {
    var t := [h] + u;
    assert t[i + 1] == u[i] && t[i] == u[i - 1] && t[..i] == [h] + u[..i - 1] && t[i + 2..] == u[i + 1..];
  }

  lemma FreeAtFirst(t: Table)
    requires |t| > 1
    ensures var rest := FreeAt(t[1..], 0);
      FreeAt(t, 1) == if t[0].free then Absorb(t[0], rest) else [t[0]] + rest
  {
    var u := t[1..][0 := Block(t[1].size, true)];
    assert t[1 := Block(t[1].size, true)] == [t[0]] + u;
    MergeRightTail(t[0], u, 0);
    var v := MergeRight(u, 0);
    assert ([t[0]] + v)[2..] == v[1..];
  }

  lemma FreeAtTail(t: Table, i: nat)
    requires 2 <= i < |t|
    ensures FreeAt(t, i) == [t[0]] + FreeAt(t[1..], i - 1)
  {
    var u := t[1..][i - 1 := Block(t[i].size, true)];
    assert t[i := Block(t[i].size, true)] == [t[0]] + u;
    MergeRightTail(t[0], u, i - 1);
    MergeLeftTail(t[0], MergeRight(u, i - 1), i - 1);
  }

  /** The search loop and the recursive release pick the same block and merge the same neighbours. */
  lemma {:induction false} ReleaseAt(t: Table, a: int, p: int)
    requires Find(t, a, p) < |t|
    ensures Release(t, a, p) == FreeAt(t, Find(t, a, p))
  {
    if a != p {
      ReleaseAt(t[1..], a + t[0].size, p);
      if a + t[0].size == p {
        FreeAtFirst(t);
      } else {
        FreeAtTail(t, Find(t, a, p));
      }
    }
  }
}
