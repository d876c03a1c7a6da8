/**
 The interrupt task of the v86 helper as a client of the real-mode allocator: it borrows one
 buffer, points the BIOS at it through a segment register, and gives it back on every path.
 The BIOS is a parameter; the contents of the buffer are not modelled.
 */
module V86Task {
  import opened Basics
  import opened RealMemory
  import opened RealMemoryManager

  datatype Regs = Regs(
    eax: nat, ebx: nat, ecx: nat, edx: nat, esi: nat, edi: nat, ebp: nat, esp: nat, eip: nat, eflags: nat,
    cs: nat, ss: nat, es: nat, ds: nat, fs: nat, gs: nat)

  datatype Flags = Flags(vbeib: bool, bufEsDi: bool, bufEsBx: bool)

  /** What the emulated interrupt 0x10 does to the registers, and whether the emulation failed. */
  type Bios = Regs -> (Regs, bool)

  /** A segment register holds 16 bits. */
  function Segment(address: int): nat { address / 16 % 0x1_0000 }

  /** Whether the task asks the allocator for a buffer. */
  predicate Borrows(flags: Flags, bufLen: int) { flags.vbeib || bufLen != 0 }

  /** A segment register with offset zero denotes exactly the block at p. */
  predicate PointsAt(es: nat, offset: nat, p: int) {
    es < 0x1_0000 && offset == 0 && es * 16 + offset == p
  }

  lemma {:induction false} FirstFitAligned(t: Table, a: int, n: int)
    requires Tidy(t) && FirstFit(t, a, n).Some?
    ensures var p := FirstFit(t, a, n).value; a <= p < a + Total(t) && (p - a) % 16 == 0
  {
    LiveBounds(t[1..], a);
    if !Fits(t[0], n) {
      FirstFitAligned(t[1..], a + t[0].size, n);
    }
  }

  /** A refused request of any size leaves the table alone. */
  lemma {:induction false} SplitNone(t: Table, a: int, n: int)
    requires FirstFit(t, a, n) == None
    ensures Split(t, n) == t
  {
    if t != [] {
      SplitNone(t[1..], a + t[0].size, n);
    }
  }

  lemma Refused(t: Table, size: int)
    requires AllocAddr(t, size) == None
    ensures AllocTable(t, size) == t
  {
    if |t| != MAX_BLOCKS {
      SplitNone(t, BASE, Round(size));
    }
  }

  /** The address of an allocated block is a 16-bit segment exactly. */
  lemma SegmentIsExact(t: Table, size: int)
    requires WellFormed(t) && AllocAddr(t, size).Some?
    ensures var p := AllocAddr(t, size).value; p != 0 && PointsAt(Segment(p), 0, p)
  {
    FirstFitAligned(t, BASE, Round(size));
  }

  /**
   `passed` is the register file that the BIOS got, if it was called. The task returns -1 exactly
   if it needs a buffer that it cannot have; the table ends as it began in every case.
   */
  method Task(mem: MemInfo, flags: Flags, bufLen: int, regs: Regs, bios: Bios)
    returns (status: int, out: Regs, passed: Option<Regs>)
    requires mem.Valid() && (mem.ready ==> WellFormed(mem.Contents()))
    modifies mem`count, mem.blocks
    ensures mem.Valid() && mem.Contents() == old(mem.Contents())
    ensures var p := if mem.ready then AllocAddr(old(mem.Contents()), bufLen) else None;
      && (status == -1 || status == 0)
      && (status == -1 <==> Borrows(flags, bufLen) && p == None)
      && (passed == None <==> status == -1)
      && (passed.Some? && Borrows(flags, bufLen) && (flags.vbeib || flags.bufEsDi) ==>
            PointsAt(passed.value.es, passed.value.edi, p.value))
      && (passed.Some? && Borrows(flags, bufLen) && !flags.vbeib && flags.bufEsBx ==>
            PointsAt(passed.value.es, passed.value.ebx, p.value))
    ensures out == if passed.Some? then bios(passed.value).0 else regs
    ensures passed.Some? ==> passed.value.(es := regs.es, edi := regs.edi, ebx := regs.ebx) == regs
    ensures passed.Some? && (flags.vbeib || !flags.bufEsBx) ==> passed.value.ebx == regs.ebx
    ensures passed.Some? && !flags.vbeib && !flags.bufEsDi ==> passed.value.edi == regs.edi
    ensures passed.Some? && !flags.vbeib && !flags.bufEsDi && !flags.bufEsBx ==> passed.value.es == regs.es
    ensures passed.Some? && !Borrows(flags, bufLen) ==>
      && (flags.bufEsDi ==> passed.value.es == passed.value.edi == 0)
      && (flags.bufEsBx ==> passed.value.es == passed.value.ebx == 0)
  {
    ghost var t := mem.Contents();
    out, passed := regs, None;
    if flags.vbeib {
      var m := mem.AllocReal(bufLen);
      if m == None {
        if mem.ready { Refused(t, bufLen); }
        return -1, out, passed;
      }
      var lbuf := m.value;
      SegmentIsExact(t, bufLen);
      out := out.(es := Segment(lbuf), edi := 0);
      passed := Some(out);
      out := bios(out).0;
      AllocThenFree(t, bufLen);
      mem.FreeReal(lbuf);
    } else {
      var lbuf := 0;
      if bufLen != 0 {
        var m := mem.AllocReal(bufLen);
        if m == None {
          if mem.ready { Refused(t, bufLen); }
          return -1, out, passed;
        }
        lbuf := m.value;
        SegmentIsExact(t, bufLen);
        AllocThenFree(t, bufLen);
      }
      if flags.bufEsDi {
        out := out.(es := Segment(lbuf), edi := 0);
      }
      if flags.bufEsBx {
        out := out.(es := Segment(lbuf), ebx := 0);
      }
      passed := Some(out);
      out := bios(out).0;
      if bufLen != 0 {
        mem.FreeReal(lbuf);
      }
    }
    status := 0;
  }
}
