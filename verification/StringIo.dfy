/**
 The emulation of x86 port instructions for a real-mode task: prefixes, the string forms with their
 16-bit offsets inside 32-bit registers, and REP. Bytes moved are recorded as addresses; what the
 devices answer is arbitrary.
 */
module StringIo {
  import opened Basics

  type Word = x: int | 0 <= x < 0x10000

  type Dword = x: int | 0 <= x < 0x1_0000_0000

  datatype Regs = Regs(
    eax: Dword, ecx: Dword, edx: Dword, esi: Dword, edi: Dword, eip: Dword, eflags: Dword,
    cs: Word, ss: Word, ds: Word, es: Word, fs: Word, gs: Word)

  /** One access to a port: to or from memory, or to or from eax. */
  datatype Access =
    | ToMemory(port: int, size: int, address: int)
    | FromMemory(port: int, size: int, address: int)
    | ToEax(port: int, size: int)
    | FromEax(port: int, size: int, value: int)

  function Low(x: int): Word { x % 0x10000 }

  /** The low word replaced. */
  function Put(x: Dword, low: Word): Dword { x - x % 0x10000 + low }

  predicate Down(r: Regs) { r.eflags / 0x400 % 2 == 1 }

  function Stride(r: Regs, size: int): int { if Down(r) then -size else size }

  // ---------------------------------------------------------------------------------------
  // What the string forms do
  // ---------------------------------------------------------------------------------------

  /** k strides. */
  function Moved(stride: int, k: nat): int {
    if k == 0 then 0 else Moved(stride, k - 1) + stride
  }

  /** The offset of the k-th element of a transfer. */
  function Offset(start: int, stride: int, k: nat): Word { Low(start + Moved(stride, k)) }

  function InsAt(r: Regs, size: int, k: nat): Access {
    ToMemory(Low(r.edx), size, r.es * 16 + Offset(r.edi, Stride(r, size), k))
  }

  function Base(r: Regs, seg: Byte): Word {
    if seg == CSEG then r.cs else if seg == SSEG then r.ss else if seg == ESEG then r.es
    else if seg == FSEG then r.fs else if seg == GSEG then r.gs else r.ds
  }

  function OutsAt(r: Regs, size: int, seg: Byte, k: nat): Access {
    FromMemory(Low(r.edx), size, Base(r, seg) * 16 + Offset(r.esi, Stride(r, size), k))
  }

  ghost predicate InsLog(log: seq<Access>, r: Regs, size: int, n: nat) {
    |log| == n && forall k :: 0 <= k < n ==> log[k] == InsAt(r, size, k)
  }

  ghost predicate OutsLog(log: seq<Access>, r: Regs, size: int, seg: Byte, n: nat) {
    |log| == n && forall k :: 0 <= k < n ==> log[k] == OutsAt(r, size, seg, k)
  }

  /** The registers after n elements. */
  function AfterIns(r: Regs, size: int, n: nat): Regs {
    r.(edi := Put(r.edi, Offset(r.edi, Stride(r, size), n)))
  }

  function AfterOuts(r: Regs, size: int, n: nat): Regs {
    r.(esi := Put(r.esi, Offset(r.esi, Stride(r, size), n)))
  }

  /** A repeated form runs for the low word of ecx, and leaves zero there. */
  function Times(r: Regs, rep: bool): nat { if rep then Low(r.ecx) else 1 }

  function Counted(r: Regs, rep: bool): Regs { if rep then r.(ecx := Put(r.ecx, 0)) else r }

  // ---------------------------------------------------------------------------------------
  // Arithmetic of words
  // ---------------------------------------------------------------------------------------

  lemma LowAdd(x: int, s: int)
    ensures Low(Low(x) + s) == Low(x + s)
  {
    var q := x / 0x10000;
    assert x + s == (Low(x) + s) + q * 0x10000;
    LowShift(Low(x) + s, q);
  }

  lemma LowShift(x: int, q: int)
    ensures Low(x + q * 0x10000) == Low(x)
  {
  }

  lemma LowDword(x: int)
    ensures Low(x % 0x1_0000_0000) == Low(x)
  {
    assert x == x % 0x1_0000_0000 + (x / 0x1_0000_0000 * 0x10000) * 0x10000;
    LowShift(x % 0x1_0000_0000, x / 0x1_0000_0000 * 0x10000);
  }

  /** Going through a linear address and back leaves the offset moved by the stride, within its word. */
  lemma ThroughLinear(offset: Word, base: int, stride: int)
    ensures Low(((offset + base + stride) % 0x1_0000_0000 - base) % 0x1_0000_0000) == Low(offset + stride)
  {
    var linear := offset + base + stride;
    LowDword(linear % 0x1_0000_0000 - base);
    LowDword(linear);
    LowAdd(linear % 0x1_0000_0000, -base);
    LowAdd(linear, -base);
  }

  lemma MovedOne(stride: int)
    ensures Moved(stride, 0) == 0 && Moved(stride, 1) == stride
  {
  }

  /** One string instruction of the host: through a linear address and back into the low word. */
  method StringOp(pointer: Dword, base: int, stride: int) returns (after: Dword)
    ensures after == Put(pointer, Low(pointer + stride))
  {
    ThroughLinear(Low(pointer), base, stride);
    LowAdd(pointer, stride);
    var linear := (Low(pointer) + base + stride) % 0x1_0000_0000;
    var offset := (linear - base) % 0x1_0000_0000;
    after := Put(pointer, Low(offset));
  }

  lemma {:induction false} MovedIsProduct(stride: int, k: nat)
    ensures Moved(stride, k) == stride * k
  {
    if k > 0 {
      MovedIsProduct(stride, k - 1);
    }
  }

  lemma {:induction false} MovedSum(stride: int, n: nat, k: nat)
    ensures Moved(stride, n + k) == Moved(stride, n) + Moved(stride, k)
  {
    if k > 0 {
      MovedSum(stride, n, k - 1);
    }
  }

  lemma LowSum(start: int, x: int, a: int, b: int)
    requires Low(x) == Low(start + a)
    ensures Low(x + b) == Low(start + (a + b))
  {
    LowAdd(x, b);
    LowAdd(start + a, b);
  }

  /** The offset of an element, counted from where n elements have brought the register. */
  lemma OffsetOnward(start: int, x: int, stride: int, n: nat, k: nat)
    requires Low(x) == Offset(start, stride, n)
    ensures Offset(x, stride, k) == Offset(start, stride, n + k)
  {
    MovedSum(stride, n, k);
    LowSum(start, x, Moved(stride, n), Moved(stride, k));
  }

  lemma PutPut(x: Dword, a: Word, b: Word)
    ensures Low(Put(x, a)) == a && Put(Put(x, a), b) == Put(x, b) && Put(x, Low(x)) == x
    ensures Put(x, a) / 0x10000 == x / 0x10000
  {
  }

  // ---------------------------------------------------------------------------------------
  // Instructions
  // ---------------------------------------------------------------------------------------

  const CSEG: Byte := 0x2e
  const SSEG: Byte := 0x36
  const DSEG: Byte := 0x3e
  const ESEG: Byte := 0x26
  const FSEG: Byte := 0x64
  const GSEG: Byte := 0x65

  predicate Override(b: Byte) { b == CSEG || b == SSEG || b == DSEG || b == ESEG || b == FSEG || b == GSEG }

  predicate Prefix(b: Byte) {
    Override(b) || b == 0x66 || b == 0xf3 || b == 0xf0 || b == 0xf2 || b == 0x67
  }

  /** The number of prefixes that code starts with. */
  function Prefixes(code: seq<Byte>): (n: nat)
    ensures n <= |code| && (n < |code| ==> !Prefix(code[n])) && forall k :: 0 <= k < n ==> Prefix(code[k])
  {
    if code == [] || !Prefix(code[0]) then 0 else 1 + Prefixes(code[1..])
  }

  function Count(p: seq<Byte>, b: Byte): nat {
    if p == [] then 0 else Count(p[..|p| - 1], b) + if p[|p| - 1] == b then 1 else 0
  }

  function LastOverride(p: seq<Byte>): Byte {
    if p == [] then DSEG else if Override(p[|p| - 1]) then p[|p| - 1] else LastOverride(p[..|p| - 1])
  }

  /** Where a port number comes from. */
  datatype Port = Literal(port: Byte) | InEdx

  datatype Insn =
    | Ins(size: int, rep: bool)
    | Outs(size: int, rep: bool, seg: Byte)
    | In(size: int, port: Port)
    | Out(size: int, port: Port)

  /** Short means that the given bytes end inside the instruction. */
  datatype Decoded = Decoded(insn: Insn, length: nat) | Unknown | Short

  /** What the prefixes of an instruction say. */
  datatype Meaning = Meaning(wide: bool, rep: bool, seg: Byte)

  function MeaningOf(p: seq<Byte>): Meaning {
    Meaning(Count(p, 0x66) % 2 == 1, 0xf3 in p, LastOverride(p))
  }

  /** The opcode and its operand, behind n prefixes. */
  function Opcode(code: seq<Byte>, n: nat, m: Meaning): Decoded
    requires n <= |code|
  {
    if n == |code| then Short
    else
      var op := code[n];
      var wide := if m.wide then 4 else 2;
      if op == 0x6c then Decoded(Ins(1, m.rep), n + 1)
      else if op == 0x6d then Decoded(Ins(wide, m.rep), n + 1)
      else if op == 0x6e then Decoded(Outs(1, m.rep, m.seg), n + 1)
      else if op == 0x6f then Decoded(Outs(wide, m.rep, m.seg), n + 1)
      else if op == 0xec then Decoded(In(1, InEdx), n + 1)
      else if op == 0xed then Decoded(In(wide, InEdx), n + 1)
      else if op == 0xee then Decoded(Out(1, InEdx), n + 1)
      else if op == 0xef then Decoded(Out(wide, InEdx), n + 1)
      else if op == 0xe4 || op == 0xe6 then
        if n + 1 == |code| then Short
        else Decoded(if op == 0xe4 then In(1, Literal(code[n + 1])) else Out(1, Literal(code[n + 1])), n + 2)
      else Unknown
  }

  /** An instruction: its prefixes and what follows them. */
  function Decode(code: seq<Byte>): Decoded {
    var n := Prefixes(code);
    Opcode(code, n, MeaningOf(code[..n]))
  }

  function PortOf(r: Regs, port: Port): int { if port == InEdx then Low(r.edx) else port.port }

  function Span(size: int): int { if size == 1 then 0x100 else if size == 2 then 0x10000 else 0x1_0000_0000 }

  /** `after` and the accesses are what an instruction does to `before`, apart from eip. */
  ghost predicate Executes(before: Regs, after: Regs, log: seq<Access>, insn: Insn, answer: Dword) {
    match insn
    case Ins(size, rep) =>
      after == Counted(AfterIns(before, size, Times(before, rep)), rep) && InsLog(log, before, size, Times(before, rep))
    case Outs(size, rep, seg) =>
      after == Counted(AfterOuts(before, size, Times(before, rep)), rep) && OutsLog(log, before, size, seg, Times(before, rep))
    case In(size, port) =>
      && after == before.(eax := after.eax) && after.eax / Span(size) == before.eax / Span(size)
      && after.eax % Span(size) == answer % Span(size)
      && log == [ToEax(PortOf(before, port), size)]
    case Out(size, port) =>
      after == before && log == [FromEax(PortOf(before, port), size, before.eax % Span(size))]
  }

  lemma OnePrefixMore(code: seq<Byte>, i: nat)
    requires i < |code|
    ensures var m, b := MeaningOf(code[..i]), code[i];
      MeaningOf(code[..i + 1]) == Meaning(m.wide != (b == 0x66), m.rep || b == 0xf3, if Override(b) then b else m.seg)
  {
    assert code[..i + 1][..i] == code[..i];
    assert code[..i + 1] == code[..i] + [code[i]];
  }

  class Context {
    var r: Regs
    var log: seq<Access>

    constructor (r: Regs)
      ensures this.r == r && log == []
    {
      this.r, log := r, [];
    }

    method EmIns(size: int)
      modifies this
      ensures r == AfterIns(old(r), size, 1) && log == old(log) + [InsAt(old(r), size, 0)]
    {
      var edx, edi: int := Low(r.edx), Low(r.edi);
      edi := edi + r.es * 16;
      log := log + [ToMemory(edx, size, edi)];
      MovedOne(Stride(r, size));
      var after := StringOp(r.edi, r.es * 16, if r.eflags / 0x400 % 2 == 1 then -size else size);
      r := r.(edi := after);
    }

    method EmRepIns(size: int)
      modifies this
      ensures r == Counted(AfterIns(old(r), size, Low(old(r.ecx))), true)
      ensures |log| >= |old(log)| && log[..|old(log)|] == old(log)
      ensures InsLog(log[|old(log)|..], old(r), size, Low(old(r.ecx)))
    {
      var cx: int := Low(r.ecx);
      ghost var k := 0;
      ghost var added: seq<Access> := [];
      PutPut(r.edi, 0, 0);
      while cx > 0
        invariant 0 <= cx && k + cx == Low(old(r.ecx))
        invariant r == AfterIns(old(r), size, k)
        invariant log == old(log) + added && InsLog(added, old(r), size, k)
      {
        InsCompose(old(r), size, k, 0);
        InsCompose(old(r), size, k, 1);
        cx := cx - 1;
        EmIns(size);
        added := added + [InsAt(old(r), size, k)];
        k := k + 1;
      }
      assert log[|old(log)|..] == added;
      r := r.(ecx := Put(r.ecx, 0));
    }

    method EmOuts(size: int, seg: Byte)
      modifies this
      ensures r == AfterOuts(old(r), size, 1) && log == old(log) + [OutsAt(old(r), size, seg, 0)]
    {
      var edx, esi: int := Low(r.edx), Low(r.esi);
      var base: int := Base(r, seg);
      esi := esi + base * 16;
      log := log + [FromMemory(edx, size, esi)];
      MovedOne(Stride(r, size));
      var after := StringOp(r.esi, base * 16, if r.eflags / 0x400 % 2 == 1 then -size else size);
      r := r.(esi := after);
    }

    method EmRepOuts(size: int, seg: Byte)
      modifies this
      ensures r == Counted(AfterOuts(old(r), size, Low(old(r.ecx))), true)
      ensures |log| >= |old(log)| && log[..|old(log)|] == old(log)
      ensures OutsLog(log[|old(log)|..], old(r), size, seg, Low(old(r.ecx)))
    {
      var cx: int := Low(r.ecx);
      ghost var k := 0;
      ghost var added: seq<Access> := [];
      PutPut(r.esi, 0, 0);
      while cx > 0
        invariant 0 <= cx && k + cx == Low(old(r.ecx))
        invariant r == AfterOuts(old(r), size, k)
        invariant log == old(log) + added && OutsLog(added, old(r), size, seg, k)
      {
        OutsCompose(old(r), size, seg, k, 0);
        OutsCompose(old(r), size, seg, k, 1);
        cx := cx - 1;
        EmOuts(size, seg);
        added := added + [OutsAt(old(r), size, seg, k)];
        k := k + 1;
      }
      assert log[|old(log)|..] == added;
      r := r.(ecx := Put(r.ecx, 0));
    }

    /** em_inbl, em_inb, em_inw and em_inl: the low bytes of eax become whatever the device answers. */
    method EmIn(size: int, port: int, answer: Dword)
      requires size in {1, 2, 4} && answer < Span(size)
      modifies this
      ensures r == old(r).(eax := r.eax) && r.eax / Span(size) == old(r).eax / Span(size) && r.eax % Span(size) == answer
      ensures log == old(log) + [ToEax(port, size)]
    {
      log := log + [ToEax(port, size)];
      if size == 1 {
        r := r.(eax := r.eax - r.eax % 0x100 + answer);
      } else if size == 2 {
        r := r.(eax := r.eax - r.eax % 0x10000 + answer);
      } else {
        r := r.(eax := answer);
      }
    }

    /** em_outbl, em_outb, em_outw and em_outl. */
    method EmOut(size: int, port: int)
      requires size in {1, 2, 4}
      modifies this
      ensures r == old(r) && log == old(log) + [FromEax(port, size, r.eax % Span(size))]
    {
      log := log + [FromEax(port, size, r.eax % Span(size))];
    }

    /** One decoded instruction. */
    method Execute(insn: Insn, answer: Dword)
      requires insn.size in {1, 2, 4}
      modifies this
      ensures |log| >= |old(log)| && log[..|old(log)|] == old(log)
      ensures Executes(old(r), r, log[|old(log)|..], insn, answer)
    {
      match insn {
        case Ins(size, rep) =>
          if rep { EmRepIns(size); } else { EmIns(size); }
        case Outs(size, rep, seg) =>
          if rep { EmRepOuts(size, seg); } else { EmOuts(size, seg); }
        case In(size, port) =>
          EmIn(size, PortOf(r, port), answer % Span(size));
        case Out(size, port) =>
          EmOut(size, PortOf(r, port));
      }
    }

    /**
     Decodes and executes the instruction at cs:eip. `code` is what lies there, as far as it can be
     read; `answer` is what a device answers, should it be asked.
     */
    method Emulate(code: seq<Byte>, answer: Dword) returns (result: Result)
      modifies this
      ensures match Decode(code) {
        case Short => result == OutOfCode && r == old(r) && log == old(log)
        case Unknown => result == NotEmulated && r == old(r) && log == old(log)
        case Decoded(insn, length) =>
          && result == Emulated
          && r.eip == (old(r).eip + length) % 0x1_0000_0000
          && |log| >= |old(log)| && log[..|old(log)|] == old(log)
          && Executes(old(r), r.(eip := old(r).eip), log[|old(log)|..], insn, answer)
      }
    {
      var size, rep, seg := false, false, DSEG;
      var i := 0;
      while i < |code| && Prefix(code[i])
        invariant i <= Prefixes(code) && unchanged(this)
        invariant Meaning(size, rep, seg) == MeaningOf(code[..i])
      {
        OnePrefixMore(code, i);
        if code[i] == 0x66 {
          size := !size;
        } else if code[i] == 0xf3 {
          rep := true;
        } else if Override(code[i]) {
          seg := code[i];
        }
        i := i + 1;
      }
      ghost var n, m := i, MeaningOf(code[..i]);
      assert n == Prefixes(code);
      assert Decode(code) == Opcode(code, n, m);
      if i == |code| { return OutOfCode; }
      var wide := if size then 4 else 2;
      var insn;
      var op := code[i];
      if op == 0x6c {
        insn := Ins(1, rep);
      } else if op == 0x6d {
        insn := Ins(wide, rep);
      } else if op == 0x6e {
        insn := Outs(1, rep, seg);
      } else if op == 0x6f {
        insn := Outs(wide, rep, seg);
      } else if op == 0xe4 || op == 0xe6 {
        i := i + 1;
        if i == |code| { return OutOfCode; }
        insn := if op == 0xe4 then In(1, Literal(code[i])) else Out(1, Literal(code[i]));
      } else if op == 0xec {
        insn := In(1, InEdx);
      } else if op == 0xed {
        insn := In(wide, InEdx);
      } else if op == 0xee {
        insn := Out(1, InEdx);
      } else if op == 0xef {
        insn := Out(wide, InEdx);
      } else {
        return NotEmulated;
      }
      i := i + 1;
      assert Opcode(code, n, m) == Decoded(insn, i);
      Execute(insn, answer);
      r := r.(eip := (r.eip + i) % 0x1_0000_0000);
      result := Emulated;
    }
  }

  datatype Result = Emulated | NotEmulated | OutOfCode

  /** A transfer may be split anywhere: the rest goes on where the first part stopped. */
  lemma InsCompose(r: Regs, size: int, n: nat, k: nat)
    ensures AfterIns(AfterIns(r, size, n), size, k) == AfterIns(r, size, n + k)
    ensures InsAt(AfterIns(r, size, n), size, k) == InsAt(r, size, n + k)
  {
    var stride := Stride(r, size);
    PutPut(r.edi, Offset(r.edi, stride, n), Offset(r.edi, stride, n + k));
    OffsetOnward(r.edi, Put(r.edi, Offset(r.edi, stride, n)), stride, n, k);
  }

  lemma OutsCompose(r: Regs, size: int, seg: Byte, n: nat, k: nat)
    ensures AfterOuts(AfterOuts(r, size, n), size, k) == AfterOuts(r, size, n + k)
    ensures OutsAt(AfterOuts(r, size, n), size, seg, k) == OutsAt(r, size, seg, n + k)
  {
    var stride := Stride(r, size);
    PutPut(r.esi, Offset(r.esi, stride, n), Offset(r.esi, stride, n + k));
    OffsetOnward(r.esi, Put(r.esi, Offset(r.esi, stride, n)), stride, n, k);
  }

  // ---------------------------------------------------------------------------------------
  // What a reader may rely on
  // ---------------------------------------------------------------------------------------

  /**
   After a repeated string instruction the low word of ecx is zero and the offset has moved by size
   times the count, up or down, within 16 bits; the high words of both registers and all other
   registers are as before.
   */
  lemma RepeatedInsRegisters(r: Regs, after: Regs, log: seq<Access>, size: int, answer: Dword)
    requires Executes(r, after, log, Ins(size, true), answer)
    ensures Low(after.ecx) == 0 && after.ecx / 0x10000 == r.ecx / 0x10000
    ensures Low(after.edi) == Low(r.edi + (if Down(r) then -size * Low(r.ecx) else size * Low(r.ecx)))
    ensures after.edi / 0x10000 == r.edi / 0x10000
    ensures after == r.(ecx := after.ecx, edi := after.edi)
  {
    PutPut(r.ecx, 0, 0);
    PutPut(r.edi, Offset(r.edi, Stride(r, size), Low(r.ecx)), 0);
    MovedIsProduct(Stride(r, size), Low(r.ecx));
  }

  lemma RepeatedOutsRegisters(r: Regs, after: Regs, log: seq<Access>, size: int, seg: Byte, answer: Dword)
    requires Executes(r, after, log, Outs(size, true, seg), answer)
    ensures Low(after.ecx) == 0 && after.ecx / 0x10000 == r.ecx / 0x10000
    ensures Low(after.esi) == Low(r.esi + (if Down(r) then -size * Low(r.ecx) else size * Low(r.ecx)))
    ensures after.esi / 0x10000 == r.esi / 0x10000
    ensures after == r.(ecx := after.ecx, esi := after.esi)
  {
    PutPut(r.ecx, 0, 0);
    PutPut(r.esi, Offset(r.esi, Stride(r, size), Low(r.ecx)), 0);
    MovedIsProduct(Stride(r, size), Low(r.ecx));
  }

  /** The k-th element goes to the offset k sizes on, up or down, within the 64 KiB of its segment. */
  lemma ElementAddress(r: Regs, after: Regs, log: seq<Access>, size: int, rep: bool, answer: Dword, k: nat)
    requires Executes(r, after, log, Ins(size, rep), answer)
    ensures |log| == if rep then Low(r.ecx) else 1
    ensures k < |log| ==> log[k] == ToMemory(Low(r.edx), size, r.es * 16 + Low(r.edi + Stride(r, size) * k))
  {
    var stride := Stride(r, size);
    MovedIsProduct(stride, k);
    assert Offset(r.edi, stride, k) == Low(r.edi + stride * k);
  }

  /** The segment register that an override names; ds without one. */
  predicate Segment(r: Regs, seg: Byte, base: Word) {
    && (seg == 0x2e ==> base == r.cs) && (seg == 0x36 ==> base == r.ss) && (seg == 0x3e ==> base == r.ds)
    && (seg == 0x26 ==> base == r.es) && (seg == 0x64 ==> base == r.fs) && (seg == 0x65 ==> base == r.gs)
  }

  /** Likewise for output, from the segment that the override says. */
  lemma ElementSource(r: Regs, after: Regs, log: seq<Access>, size: int, rep: bool, seg: Byte, answer: Dword, base: Word, k: nat)
    requires Executes(r, after, log, Outs(size, rep, seg), answer) && Override(seg) && Segment(r, seg, base)
    ensures |log| == if rep then Low(r.ecx) else 1
    ensures k < |log| ==> log[k] == FromMemory(Low(r.edx), size, base * 16 + Low(r.esi + Stride(r, size) * k))
  {
    var stride := Stride(r, size);
    MovedIsProduct(stride, k);
    assert Offset(r.esi, stride, k) == Low(r.esi + stride * k);
  }

  /** Without REP, the offset moves by one element within its word and nothing else changes. */
  lemma SingleRegisters(r: Regs, after: Regs, log: seq<Access>, insn: Insn, answer: Dword)
    requires Executes(r, after, log, insn, answer) && (insn.Ins? || insn.Outs?) && !insn.rep
    ensures var step := if r.eflags / 0x400 % 2 == 1 then -insn.size else insn.size;
      if insn.Ins? then after == r.(edi := r.edi / 0x10000 * 0x10000 + Low(r.edi + step))
      else after == r.(esi := r.esi / 0x10000 * 0x10000 + Low(r.esi + step))
  {
    MovedOne(Stride(r, insn.size));
  }

  /** x with its lowest bytes, 1, 2 or 4 of them, taken from y. */
  function Mixed(x: Dword, y: Dword, bytes: int): Dword {
    if bytes == 1 then x / 0x100 * 0x100 + y % 0x100 else if bytes == 2 then x / 0x10000 * 0x10000 + y % 0x10000 else y
  }

  /**
   The other forms make one access, to the literal port or to the low word of edx; input replaces
   the low bytes of eax, as many as the form has, and output changes no register.
   */
  lemma PortAccess(r: Regs, after: Regs, log: seq<Access>, insn: Insn, answer: Dword)
    requires Executes(r, after, log, insn, answer) && (insn.In? || insn.Out?) && insn.size in {1, 2, 4}
    ensures var port: int := if insn.port.Literal? then insn.port.port else r.edx % 0x10000;
      if insn.In? then log == [ToEax(port, insn.size)] && after == r.(eax := Mixed(r.eax, answer, insn.size))
      else log == [FromEax(port, insn.size, Mixed(0, r.eax, insn.size))] && after == r
  {
    var span := Span(insn.size);
    assert after.eax == after.eax / span * span + after.eax % span;
  }

  ghost predicate AllPrefixes(p: seq<Byte>) { forall k :: 0 <= k < |p| ==> Prefix(p[k]) }

  lemma {:induction false} PrefixesThen(p: seq<Byte>, rest: seq<Byte>)
    requires AllPrefixes(p) && (rest != [] ==> !Prefix(rest[0]))
    ensures Prefixes(p + rest) == |p|
  {
    if p == [] {
      assert p + rest == rest;
    } else {
      assert (p + rest)[1..] == p[1..] + rest;
      PrefixesThen(p[1..], rest);
    }
  }

  lemma DecodeAfter(p: seq<Byte>, rest: seq<Byte>)
    requires AllPrefixes(p) && (rest != [] ==> !Prefix(rest[0]))
    ensures Decode(p + rest) == Opcode(p + rest, |p|, MeaningOf(p))
  {
    PrefixesThen(p, rest);
    assert (p + rest)[..|p|] == p;
  }

  /**
   Of a run of prefixes only what MeaningOf says matters: whether 0x66 occurs an odd number of times, whether
   0xF3 occurs, and which segment override comes last.
   */
  lemma PrefixMeaning(p: seq<Byte>, q: seq<Byte>, rest: seq<Byte>)
    requires AllPrefixes(p) && AllPrefixes(q) && (rest != [] ==> !Prefix(rest[0]))
    requires MeaningOf(p) == MeaningOf(q)
    ensures match Decode(p + rest) {
      case Decoded(insn, length) => |p| < length && Decode(q + rest) == Decoded(insn, length - |p| + |q|)
      case other => Decode(q + rest) == other
    }
  {
    DecodeAfter(p, rest);
    DecodeAfter(q, rest);
    OpcodeMoves(p, q, rest, MeaningOf(p));
  }

  lemma OpcodeMoves(p: seq<Byte>, q: seq<Byte>, rest: seq<Byte>, m: Meaning)
    ensures match Opcode(p + rest, |p|, m) {
      case Decoded(insn, length) => |p| < length && Opcode(q + rest, |q|, m) == Decoded(insn, length - |p| + |q|)
      case other => Opcode(q + rest, |q|, m) == other
    }
  {
    if rest != [] {
      assert (p + rest)[|p|] == rest[0] == (q + rest)[|q|];
    }
    if |rest| > 1 {
      assert (p + rest)[|p| + 1] == rest[1] == (q + rest)[|q| + 1];
    }
  }

  // ---------------------------------------------------------------------------------------
  // The table of opcodes, from their bits
  // ---------------------------------------------------------------------------------------

  const OVERRIDES: set<Byte> := {0x2e, 0x36, 0x3e, 0x26, 0x64, 0x65}
  const PREFIXES: set<Byte> := OVERRIDES + {0x66, 0xf3, 0xf0, 0xf2, 0x67}
  const OPCODES: set<Byte> := {0x6c, 0x6d, 0x6e, 0x6f, 0xe4, 0xe6, 0xec, 0xed, 0xee, 0xef}

  lemma {:induction false} CountIsMultiplicity(p: seq<Byte>, b: Byte)
    ensures Count(p, b) == multiset(p)[b]
  {
    if p != [] {
      var n := |p| - 1;
      assert p == p[..n] + [p[n]];
      CountIsMultiplicity(p[..n], b);
    }
  }

  predicate SegmentByte(b: Byte) { b in OVERRIDES }

  /** The last override among p is at k. */
  ghost predicate LastAt(p: seq<Byte>, k: int) {
    0 <= k < |p| && SegmentByte(p[k]) && forall i :: k < i < |p| ==> !SegmentByte(p[i])
  }

  /** The segment byte s is the last override among the prefixes p, or that of ds if there is none. */
  ghost predicate Last(p: seq<Byte>, s: Byte) {
    (s == 0x3e && forall k :: 0 <= k < |p| ==> !SegmentByte(p[k])) || exists k :: LastAt(p, k) && p[k] == s
  }

  lemma LastKept(p: seq<Byte>, b: Byte, s: Byte)
    requires Last(p, s) && !SegmentByte(b)
    ensures Last(p + [b], s)
  {
    if k :| LastAt(p, k) && p[k] == s {
      assert LastAt(p + [b], k);
    }
  }

  lemma {:induction false} LastIs(p: seq<Byte>)
    ensures Last(p, LastOverride(p))
  {
    if p != [] {
      var n := |p| - 1;
      assert p == p[..n] + [p[n]];
      if SegmentByte(p[n]) {
        assert LastAt(p, n);
      } else {
        LastIs(p[..n]);
        LastKept(p[..n], p[n], LastOverride(p[..n]));
      }
    }
  }

  predicate ToPort(insn: Insn) { insn.Outs? || insn.Out? }

  predicate ByString(insn: Insn) { insn.Ins? || insn.Outs? }

  /**
   What op means behind the prefixes p, read off its bits: bit 1 is the direction, bit 0 the size
   together with the number of 0x66, the high nibble tells the string forms, and two opcodes have
   their port in the next byte.
   */
  ghost predicate BitsSay(p: seq<Byte>, op: Byte, rest: seq<Byte>, insn: Insn) {
    && (ToPort(insn) <==> op / 2 % 2 == 1)
    && insn.size == (if op % 2 == 0 then 1 else if multiset(p)[0x66] % 2 == 1 then 4 else 2)
    && (ByString(insn) <==> op / 16 == 6)
    && (ByString(insn) ==> (insn.rep <==> 0xf3 in p))
    && (insn.Outs? ==> Last(p, insn.seg))
    && (!ByString(insn) ==>
          if op == 0xe4 || op == 0xe6 then rest != [] && insn.port == Literal(rest[0]) else insn.port == InEdx)
  }

  /** Behind every run of prefixes, every byte that is not a prefix decodes as its bits say. */
  lemma OpcodeTable(p: seq<Byte>, op: Byte, rest: seq<Byte>)
    requires (forall k :: 0 <= k < |p| ==> p[k] in PREFIXES) && op !in PREFIXES
    ensures var d, operand := Decode(p + [op] + rest), op == 0xe4 || op == 0xe6;
      && (d.Unknown? <==> op !in OPCODES) && (d.Short? <==> operand && rest == [])
      && (d.Decoded? ==> d.length == |p| + (if operand then 2 else 1) && BitsSay(p, op, rest, d.insn))
  {
    var m := MeaningOf(p);
    assert p + [op] + rest == p + ([op] + rest);
    DecodeAfter(p, [op] + rest);
    OpcodeMoves(p, [], [op] + rest, m);
    assert [] + ([op] + rest) == [op] + rest;
    CountIsMultiplicity(p, 0x66);
    LastIs(p);
    OpcodeBits(p, op, rest);
  }

  lemma OpcodeBits(p: seq<Byte>, op: Byte, rest: seq<Byte>)
    requires Count(p, 0x66) == multiset(p)[0x66] && Last(p, LastOverride(p))
    ensures var d, operand := Opcode([op] + rest, 0, MeaningOf(p)), op == 0xe4 || op == 0xe6;
      && (d.Unknown? <==> op !in OPCODES) && (d.Short? <==> operand && rest == [])
      && (d.Decoded? ==> d.length == (if operand then 2 else 1) && BitsSay(p, op, rest, d.insn))
  {
    if rest != [] {
      assert ([op] + rest)[1] == rest[0];
    }
  }

  /** With nothing behind the prefixes, the code is too short. */
  lemma PrefixesAlone(p: seq<Byte>)
    requires forall k :: 0 <= k < |p| ==> p[k] in PREFIXES
    ensures Decode(p).Short?
  {
    assert p + [] == p;
    DecodeAfter(p, []);
  }

  lemma OpcodeWithin(code: seq<Byte>, n: nat, m: Meaning)
    requires n <= |code| && Opcode(code, n, m).Decoded?
    ensures var d := Opcode(code, n, m); n < d.length <= |code| && d.insn.size in {1, 2, 4}
  {
  }

  /** A decoded instruction lies within the given bytes, so the decoder always gets further. */
  lemma DecodedWithin(code: seq<Byte>)
    requires Decode(code).Decoded?
    ensures Prefixes(code) < Decode(code).length <= |code| && Decode(code).insn.size in {1, 2, 4}
  {
    OpcodeWithin(code, Prefixes(code), MeaningOf(code[..Prefixes(code)]));
  }
}
