/** Saving and restoring a suspended process: context_switch.asm, its call in scheduler_tick and
    the first frame that scheduler_create_process builds. */
module ContextSwitch {
  /** Callee-saved registers of the System V ABI for i386, stack pointer, and where execution goes on. */
  datatype Regs = Regs(edi: int, esi: int, ebx: int, ebp: int, esp: int, eip: int)

  const FRAME_BYTES := 20

  /** Memory is a sequence of 32-bit words; addresses count bytes. */
  predicate Aligned(mem: seq<int>, a: int) { 0 <= a < 4 * |mem| && a % 4 == 0 }

  function Load(mem: seq<int>, a: int): int
    requires Aligned(mem, a)
  {
    mem[a / 4]
  }

  function Store(mem: seq<int>, a: int, v: int): (r: seq<int>)
    requires Aligned(mem, a)
    ensures |r| == |mem|
  {
    mem[a / 4 := v]
  }

  /** All words of [lo, hi) are addressable. */
  predicate Span(mem: seq<int>, lo: int, hi: int) {
    0 <= lo <= hi <= 4 * |mem| && lo % 4 == 0 && hi % 4 == 0
  }

  predicate FrameAt(mem: seq<int>, sp: int, r: Regs) {
    && Span(mem, sp, sp + FRAME_BYTES)
    && Load(mem, sp) == r.edi && Load(mem, sp + 4) == r.esi && Load(mem, sp + 8) == r.ebx
    && Load(mem, sp + 12) == r.ebp && Load(mem, sp + 16) == r.eip && r.esp == sp + FRAME_BYTES
  }

  /** call context_switch(slot, newEsp) */
  function Called(mem: seq<int>, sp: int, eip: int, slot: int, newEsp: int): (m: seq<int>)
    requires Span(mem, sp - 12, sp)
    ensures |m| == |mem|
  {
    Store(Store(Store(mem, sp - 4, newEsp), sp - 8, slot), sp - 12, eip)
  }

  /** The four pushes at the start of context_switch. */
  function SavedRegs(mem: seq<int>, sp: int, r: Regs): (m: seq<int>)
    requires Span(mem, sp - 16, sp)
    ensures |m| == |mem|
  {
    Store(Store(Store(Store(mem, sp - 4, r.ebp), sp - 8, r.ebx), sp - 12, r.esi), sp - 16, r.edi)
  }

  function Pushed(mem: seq<int>, r: Regs, slot: int, newEsp: int): (m: seq<int>)
    requires Span(mem, r.esp - 28, r.esp)
    ensures |m| == |mem|
  {
    SavedRegs(Called(mem, r.esp, r.eip, slot, newEsp), r.esp - 12, r)
  }

  /** The registers with which the caller goes on when context_switch returns to it. */
  function AfterReturn(r: Regs): Regs { r.(esp := r.esp - 8) }

  lemma FrameAligned(mem: seq<int>, sp: int)
    requires Span(mem, sp, sp + FRAME_BYTES)
    ensures Aligned(mem, sp) && Aligned(mem, sp + 4) && Aligned(mem, sp + 8) && Aligned(mem, sp + 12)
            && Aligned(mem, sp + 16)
  {
    assert sp == 4 * (sp / 4);
  }

  /** The four pops and the ret at the end of context_switch. */
  function Popped(mem: seq<int>, sp: int): Regs
    requires Span(mem, sp, sp + FRAME_BYTES)
  {
    FrameAligned(mem, sp);
    Regs(Load(mem, sp), Load(mem, sp + 4), Load(mem, sp + 8), Load(mem, sp + 12), sp + FRAME_BYTES, Load(mem, sp + 16))
  }

  /** The four stores of scheduler_create_process below the end of a new stack. */
  function FirstFrame(mem: seq<int>, end: int, trampoline: int): (m: seq<int>)
    requires Span(mem, end - FRAME_BYTES, end)
    ensures |m| == |mem|
  {
    Store(Store(Store(Store(Store(mem, end - 4, trampoline), end - 8, 0), end - 12, 0), end - 16, 0), end - 20, 0)
  }

  /** The saved frame holds the caller's context, and no word outside the 28 bytes changes. */
  lemma PushedFrame(mem: seq<int>, r: Regs, slot: int, newEsp: int)
    requires Span(mem, r.esp - 28, r.esp)
    ensures FrameAt(Pushed(mem, r, slot, newEsp), r.esp - 28, AfterReturn(r))
    ensures forall a :: Aligned(mem, a) && (a < r.esp - 28 || a >= r.esp) ==>
              Load(Pushed(mem, r, slot, newEsp), a) == Load(mem, a)
    ensures Load(Pushed(mem, r, slot, newEsp), r.esp - 4) == newEsp
    ensures Load(Pushed(mem, r, slot, newEsp), r.esp - 8) == slot
  {
  }

  lemma FirstFrameWords(mem: seq<int>, end: int, trampoline: int)
    requires Span(mem, end - FRAME_BYTES, end)
    ensures FrameAt(FirstFrame(mem, end, trampoline), end - FRAME_BYTES, Regs(0, 0, 0, 0, end, trampoline))
    ensures forall a :: Aligned(mem, a) && (a < end - FRAME_BYTES || a >= end) ==>
              Load(FirstFrame(mem, end, trampoline), a) == Load(mem, a)
  {
  }

  /** Popping a frame gives back exactly the context it holds. */
  lemma PopRestores(mem: seq<int>, sp: int, r: Regs)
    requires Span(mem, sp, sp + FRAME_BYTES)
    ensures Popped(mem, sp) == r <==> FrameAt(mem, sp, r)
  {
  }

  /** The processor running context_switch.asm over memory. */
  class Cpu {
    const mem: array<int>
    var edi: int
    var esi: int
    var ebx: int
    var ebp: int
    var eax: int
    var esp: int
    var eip: int

    constructor (words: nat)
      ensures mem.Length == words && fresh(mem)
    {
      mem := new int[words];
      edi, esi, ebx, ebp, eax, esp, eip := 0, 0, 0, 0, 0, 0, 0;
    }

    function Context(): Regs
      reads this
    {
      Regs(edi, esi, ebx, ebp, esp, eip)
    }

    method Write(a: int, v: int)
      requires Aligned(mem[..], a)
      modifies mem
      ensures mem[..] == Store(old(mem[..]), a, v)
    {
      mem[a / 4] := v;
    }

    method Push(v: int)
      requires Aligned(mem[..], esp - 4)
      modifies this`esp, mem
      ensures esp == old(esp) - 4 && mem[..] == Store(old(mem[..]), esp, v)
    {
      esp := esp - 4;
      Write(esp, v);
    }

    method Pop() returns (v: int)
      requires Aligned(mem[..], esp)
      modifies this`esp
      ensures esp == old(esp) + 4 && v == Load(mem[..], old(esp))
    {
      v := mem[esp / 4];
      esp := esp + 4;
    }

    /** The call in scheduler_tick followed by context_switch. The store through the first
        argument, which points to a control block, is the result saved. */
    method Switch(slot: int, newEsp: int) returns (saved: int)
      requires Span(mem[..], esp - 28, esp) && Span(mem[..], newEsp, newEsp + FRAME_BYTES)
      modifies this, mem
      ensures mem[..] == Pushed(old(mem[..]), old(Context()), slot, newEsp)
      ensures saved == old(esp) - 28 && eax == slot
      ensures Context() == Popped(mem[..], newEsp)
    {
      PushedFrame(mem[..], Context(), slot, newEsp);
      Call(slot, newEsp);
      Save();
      assert Load(mem[..], esp + 20) == slot && Load(mem[..], esp + 24) == newEsp;
      eax := mem[(esp + 20) / 4];
      saved := esp;
      esp := mem[(esp + 24) / 4];
      Restore();
    }

    /** Push the arguments and the return address. */
    method Call(slot: int, newEsp: int)
      requires Span(mem[..], esp - 12, esp)
      modifies this`esp, mem
      ensures mem[..] == Called(old(mem[..]), old(esp), eip, slot, newEsp) && esp == old(esp) - 12
    {
      Push(newEsp);
      Push(slot);
      Push(eip);
    }

    /** Push the callee-saved registers. */
    method Save()
      requires Span(mem[..], esp - 16, esp)
      modifies this`esp, mem
      ensures mem[..] == SavedRegs(old(mem[..]), old(esp), old(Context())) && esp == old(esp) - 16
    {
      Push(ebp);
      Push(ebx);
      Push(esi);
      Push(edi);
    }

    /** Pop the callee-saved registers and return. */
    method Restore()
      requires Span(mem[..], esp, esp + FRAME_BYTES)
      modifies this
      ensures Context() == Popped(mem[..], old(esp)) && eax == old(eax)
    {
      edi := Pop();
      esi := Pop();
      ebx := Pop();
      ebp := Pop();
      eip := Pop();
    }
  }
}
