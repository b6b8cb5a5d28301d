/** The interrupt controller, with no handler registered: firing a source raises its IF bit. */
module Interrupts {
  import opened Words

  const IRQ_VBLANK := 0
  const IRQ_HBLANK := 1
  const IRQ_VCOUNTER := 2
  const IRQ_TIMER0 := 3
  const IRQ_DMA0 := 8

  /** `if_reg |= 1 << irq_id` */
  function Raise(flags: nat, irq: nat): nat {
    Or(flags, Pow2(irq))
  }

  /** Firing a source sets its own bit and no other. */
  lemma {:induction false} RaiseBit(flags: nat, irq: nat, k: nat)
    ensures Bit(Raise(flags, irq), k) <==> k == irq || Bit(flags, k)
  {
    OrBit(flags, Pow2(irq), k);
    PowBit(irq, k);
  }

  class InterruptController {
    var ifReg: nat

    constructor ()
      ensures ifReg == 0
    {
      ifReg := 0;
    }

    method Fire(irq: nat)
      modifies this
      ensures ifReg == Raise(old(ifReg), irq)
    {
      ifReg := Or(ifReg, Pow2(irq));
    }
  }
}
