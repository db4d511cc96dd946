/** Bit layout of the SASI bus word, of the CONTROL register and of the phases a host can read in STATUS. */
module SasiBits {

  // SASI bus state bits
  const INP: bv8 := 0x01
  const CTL: bv8 := 0x02
  const BSY: bv8 := 0x04
  const REQ: bv8 := 0x08
  const MSG: bv8 := 0x10
  const SEL: bv8 := 0x20
  const ACK: bv8 := 0x40

  // CONTROL register bits
  const DMA_ON_VALUE: bv8 := 0x01
  const DMA_ON_LATCH: bv8 := 0x04
  const DMA_SELECT: bv8 := 0x10
  const DMA_RESET: bv8 := 0x20

  // What the host polls for
  const PHASE_FREE: bv8 := 0x00
  const PHASE_SELECTED: bv8 := 0x04
  const PHASE_PARAMETERS: bv8 := 0x0C
  const PHASE_COMMAND: bv8 := 0x0E
  const PHASE_STATUS: bv8 := 0x0F
  const PHASE_MESSAGE: bv8 := 0x1F

  const GOOD: bv8 := 0x00
  const CHECK_CONDITION: bv8 := 0x02

  /** The five bits of the bus word that STATUS shows. */
  function Phase(bus: bv8): bv8 {
    bus & 0x1F
  }

  /** The bus word after dropping the bits in `clear` and raising those in `put`. */
  function Drive(bus: bv8, clear: bv8, put: bv8): bv8 {
    (bus & !clear) | put
  }

  predicate Selecting(control: bv8) {
    control & DMA_SELECT != 0
  }

  predicate BitSet(b: bv8, k: nat)
    requires k < 8
  {
    (b >> k) & 1 == 1
  }

  /** Target named by a selection byte: its lowest bit below the initiator bit, 0 when there is none. */
  function ExtractTarget(selection: bv8): (id: nat)
    ensures id < 7
    ensures selection & 0x7F == 0 ==> id == 0
    ensures selection & 0x7F != 0 ==> BitSet(selection, id) && forall k: nat | k < id :: !BitSet(selection, k)
  {
    if selection & 0x01 != 0 then 0
    else if selection & 0x02 != 0 then 1
    else if selection & 0x04 != 0 then 2
    else if selection & 0x08 != 0 then 3
    else if selection & 0x10 != 0 then 4
    else if selection & 0x20 != 0 then 5
    else if selection & 0x40 != 0 then 6
    else 0
  }
}
