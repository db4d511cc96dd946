/** The 32-bit words the register state machine leaves in its FIFO, and the register each one names. */
module FifoWords {
  import opened Basics
  import opened DeferWorker

  const DMA_REGISTER_BASE: bv32 := 0xEF300

  const REG_PREFETCH: bv32 := 0
  const REG_READ_COMMIT: bv32 := 1
  const REG_WRITE: bv32 := 2

  function PayloadType(raw: bv32): bv32 {
    (raw >> 30) & 3
  }

  function ReadAddress(raw: bv32): bv32 {
    (raw >> 10) & 0xFFFFF
  }

  function WriteAddress(raw: bv32): bv32 {
    (raw >> 2) & 0xFFFFF
  }

  function WriteData(raw: bv32): bv8 {
    ((raw >> 22) & 0xFF) as bv8
  }

  function EncodeRead(address: bv32): bv32 {
    ((address & 0xFFFFF) << 10) | (REG_READ_COMMIT << 30)
  }

  function EncodeWrite(address: bv32, data: bv8): bv32 {
    ((address & 0xFFFFF) << 2) | ((data as bv32) << 22) | (REG_WRITE << 30)
  }

  /** Registers below 0x80 repeat every 16 bytes, those above every 32. */
  function MaskOffset(offset: bv32): bv32 {
    if offset >= 0x80 then offset & !0x1F else offset & !0x0F
  }

  /** Register at a masked offset; offsets outside the map are answered with 0xFF and never queued. */
  function RegisterAt(offset: bv32): Option<Register> {
    if offset == 0x00 then Some(Control)
    else if offset == 0x10 then Some(Data)
    else if offset == 0x20 then Some(Status)
    else if offset == 0x30 then Some(Alias)
    else if offset == 0x80 then Some(AddressLow)
    else if offset == 0xA0 then Some(AddressMid)
    else if offset == 0xC0 then Some(AddressHigh)
    else if offset == 0x40 || offset == 0x50 || offset == 0x60 then Some(Management)
    else None
  }

  function Window(address: bv32): Option<bv32> {
    if DMA_REGISTER_BASE <= address < DMA_REGISTER_BASE + 0x100 then
      Some(MaskOffset(address - DMA_REGISTER_BASE) & 0xFF)
    else None
  }

  datatype Access = Prefetch(offset: bv32) | Commit(offset: bv32) | Write(offset: bv32, data: bv8) | Ignored

  /** What the ISR makes of a FIFO word. */
  function Decode(raw: bv32): Access {
    var kind := PayloadType(raw);
    var at := Window(if kind == REG_WRITE then WriteAddress(raw) else ReadAddress(raw));
    match at
    case None => Ignored
    case Some(offset) =>
      if kind == REG_PREFETCH then Prefetch(offset)
      else if kind == REG_READ_COMMIT then Commit(offset)
      else if kind == REG_WRITE then Write(offset, WriteData(raw))
      else Ignored
  }

  /** What the worker makes of a queued word: 0x30 is STATUS for it. */
  function EntryOf(raw: bv32): Option<Entry> {
    var kind := PayloadType(raw);
    var offset := (if kind == REG_WRITE then WriteAddress(raw) else ReadAddress(raw)) - DMA_REGISTER_BASE;
    if offset >= 0x100 then None
    else
      var masked := MaskOffset(offset);
      match RegisterAt(if masked == 0x30 then 0x20 else masked)
      case None => None
      case Some(reg) =>
        if kind == REG_READ_COMMIT then Some(ReadOf(reg))
        else if kind == REG_WRITE then Some(WriteOf(reg, WriteData(raw)))
        else None
  }

  /** A committed read of any address in a register's range is queued as a read of that register. */
  lemma ReadWord(offset: bv32)
    requires offset < 0x100
    ensures var raw := EncodeRead(DMA_REGISTER_BASE + offset);
            Decode(raw) == Commit(MaskOffset(offset)) && ReadAddress(raw) == DMA_REGISTER_BASE + offset
  {
  }

  lemma WriteWord(offset: bv32, data: bv8)
    requires offset < 0x100
    ensures var raw := EncodeWrite(DMA_REGISTER_BASE + offset, data);
            Decode(raw) == Write(MaskOffset(offset), data) && WriteAddress(raw) == DMA_REGISTER_BASE + offset
  {
  }

  /** ISR and worker decode the same word independently and agree on the access, but for the alias. */
  lemma DecodersAgree(raw: bv32)
    ensures match Decode(raw)
            case Commit(offset) =>
              EntryOf(raw) == (match RegisterAt(if offset == 0x30 then 0x20 else offset)
                               case Some(reg) => Some(ReadOf(reg))
                               case None => None)
            case Write(offset, data) =>
              EntryOf(raw) == (match RegisterAt(if offset == 0x30 then 0x20 else offset)
                               case Some(reg) => Some(WriteOf(reg, data))
                               case None => None)
            case _ => EntryOf(raw) == None
  {
  }
}
