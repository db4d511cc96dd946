/**
 * The firmware's own form of the register window: the cache and the queue as arrays, the ISR and the
 * worker as methods that update them in place.  Each method is tied to the step functions the protocol
 * is proved about.
 */
module RegisterBoard {
  import opened Basics
  import opened SasiBits
  import opened DeferWorker
  import opened RegisterIsr
  import opened FifoWords
  import Ring
  import Rest = RegisterRest
  import Safety = RegisterSafety

  /** A write as the ISR sees it, STATUS and alias included although a conforming host never writes them. */
  function IsrWrite(m: Machine, offset: bv32, data: bv8): Machine {
    if offset == 0x00 then WriteControl(m, data)
    else if offset == 0x20 then m.(cells := m.cells.(c20 := data, c30 := data))
    else if offset == 0x30 then m.(cells := m.cells.(c30 := data))
    else m
  }

  function CellStored(m: Machine, offset: bv32, data: bv8): Machine {
    if offset == 0x00 then m.(cells := m.cells.(control := data))
    else if offset == 0x20 then m.(cells := m.cells.(c20 := data, c30 := data))
    else if offset == 0x30 then m.(cells := m.cells.(c30 := data))
    else m
  }

  predicate Deferred(offset: bv32) {
    offset in {0x00, 0x10, 0x20, 0x30}
  }

  function Push(pending: seq<bv32>, raw: bv32): seq<bv32> {
    if |pending| < DEFER_QUEUE_SIZE - 1 then pending + [raw] else pending
  }

  lemma {:induction false} PerformPlain(ops: seq<Op>, m: Machine)
    requires CheckReset !in ops
    ensures Perform(ops, m) == Run(ops, m) && !Abandons(ops, m)
    decreases |ops|
  {
    if ops != [] {
      assert ops[0] in ops;
      PerformPlain(ops[1..], Exec(ops[0], m));
    }
  }

  lemma PerformPublish(c: bv8, p: bv8, rest: seq<Op>, m: Machine)
    ensures Perform(Publish(c, p) + rest, m) == Perform(rest, Rest.Shown(m, c, p))
    ensures Abandons(Publish(c, p) + rest, m) == Abandons(rest, Rest.Shown(m, c, p))
  {
    PerformPlain(Publish(c, p), m);
    RunPublish(c, p, m);
    PerformAppend(Publish(c, p), rest, m);
    AbandonsAppend(Publish(c, p), rest, m);
  }

  lemma {:induction false} AbandonsAppend(a: seq<Op>, b: seq<Op>, m: Machine)
    requires !Abandons(a, m)
    ensures Abandons(a + b, m) == Abandons(b, Perform(a, m))
    decreases |a|
  {
    if a == [] {
      assert a + b == b;
    } else {
      assert (a + b)[0] == a[0] && (a + b)[1..] == a[1..] + b;
      AbandonsAppend(a[1..], b, Exec(a[0], m));
    }
  }

  lemma {:induction false} WorkKeepsLocal(ws: seq<Work>, m: Machine)
    ensures Perform(Expand(ws), m).local == m.local
    decreases |ws|
  {
    if ws != [] {
      var rest := Expand(ws[1..]);
      match ws[0] {
        case Show(c, p) =>
          PerformPublish(c, p, rest, m);
          WorkKeepsLocal(ws[1..], Rest.Shown(m, c, p));
        case LookForReset =>
          assert ([CheckReset] + rest)[1..] == rest;
          WorkKeepsLocal(ws[1..], m);
      }
    }
  }

  lemma HandlerWorkKeepsLocal(cdb: seq<bv8>, dmaEnabled: bool, env: Environment, m: Machine)
    requires |cdb| >= 6
    ensures Perform(Expand(HandlerWork(cdb, dmaEnabled, env)), m).local == m.local
  {
    WorkKeepsLocal(HandlerWork(cdb, dmaEnabled, env), m);
  }

  lemma NoLookInStatus(l: Local, v: bv8)
    ensures CheckReset !in EnterStatus(l, v)
  {
  }

  lemma RequestAbsorbs(l: Local, m: Machine)
    requires m.local == l
    ensures CheckReset !in RequestParameter(l.(dataOut := 8))
    ensures Run(RequestParameter(l.(dataOut := 8)), m)
            == Run(RequestParameter(l.(dataOut := 8)), m.(local := l.(dataOut := 8)))
  {
  }

  lemma CommandStart(cdb: seq<bv8>, m: Machine, env: Environment)
    requires |cdb| >= 6
    ensures var l := m.local.(cdb := []);
            Perform(CommandOps(cdb, m.local, env), m)
            == Perform(Expand(HandlerWork(cdb, l.dmaEnabled, env))
                       + EndOps(l, HandlerVerdict(cdb, l.dmaEnabled, env)), m.(local := l))
  {
  }

  lemma CommandRequestAbsorbs(l: Local, m: Machine)
    ensures Perform(RequestCommandByte(l), m) == Run(RequestCommandByte(l), m.(local := l))
  {
    PerformPlain(RequestCommandByte(l), m);
    Rest.RunRequest(l.(ndr := true), ACK | MSG | INP, BSY | REQ | CTL, m);
    Rest.RunRequest(l.(ndr := true), ACK | MSG | INP, BSY | REQ | CTL, m.(local := l));
  }

  lemma ParameterRequestAbsorbs(l: Local, m: Machine)
    ensures Perform(RequestParameter(l), m) == Run(RequestParameter(l), m.(local := l))
  {
    PerformPlain(RequestParameter(l), m);
    Rest.RunRequest(l.(ndr := true), MSG | CTL | INP | ACK, BSY | REQ, m);
    Rest.RunRequest(l.(ndr := true), MSG | CTL | INP | ACK, BSY | REQ, m.(local := l));
  }

  lemma StatusAbsorbs(l: Local, m: Machine)
    ensures Perform(EnterStatus(l, GOOD), m) == Run(EnterStatus(l, GOOD), m.(local := l))
  {
    PerformPlain(EnterStatus(l, GOOD), m);
    Rest.RunEnterStatus(l, GOOD, m);
    Rest.RunEnterStatus(l, GOOD, m.(local := l));
  }

  /** The card after it has taken a byte and, if it was waiting for one, dropped REQ and raised ACK. */
  function Received(m: Machine, v: bv8): Machine {
    var m1 := m.(bus := if Selecting(m.local.control) then Drive(m.bus, SEL, 0) else m.bus, local := Taken(m, v));
    if Acknowledges(m) then Rest.Shown(m1, REQ, ACK) else m1
  }

  lemma PhaseUnmoved(m: Machine, v: bv8)
    ensures Received(m, v).bus & (CTL | INP | MSG) == m.bus & (CTL | INP | MSG)
    ensures Received(m, v).local == Taken(m, v)
  {
    DirectionKept(m.bus);
    DirectionKept(Drive(m.bus, SEL, 0));
  }

  lemma DirectionKept(bus: bv8)
    ensures Drive(bus, SEL, 0) & (CTL | INP | MSG) == bus & (CTL | INP | MSG)
    ensures Drive(bus, REQ, ACK) & (CTL | INP | MSG) == bus & (CTL | INP | MSG)
  {
  }

  lemma SelectKeepsDirection(bus: bv8)
    ensures Drive(bus, SEL, 0) & INP == bus & INP
  {
  }

  lemma RunSelect(m: Machine, selecting: bool)
    ensures Run(if selecting then [Bus(SEL, 0)] else [], m)
            == m.(bus := if selecting then Drive(m.bus, SEL, 0) else m.bus)
  {
  }

  lemma TakeByteRuns(m: Machine, v: bv8)
    ensures Run(TakeByteOps(m, v), m) == Received(m, v)
  {
    var selecting := Selecting(m.local.control);
    var l := m.local.(command := v, target := if selecting then ExtractTarget(v) else m.local.target);
    var b := if selecting then [Bus(SEL, 0)] else [];
    var m2 := m.(local := l, bus := if selecting then Drive(m.bus, SEL, 0) else m.bus);
    RunAppend([SetLocal(l)], b, m);
    RunOne(SetLocal(l), m);
    RunSelect(m.(local := l), selecting);
    assert Run([SetLocal(l)] + b, m) == m2;
    if Acknowledges(m) {
      var c := [SetLocal(l.(ndr := false))] + Publish(REQ, ACK);
      assert TakeByteOps(m, v) == ([SetLocal(l)] + b) + c;
      RunAppend([SetLocal(l)] + b, c, m);
      Rest.RunRequest(l.(ndr := false), REQ, ACK, m2);
    } else {
      assert TakeByteOps(m, v) == [SetLocal(l)] + b;
    }
  }

  lemma TakeByteLooks(m: Machine, v: bv8)
    ensures CheckReset !in TakeByteOps(m, v)
  {
  }

  lemma DataWriteStart(m: Machine, v: bv8, env: Environment)
    ensures Perform(DataWriteOps(m, v, env), m) == Perform(UseByteOps(m, v, env), Received(m, v))
  {
    TakeByteRuns(m, v);
    TakeByteLooks(m, v);
    PerformPlain(TakeByteOps(m, v), m);
    PerformAppend(TakeByteOps(m, v), UseByteOps(m, v, env), m);
  }

  lemma NoLook(e: Entry, m: Machine, env: Environment)
    ensures !(e.WriteOf? && e.reg == Data) ==> Perform(Program(e, m, env), m) == Run(Program(e, m, env), m)
  {
    if !(e.WriteOf? && e.reg == Data) {
      PerformPlain(Program(e, m, env), m);
    }
  }

  class Board {
    const values: array<bv8>      // cached_regs
    const entries: array<bv32>    // defer_queue
    var head: nat
    var tail: nat
    var drops: nat

    var control: bv8
    var command: bv8
    var status: bv8
    var bus: bv8
    var ndr: bool
    var statusPending: bool
    var dataOut: nat
    var target: nat
    var dmaEnabled: bool
    var resetRequested: bool
    var address: (bv8, bv8, bv8)  // low, mid, high

    const buffer: array<bv8>      // sasi_command_buffer
    var cmdIndex: nat
    ghost var posted: seq<bv8>

    ghost predicate Valid()
      reads this
    {
      && values.Length == 256 && entries.Length == DEFER_QUEUE_SIZE && buffer.Length == 16
      && values != buffer
      && head < DEFER_QUEUE_SIZE && tail < DEFER_QUEUE_SIZE
      && cmdIndex < 6
    }

    ghost function Snapshot(): Machine
      reads this, values, buffer
      requires Valid()
    {
      Machine(Cells(values[0x00], values[0x10], values[0x20], values[0x30]), bus, status,
              Local(control, command, ndr, statusPending, dataOut, target, dmaEnabled, buffer[..cmdIndex]),
              resetRequested, posted)
    }

    /** The raw words waiting between tail and head, oldest first. */
    ghost function Pending(): seq<bv32>
      reads this, entries
      requires Valid()
    {
      Ring.Contents(entries[..], head, tail)
    }

    constructor ()
      ensures Valid() && fresh(values) && fresh(entries) && fresh(buffer)
      ensures Snapshot() == Machine(Cells(0, 0xFF, 0, 0), 0, 0, Local(0, 0, false, false, 0, 0, false, []), false, [])
      ensures Pending() == [] && drops == 0
    {
      values := new bv8[256](i => if i in {0x00, 0x20, 0x30, 0x80, 0xA0, 0xC0} then 0 else 0xFF);
      entries := new bv32[DEFER_QUEUE_SIZE](_ => 0);
      buffer := new bv8[16](_ => 0);
      head, tail, drops := 0, 0, 0;
      control, command, status, bus := 0, 0, 0, 0;
      ndr, statusPending, dmaEnabled, resetRequested := false, false, false, false;
      dataOut, target, cmdIndex := 0, 0, 0;
      address := (0, 0, 0);
      posted := [];
    }

    // -------------------------------------------------------------- the queue

    method Enqueue(raw: bv32)
      requires Valid()
      modifies entries, this`head, this`drops
      ensures Valid() && Pending() == Push(old(Pending()), raw)
      ensures drops == old(drops) + if |old(Pending())| < 255 then 0 else 1
    {
      var next := (head + 1) % DEFER_QUEUE_SIZE;
      Ring.FullIff(entries[..], head, tail);
      if next != tail {
        Ring.Pushes(entries[..], head, tail, raw);
        ghost var before := entries[..];
        entries[head] := raw;
        assert entries[..] == before[head := raw];
        head := next;
      } else {
        drops := drops + 1;
      }
    }

    method Dequeue() returns (found: bool, raw: bv32)
      requires Valid()
      modifies this`tail
      ensures Valid() && found == (old(Pending()) != [])
      ensures found ==> old(Pending()) == [raw] + Pending()
      ensures !found ==> Pending() == old(Pending())
    {
      raw := 0;
      Ring.FullIff(entries[..], head, tail);
      found := tail != head;
      if found {
        Ring.Pops(entries[..], head, tail);
        raw := entries[tail];
        tail := (tail + 1) % DEFER_QUEUE_SIZE;
      }
    }

    // -------------------------------------------------------------- the ISR

    method ServePrefetch(offset: bv32) returns (data: bv8)
      requires Valid() && offset < 0x100
      modifies values
      ensures Valid()
      ensures offset == 0x10 ==>
                Snapshot() == PrefetchData(old(Snapshot())).0 && data == PrefetchData(old(Snapshot())).1
      ensures offset != 0x10 ==> values[..] == old(values[..])
      ensures offset != 0x10 ==> data == if RegisterAt(offset).Some? then values[offset as nat] else 0xFF
    {
      if RegisterAt(offset).None? {
        data := 0xFF;
      } else if offset == 0x10 {
        var phase := values[0x20] & (CTL | INP | MSG);
        if phase == CTL | INP | MSG {
          data := 0x00;
          values[0x10] := 0x00;
        } else if phase == CTL | INP {
          data := status;
          values[0x10] := data;
        } else {
          data := values[0x10];
        }
      } else {
        data := values[offset as nat];
      }
    }

    method ServeCommit(offset: bv32, raw: bv32)
      requires Valid() && offset < 0x100
      modifies values, entries, this`head, this`drops
      ensures Valid()
      ensures offset == 0x10 ==>
                Snapshot() == CommitDataRead(old(Snapshot())) && Pending() == Push(old(Pending()), raw)
      ensures offset != 0x10 ==> values[..] == old(values[..]) && Pending() == old(Pending())
    {
      if offset == 0x10 {
        var shown := Phase(values[0x20]);
        if shown & MSG != 0 {
          values[0x10] := 0x00;
          values[0x20] := 0x00;
          values[0x30] := 0x00;
        } else if shown & (CTL | INP) == CTL | INP {
          values[0x20] := shown | MSG;
          values[0x30] := shown | MSG;
          values[0x10] := 0x00;
        }
        Enqueue(raw);
      }
    }

    method ShowPhase(phase: bv8)
      requires Valid()
      modifies values
      ensures Valid() && Snapshot() == RegisterIsr.ShowPhase(old(Snapshot()), phase)
      ensures forall i | 0 <= i < 256 && i !in {0x10, 0x20, 0x30} :: values[i] == old(values[i])
    {
      values[0x20] := phase;
      values[0x30] := phase;
      values[0x10] := 0x00;
    }

    /** RESET overrides every other bit; otherwise the SELECT edges move the phase. */
    method ServeControl(data: bv8)
      requires Valid()
      modifies values, this`resetRequested
      ensures Valid()
      ensures Snapshot() == WriteControl(old(Snapshot()), data).(cells := Snapshot().cells)
      ensures Snapshot().cells == WriteControl(old(Snapshot()), data).cells.(control := old(values[0x00]))
      ensures forall i | 0 <= i < 256 && i !in {0x10, 0x20, 0x30} :: values[i] == old(values[i])
    {
      var was := Selecting(values[0x00]);
      if data & DMA_RESET != 0 {
        resetRequested := true;
        ShowPhase(PHASE_FREE);
      } else if Selecting(data) && !was {
        ShowPhase(BSY);
      } else if !Selecting(data) && was {
        ShowPhase(BSY | REQ | CTL);
      }
    }

    method StoreCell(offset: bv32, data: bv8)
      requires Valid() && offset < 0x100 && offset != 0x10
      modifies values
      ensures Valid() && Snapshot() == CellStored(old(Snapshot()), offset, data) && values[offset as nat] == data
    {
      values[offset as nat] := data;
      if offset == 0x20 {
        values[0x30] := data;
      }
    }

    method StoreAddress(offset: bv32, data: bv8)
      modifies this`address
      ensures address == if offset == 0x80 then (data, old(address).1, old(address).2)
                         else if offset == 0xA0 then (old(address).0, data, old(address).2)
                         else if offset == 0xC0 then (old(address).0, old(address).1, data)
                         else old(address)
    {
      if offset == 0x80 {
        address := (data, address.1, address.2);
      } else if offset == 0xA0 {
        address := (address.0, data, address.2);
      } else if offset == 0xC0 {
        address := (address.0, address.1, data);
      }
    }

    method ServeRegister(offset: bv32, data: bv8)
      requires Valid() && offset < 0x100
      modifies values, this`resetRequested, this`address
      ensures Valid() && Snapshot() == IsrWrite(old(Snapshot()), offset, data)
      ensures offset in {0x80, 0xA0, 0xC0} ==> values[offset as nat] == data
      ensures address == if offset == 0x80 then (data, old(address).1, old(address).2)
                         else if offset == 0xA0 then (old(address).0, data, old(address).2)
                         else if offset == 0xC0 then (old(address).0, old(address).1, data)
                         else old(address)
    {
      var reg := RegisterAt(offset);
      StoreAddress(offset, data);
      if offset == 0x00 {
        ServeControl(data);
      }
      if reg.Some? && reg.value != Data && reg.value != Management {
        StoreCell(offset, data);
      }
    }

    /** Address bytes take effect at once; the registers the worker acts on are queued as well. */
    method ServeWrite(offset: bv32, written: bv8, raw: bv32)
      requires Valid() && offset < 0x100
      modifies values, entries, this`head, this`drops, this`resetRequested, this`address
      ensures Valid() && Snapshot() == IsrWrite(old(Snapshot()), offset, written)
      ensures Pending() == if Deferred(offset) then Push(old(Pending()), raw) else old(Pending())
      ensures offset in {0x80, 0xA0} ==> values[offset as nat] == written
      ensures offset == 0xC0 ==> values[0xC0] == written & 0x0F
      ensures address == if offset == 0x80 then (written, old(address).1, old(address).2)
                         else if offset == 0xA0 then (old(address).0, written, old(address).2)
                         else if offset == 0xC0 then (old(address).0, old(address).1, written & 0x0F)
                         else old(address)
    {
      ServeRegister(offset, if offset == 0xC0 then written & 0x0F else written);
      if Deferred(offset) {
        Enqueue(raw);
      }
    }

    // -------------------------------------------------------------- the worker

    /** Cache first, then the bus word. */
    method BusCtrlSet(newCtrl: bv8)
      requires Valid()
      modifies values, this`bus
      ensures Valid() && Snapshot() == Rest.ShowBus(old(Snapshot()), newCtrl)
    {
      values[0x20] := Phase(newCtrl);
      values[0x30] := Phase(newCtrl);
      bus := newCtrl;
    }

    method EnterStatusPhase(v: bv8)
      requires Valid()
      modifies values, this`bus, this`status, this`posted, this`ndr, this`statusPending
      ensures Valid() && Snapshot() == Run(EnterStatus(old(Snapshot()).local, v), old(Snapshot()))
    {
      ghost var m := Snapshot();
      status := v;
      posted := posted + [v];
      values[0x10] := v;
      ndr := true;
      statusPending := true;
      BusCtrlSet(Drive(bus, ACK | MSG, BSY | REQ | CTL | INP));
      Rest.RunEnterStatus(m.local, v, m);
    }

    method RequestNextCommandByte()
      requires Valid()
      modifies values, this`bus, this`ndr
      ensures Valid() && Snapshot() == Run(RequestCommandByte(old(Snapshot()).local), old(Snapshot()))
    {
      ghost var m := Snapshot();
      ndr := true;
      BusCtrlSet(Drive(bus, ACK | MSG | INP, BSY | REQ | CTL));
      Rest.RunRequest(m.local.(ndr := true), ACK | MSG | INP, BSY | REQ | CTL, m);
    }

    method RequestNextParameter()
      requires Valid()
      modifies values, this`bus, this`ndr
      ensures Valid() && Snapshot() == Run(RequestParameter(old(Snapshot()).local), old(Snapshot()))
    {
      ghost var m := Snapshot();
      ndr := true;
      BusCtrlSet(Drive(bus, MSG | CTL | INP | ACK, BSY | REQ));
      Rest.RunRequest(m.local.(ndr := true), MSG | CTL | INP | ACK, BSY | REQ, m);
    }

    /** The host has read DATA: the bus word follows the phase the ISR has already shown. */
    method ProcessDataRead()
      requires Valid()
      modifies this`bus, this`ndr, this`statusPending
      ensures Valid() && Snapshot() == Run(DataReadOps(old(Snapshot())), old(Snapshot()))
    {
      Rest.RunDataRead(Snapshot());
      if bus & MSG != 0 {
        bus := 0;
        ndr := false;
        statusPending := false;
      } else if bus & (CTL | INP) == CTL | INP {
        if statusPending {
          statusPending := false;
          ndr := true;
          bus := bus | MSG;
        }
      } else if bus & (CTL | INP) == INP {
        ndr := false;
      }
    }

    method DeviceReset()
      requires Valid()
      modifies values, this`bus, this`ndr, this`dmaEnabled, this`dataOut, this`statusPending, this`command,
               this`status, this`target, this`resetRequested, this`cmdIndex
      ensures Valid() && Snapshot().bus == 0 && Snapshot().status == 0 && !resetRequested
      ensures Snapshot().local == old(Snapshot()).local.(ndr := false, dmaEnabled := false, dataOut := 0,
                                    statusPending := false, command := 0, target := 0, cdb := [])
      ensures Snapshot().cells == old(Snapshot()).cells.(c20 := 0, c30 := 0, data := 0)
    {
      ClearFlags();
      ClearCells();
    }

    method ClearFlags()
      requires Valid()
      modifies this`bus, this`ndr, this`dmaEnabled, this`dataOut, this`statusPending, this`command,
               this`status, this`target, this`resetRequested, this`cmdIndex
      ensures Valid() && Snapshot() == old(Snapshot()).(bus := 0, status := 0, resetRequested := false,
                local := old(Snapshot()).local.(ndr := false, dmaEnabled := false, dataOut := 0,
                                                statusPending := false, command := 0, target := 0, cdb := []))
    {
      bus, status := 0, 0;
      resetRequested := false;
      ClearLocal();
    }

    method ClearLocal()
      requires Valid()
      modifies this`ndr, this`dmaEnabled, this`dataOut, this`statusPending, this`command, this`target, this`cmdIndex
      ensures Valid() && Snapshot() == old(Snapshot()).(
                local := old(Snapshot()).local.(ndr := false, dmaEnabled := false, dataOut := 0,
                                                statusPending := false, command := 0, target := 0, cdb := []))
    {
      ClearTransfer();
      ClearCommand();
    }

    method ClearTransfer()
      requires Valid()
      modifies this`ndr, this`dmaEnabled, this`dataOut, this`statusPending
      ensures Valid() && Snapshot() == old(Snapshot()).(
                local := old(Snapshot()).local.(ndr := false, dmaEnabled := false, dataOut := 0,
                                                statusPending := false))
    {
      ndr, dmaEnabled, dataOut, statusPending := false, false, 0, false;
    }

    method ClearCommand()
      requires Valid()
      modifies this`command, this`target, this`cmdIndex
      ensures Valid() && Snapshot() == old(Snapshot()).(
                local := old(Snapshot()).local.(command := 0, target := 0, cdb := []))
    {
      command, target := 0, 0;
      cmdIndex := 0;
      assert buffer[..0] == [];
    }

    method ClearCells()
      requires Valid()
      modifies values
      ensures Valid() && Snapshot() == old(Snapshot()).(cells := old(Snapshot()).cells.(c20 := 0, c30 := 0, data := 0))
    {
      values[0x20] := 0x00;
      values[0x30] := 0x00;
      values[0x10] := 0x00;
    }

    method ProcessControlWrite(v: bv8)
      requires Valid()
      modifies values, this`control, this`bus, this`ndr, this`dmaEnabled, this`dataOut, this`statusPending,
               this`command, this`status, this`target, this`resetRequested, this`cmdIndex
      ensures Valid() && Snapshot() == Run(ControlWriteOps(old(Snapshot()), v), old(Snapshot()))
    {
      if v & DMA_RESET != 0 {
        ghost var m := Snapshot();
        control := v;
        DeviceReset();
        Safety.RunDeviceReset(m.local.(control := v), m);
      } else {
        ProcessSelect(v);
      }
    }

    /** A CONTROL write that is no reset: the DMA latch, and the edges of SELECT. */
    method ProcessSelect(v: bv8)
      requires Valid() && v & DMA_RESET == 0
      modifies this`control, this`bus, this`ndr, this`dmaEnabled, this`target
      ensures Valid() && Snapshot() == Run(ControlWriteOps(old(Snapshot()), v), old(Snapshot()))
    {
      Rest.RunControl(Snapshot(), v);
      var prevSel := Selecting(control);
      LatchControl(v);
      var nowSel := Selecting(v);
      if nowSel && !prevSel {
        bus := bus | SEL;
        target := ExtractTarget(command);
        bus := bus | BSY;
      } else if !nowSel && prevSel {
        bus := bus & !SEL;
        bus := bus | (BSY | REQ | CTL);
        bus := bus & !INP;
        ndr := true;
      }
    }

    method LatchControl(v: bv8)
      requires Valid()
      modifies this`control, this`dmaEnabled
      ensures Valid() && Snapshot() == old(Snapshot()).(local := old(Snapshot()).local.(control := v,
                dmaEnabled := if v & DMA_ON_LATCH != 0 then v & DMA_ON_VALUE != 0 else old(dmaEnabled)))
    {
      control := v;
      if v & DMA_ON_LATCH != 0 {
        dmaEnabled := v & DMA_ON_VALUE != 0;
      }
    }

    /** The busy phases of the command in the buffer, abandoned when a reset is found to be pending. */
    method ShowWork(ws: seq<Work>) returns (abandoned: bool)
      requires Valid()
      modifies values, this`bus
      ensures Valid() && Snapshot() == Perform(Expand(ws), old(Snapshot()))
      ensures abandoned == Abandons(Expand(ws), old(Snapshot()))
    {
      abandoned := false;
      var i := 0;
      ghost var m := Snapshot();
      while i < |ws|
        invariant 0 <= i <= |ws| && Valid() && !abandoned
        invariant Perform(Expand(ws), m) == Perform(Expand(ws[i..]), Snapshot())
        invariant Abandons(Expand(ws), m) == Abandons(Expand(ws[i..]), Snapshot())
      {
        ghost var rest := Expand(ws[i + 1..]);
        assert ws[i..][1..] == ws[i + 1..];
        assert Expand(ws[i..]) == WorkOps(ws[i]) + rest;
        match ws[i] {
          case Show(c, p) =>
            PerformPublish(c, p, rest, Snapshot());
            BusCtrlSet(Drive(bus, c, p));
          case LookForReset =>
            assert ([CheckReset] + rest)[1..] == rest;
            if resetRequested {
              abandoned := true;
              return;
            }
        }
        i := i + 1;
      }
    }

    /** A complete command: the handler's phases, then its verdict.  The index is back at 0 either way. */
    method Handle(env: Environment)
      requires Valid()
      requires cmdIndex == 0
      modifies values, this`bus, this`status, this`posted, this`ndr, this`statusPending, this`dataOut
      ensures Valid()
      ensures var m := old(Snapshot());
              var cdb := old(buffer[..6]);
              Snapshot() == Perform(Expand(HandlerWork(cdb, m.local.dmaEnabled, env))
                                    + EndOps(m.local, HandlerVerdict(cdb, m.local.dmaEnabled, env)), m)
    {
      var cdb := buffer[..6];
      ghost var m := Snapshot();
      ghost var end := EndOps(m.local, HandlerVerdict(cdb, dmaEnabled, env));
      var ws := HandlerWork(cdb, dmaEnabled, env);
      PerformAppend(Expand(ws), end, m);
      HandlerWorkKeepsLocal(cdb, dmaEnabled, env, m);
      var abandoned := ShowWork(ws);
      if abandoned {
        return;
      }
      ghost var m1 := Snapshot();
      match HandlerVerdict(cdb, dmaEnabled, env) {
        case Complete(v) =>
          EnterStatusPhase(v);
          NoLookInStatus(m1.local, v);
        case AskParameters =>
          dataOut := 8;
          RequestNextParameter();
          RequestAbsorbs(m1.local, m1);
      }
      PerformPlain(end, m1);
    }

    /** The sixth byte: the whole command goes to its handler. */
    method CompleteCommand(v: bv8, env: Environment)
      requires Valid() && cmdIndex == 5
      modifies values, buffer, this`cmdIndex, this`bus, this`status, this`posted, this`ndr, this`statusPending,
               this`dataOut
      ensures Valid()
      ensures var m := old(Snapshot());
              Snapshot() == Perform(CommandOps(m.local.cdb + [v], m.local, env), m)
    {
      ghost var m := Snapshot();
      ghost var cdb := m.local.cdb + [v];
      buffer[cmdIndex] := v;
      assert buffer[..6] == cdb;
      cmdIndex := 0;
      assert Snapshot() == m.(local := m.local.(cdb := []));
      Handle(env);
      CommandStart(cdb, m, env);
    }

    method HandleCommandByte(v: bv8, env: Environment)
      requires Valid()
      modifies values, buffer, this`cmdIndex, this`bus, this`status, this`posted, this`ndr, this`statusPending,
               this`dataOut
      ensures Valid()
      ensures Snapshot() == Perform(CommandByteOps(old(Snapshot()).local, v, env), old(Snapshot()))
    {
      if cmdIndex + 1 >= 6 {
        CompleteCommand(v, env);
      } else {
        ghost var m := Snapshot();
        ghost var l := m.local.(cdb := m.local.cdb + [v]);
        buffer[cmdIndex] := v;
        cmdIndex := cmdIndex + 1;
        assert buffer[..cmdIndex] == l.cdb;
        assert Snapshot() == m.(local := l);
        RequestNextCommandByte();
        CommandRequestAbsorbs(l, m);
      }
    }

    method HandleParameterByte()
      requires Valid() && dataOut > 0
      modifies values, this`bus, this`status, this`posted, this`ndr, this`statusPending, this`dataOut
      ensures Valid()
      ensures Snapshot() == Perform(ParameterByteOps(old(Snapshot()).local), old(Snapshot()))
    {
      ghost var m := Snapshot();
      dataOut := dataOut - 1;
      ghost var l := m.local.(dataOut := dataOut);
      assert Snapshot() == m.(local := l);
      if dataOut > 0 {
        RequestNextParameter();
        ParameterRequestAbsorbs(l, m);
      } else {
        EnterStatusPhase(GOOD);
        StatusAbsorbs(l, m);
      }
    }

    method Latch(v: bv8)
      requires Valid()
      modifies this`bus, this`command, this`target
      ensures Valid()
      ensures var m := old(Snapshot());
              Snapshot() == m.(bus := if Selecting(m.local.control) then Drive(m.bus, SEL, 0) else m.bus,
                               local := Taken(m, v).(ndr := m.local.ndr))
    {
      command := v;
      if Selecting(control) {
        target := ExtractTarget(v);
        bus := Drive(bus, SEL, 0);
      }
    }

    method TakeByte(v: bv8)
      requires Valid()
      modifies values, this`bus, this`ndr, this`command, this`target
      ensures Valid() && Snapshot() == Received(old(Snapshot()), v)
    {
      SelectKeepsDirection(bus);
      Latch(v);
      if ndr && bus & INP == 0 {
        ndr := false;
        BusCtrlSet(Drive(bus, REQ, ACK));
      }
    }

    /** A byte from the host: selection, command, parameter, or nothing the card waits for. */
    method ProcessDataWrite(v: bv8, env: Environment)
      requires Valid()
      modifies values, buffer, this`cmdIndex, this`bus, this`status, this`posted, this`ndr, this`statusPending,
               this`dataOut, this`command, this`target
      ensures Valid() && Snapshot() == Perform(DataWriteOps(old(Snapshot()), v, env), old(Snapshot()))
    {
      DataWriteStart(Snapshot(), v, env);
      PhaseUnmoved(Snapshot(), v);
      TakeByte(v);
      if bus & (CTL | INP | MSG) == CTL {
        HandleCommandByte(v, env);
      } else if dataOut > 0 {
        HandleParameterByte();
      }
    }

    /** One pass of the worker: the oldest queued word, decoded again and acted on. */
    method ProcessNext(env: Environment) returns (found: bool)
      requires Valid()
      modifies values, buffer, this`tail, this`cmdIndex, this`control, this`bus, this`ndr, this`dmaEnabled,
               this`dataOut, this`statusPending, this`command, this`status, this`posted, this`target,
               this`resetRequested
      ensures Valid() && found == (old(Pending()) != [])
      ensures !found ==> Snapshot() == old(Snapshot()) && Pending() == old(Pending())
      ensures found ==>
                && Pending() == old(Pending())[1..]
                && Snapshot() == match EntryOf(old(Pending())[0])
                                 case Some(e) => Perform(Program(e, old(Snapshot()), env), old(Snapshot()))
                                 case None => old(Snapshot())
    {
      var raw;
      found, raw := Dequeue();
      if found {
        ProcessEntry(raw, env);
      }
    }

    method ProcessEntry(raw: bv32, env: Environment)
      requires Valid()
      modifies values, buffer, this`cmdIndex, this`control, this`bus, this`ndr, this`dmaEnabled,
               this`dataOut, this`statusPending, this`command, this`status, this`posted, this`target,
               this`resetRequested
      ensures Valid() && Pending() == old(Pending())
      ensures Snapshot() == match EntryOf(raw)
                            case Some(e) => Perform(Program(e, old(Snapshot()), env), old(Snapshot()))
                            case None => old(Snapshot())
    {
      var entry := EntryOf(raw);
      if entry == None {
        return;
      }
      NoLook(entry.value, Snapshot(), env);
      match entry.value {
        case ReadOf(Data) => ProcessDataRead();
        case WriteOf(Control, v) => ProcessControlWrite(v);
        case WriteOf(Data, v) => ProcessDataWrite(v, env);
        case _ =>
      }
    }
  }
}
