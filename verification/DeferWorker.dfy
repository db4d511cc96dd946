/**
 * The deferred worker of core 1, one store at a time.
 *
 * Processing a queue entry is a sequence of stores.  Each store that the register ISR can observe (the
 * two STATUS cells, the DATA cell, the posted status byte and the bus word) is an `Op` of its own, so
 * that a host access can be served between any two of them.  The worker's private flags are grouped.
 */
module DeferWorker {
  import opened SasiBits

  /** Register cache: CONTROL, DATA, STATUS at 0x20 and its alias at 0x30. */
  datatype Cells = Cells(control: bv8, data: bv8, c20: bv8, c30: bv8)

  /** State only the worker reads and writes; `cdb` is the command buffer up to its index. */
  datatype Local = Local(control: bv8, command: bv8, ndr: bool, statusPending: bool, dataOut: nat,
                         target: nat, dmaEnabled: bool, cdb: seq<bv8>)

  /** Everything core 1 shares between worker and ISR; `posted` is the history of status bytes handed out. */
  datatype Machine = Machine(cells: Cells, bus: bv8, status: bv8, local: Local, resetRequested: bool,
                             posted: seq<bv8>)

  datatype Register = Control | Data | Status | Alias | AddressLow | AddressMid | AddressHigh | Management

  datatype Entry = ReadOf(reg: Register) | WriteOf(reg: Register, v: bv8)

  datatype Op =
    | SetLocal(local: Local)
    | Bus(clear: bv8, put: bv8)
    | Cell20(clear: bv8, put: bv8)
    | Cell30(clear: bv8, put: bv8)
    | CellData(v: bv8)
    | PostStatus(v: bv8)
    | ZeroStatus
    | CheckReset
    | ClearReset

  /** One store.  `CheckReset` only reads; the decision to abandon the handler is taken by the stepper. */
  function Exec(op: Op, m: Machine): Machine {
    match op
    case SetLocal(l) => m.(local := l)
    case Bus(c, p) => m.(bus := Drive(m.bus, c, p))
    case Cell20(c, p) => m.(cells := m.cells.(c20 := Phase(Drive(m.bus, c, p))))
    case Cell30(c, p) => m.(cells := m.cells.(c30 := Phase(Drive(m.bus, c, p))))
    case CellData(v) => m.(cells := m.cells.(data := v))
    case PostStatus(v) => m.(status := v, posted := m.posted + [v])
    case ZeroStatus => m.(status := 0)
    case CheckReset => m
    case ClearReset => m.(resetRequested := false)
  }

  /** All remaining stores of an entry, undisturbed. */
  function Run(ops: seq<Op>, m: Machine): Machine
    decreases |ops|
  {
    if ops == [] then m else Run(ops[1..], Exec(ops[0], m))
  }

  /** The same stores with the handler's looks for a reset taken into account. */
  function Perform(ops: seq<Op>, m: Machine): Machine
    decreases |ops|
  {
    if ops == [] || (ops[0] == CheckReset && m.resetRequested) then m else Perform(ops[1..], Exec(ops[0], m))
  }

  // ---------------------------------------------------------------- what each entry does

  /** Cache first, then the bus word, so the ISR never serves a phase older than the bus. */
  function Publish(clear: bv8, put: bv8): seq<Op> {
    [Cell20(clear, put), Cell30(clear, put), Bus(clear, put)]
  }

  /** Bus changes of a handler that is still working, and the points where it looks for a host reset. */
  datatype Work = Show(clear: bv8, put: bv8) | LookForReset

  function WorkOps(w: Work): seq<Op> {
    match w
    case Show(c, p) => Publish(c, p)
    case LookForReset => [CheckReset]
  }

  function Expand(ws: seq<Work>): seq<Op>
    decreases |ws|
  {
    if ws == [] then [] else WorkOps(ws[0]) + Expand(ws[1..])
  }

  const CommandBusy: Work := Show(REQ | MSG | INP | ACK, BSY | CTL)
  const ReadDataIn: Work := Show(REQ | MSG | CTL | ACK, BSY | INP)
  const SenseDataIn: Work := Show(REQ | MSG | CTL, BSY | INP)
  const DataOutBusy: Work := Show(REQ | MSG | CTL | INP | ACK, BSY)
  const ModeDataOut: Work := Show(REQ | MSG | CTL | INP, BSY)

  function EnterStatus(l: Local, v: bv8): seq<Op> {
    [PostStatus(v), CellData(v), SetLocal(l.(ndr := true, statusPending := true))]
    + Publish(ACK | MSG, BSY | REQ | CTL | INP)
  }

  function RequestCommandByte(l: Local): seq<Op> {
    [SetLocal(l.(ndr := true))] + Publish(ACK | MSG | INP, BSY | REQ | CTL)
  }

  function RequestParameter(l: Local): seq<Op> {
    [SetLocal(l.(ndr := true))] + Publish(MSG | CTL | INP | ACK, BSY | REQ)
  }

  /** Outcome of one sector: stored or fetched, failed before the data phase is shown, or failed after. */
  datatype SectorResult = Done | FailedEarly | FailedLate

  /** What storage, bus mastering and the final sync answer during one command. */
  datatype Environment = Environment(sectors: seq<SectorResult>, dmaOk: bool, syncOk: bool)

  function Outcome(env: Environment, i: nat): SectorResult {
    if i < |env.sectors| then env.sectors[i] else Done
  }

  function Blocks(cdb: seq<bv8>): (n: nat)
    requires |cdb| >= 6
    ensures 1 <= n <= 256
  {
    if cdb[4] == 0 then 256 else cdb[4] as nat
  }

  /** Sector loop of READ(6) and WRITE(6) from sector `i`; the last look for a reset follows the loop. */
  function SectorWork(env: Environment, reading: bool, i: nat, blocks: nat): seq<Work>
    decreases blocks - i
  {
    if i >= blocks then [LookForReset]
    else if reading && Outcome(env, i) == FailedEarly then [LookForReset, LookForReset]
    else
      [LookForReset, if reading then ReadDataIn else DataOutBusy]
      + if Outcome(env, i) != Done then [LookForReset]
        else (if i + 1 < blocks then [CommandBusy] else []) + SectorWork(env, reading, i + 1, blocks)
  }

  predicate AllDone(env: Environment, blocks: nat) {
    forall i: nat | i < blocks :: Outcome(env, i) == Done
  }

  /** How a handler ends: with a status byte, or by asking the host for eight parameter bytes. */
  datatype Verdict = Complete(v: bv8) | AskParameters

  function Judge(ok: bool): Verdict {
    Complete(if ok then GOOD else CHECK_CONDITION)
  }

  function HandlerWork(cdb: seq<bv8>, dmaEnabled: bool, env: Environment): seq<Work>
    requires |cdb| >= 6
  {
    if cdb[0] == 0x08 || cdb[0] == 0x0A then
      [CommandBusy, CommandBusy] + SectorWork(env, cdb[0] == 0x08, 0, Blocks(cdb))
    else if cdb[0] == 0x03 then [SenseDataIn]
    else if cdb[0] == 0x0C && dmaEnabled then [DataOutBusy]
    else if cdb[0] == 0x15 && cdb[4] != 0 then [ModeDataOut]
    else []
  }

  function HandlerVerdict(cdb: seq<bv8>, dmaEnabled: bool, env: Environment): Verdict
    requires |cdb| >= 6
  {
    if cdb[0] == 0x08 then Judge(AllDone(env, Blocks(cdb)))
    else if cdb[0] == 0x0A then Judge(AllDone(env, Blocks(cdb)) && env.syncOk)
    else if cdb[0] == 0x03 then Judge(env.dmaOk)
    else if cdb[0] == 0x0C then if dmaEnabled then Judge(env.dmaOk) else AskParameters
    else if cdb[0] == 0x15 && cdb[4] != 0 then Judge(env.dmaOk)
    else Complete(GOOD)
  }

  function EndOps(l: Local, verdict: Verdict): seq<Op> {
    match verdict
    case Complete(v) => EnterStatus(l, v)
    case AskParameters => RequestParameter(l.(dataOut := 8))
  }

  /** A complete command: the index is private to the worker, so it may drop before the handler runs. */
  function CommandOps(cdb: seq<bv8>, l: Local, env: Environment): seq<Op>
    requires |cdb| >= 6
  {
    [SetLocal(l.(cdb := []))]
    + (Expand(HandlerWork(cdb, l.dmaEnabled, env))
       + EndOps(l.(cdb := []), HandlerVerdict(cdb, l.dmaEnabled, env)))
  }

  function CommandByteOps(l: Local, v: bv8, env: Environment): seq<Op> {
    var cdb := l.cdb + [v];
    if |cdb| >= 6 then CommandOps(cdb, l, env) else RequestCommandByte(l.(cdb := cdb))
  }

  function ParameterByteOps(l: Local): seq<Op>
    requires l.dataOut > 0
  {
    var l' := l.(dataOut := l.dataOut - 1);
    if l'.dataOut > 0 then RequestParameter(l') else EnterStatus(l', GOOD)
  }

  /** The byte is latched, a selection byte names the target, and a byte waited for is acknowledged. */
  function TakeByteOps(m: Machine, v: bv8): seq<Op> {
    var selecting := Selecting(m.local.control);
    var l := m.local.(command := v, target := if selecting then ExtractTarget(v) else m.local.target);
    [SetLocal(l)]
    + (if selecting then [Bus(SEL, 0)] else [])
    + (if Acknowledges(m) then [SetLocal(l.(ndr := false))] + Publish(REQ, ACK) else [])
  }

  predicate Acknowledges(m: Machine) {
    m.local.ndr && m.bus & INP == 0
  }

  function Taken(m: Machine, v: bv8): Local {
    var target := if Selecting(m.local.control) then ExtractTarget(v) else m.local.target;
    m.local.(command := v, target := target, ndr := m.local.ndr && !Acknowledges(m))
  }

  function UseByteOps(m: Machine, v: bv8, env: Environment): seq<Op> {
    var l := Taken(m, v);
    if m.bus & (CTL | INP | MSG) == CTL then CommandByteOps(l, v, env)
    else if l.dataOut > 0 then ParameterByteOps(l)
    else []
  }

  function DataWriteOps(m: Machine, v: bv8, env: Environment): seq<Op> {
    TakeByteOps(m, v) + UseByteOps(m, v, env)
  }

  function DeviceResetOps(l: Local): seq<Op> {
    [Bus(0xFF, 0),
     SetLocal(l.(ndr := false, dmaEnabled := false, dataOut := 0, statusPending := false, command := 0,
                 target := 0, cdb := [])),
     ZeroStatus, ClearReset,
     Cell20(0xFF, 0), Cell30(0xFF, 0), CellData(0)]
  }

  function ControlWriteOps(m: Machine, v: bv8): seq<Op> {
    var l := m.local.(control := v);
    if v & DMA_RESET != 0 then [SetLocal(l)] + DeviceResetOps(l)
    else
      var l' := if v & DMA_ON_LATCH != 0 then l.(dmaEnabled := v & DMA_ON_VALUE != 0) else l;
      if Selecting(v) && !Selecting(m.local.control) then
        [SetLocal(l'), Bus(0, SEL), SetLocal(l'.(target := ExtractTarget(l'.command))), Bus(0, BSY)]
      else if !Selecting(v) && Selecting(m.local.control) then
        [SetLocal(l'), Bus(SEL, 0), Bus(0, BSY | REQ | CTL), Bus(INP, 0), SetLocal(l'.(ndr := true))]
      else [SetLocal(l')]
  }

  function DataReadOps(m: Machine): seq<Op> {
    if m.bus & MSG != 0 then [Bus(0xFF, 0), SetLocal(m.local.(ndr := false, statusPending := false))]
    else if m.bus & (CTL | INP) == CTL | INP then
      if m.local.statusPending then [SetLocal(m.local.(statusPending := false, ndr := true)), Bus(0, MSG)] else []
    else if m.bus & (CTL | INP) == INP then [SetLocal(m.local.(ndr := false))]
    else []
  }

  /** The stores an entry causes, given the state in which the worker takes it from the queue. */
  function Program(e: Entry, m: Machine, env: Environment): seq<Op> {
    match e
    case ReadOf(Data) => DataReadOps(m)
    case WriteOf(Control, v) => ControlWriteOps(m, v)
    case WriteOf(Data, v) => DataWriteOps(m, v, env)
    case _ => []
  }

  // ---------------------------------------------------------------- facts about runs of stores

  lemma {:induction false} RunAppend(a: seq<Op>, b: seq<Op>, m: Machine)
    ensures Run(a + b, m) == Run(b, Run(a, m))
    decreases |a|
  {
    if a == [] {
      assert a + b == b;
    } else {
      assert (a + b)[0] == a[0] && (a + b)[1..] == a[1..] + b;
      RunAppend(a[1..], b, Exec(a[0], m));
    }
  }

  lemma RunOne(op: Op, m: Machine)
    ensures Run([op], m) == Exec(op, m)
  {
  }

  lemma RunPublish(clear: bv8, put: bv8, m: Machine)
    ensures var bus := Drive(m.bus, clear, put);
            Run(Publish(clear, put), m) == m.(cells := m.cells.(c20 := Phase(bus), c30 := Phase(bus)), bus := bus)
  {
    var m1 := Exec(Cell20(clear, put), m);
    var m2 := Exec(Cell30(clear, put), m1);
    assert Publish(clear, put) == [Cell20(clear, put)] + ([Cell30(clear, put)] + [Bus(clear, put)]);
    RunAppend([Cell20(clear, put)], [Cell30(clear, put)] + [Bus(clear, put)], m);
    RunAppend([Cell30(clear, put)], [Bus(clear, put)], m1);
    RunOne(Cell20(clear, put), m);
    RunOne(Cell30(clear, put), m1);
    RunOne(Bus(clear, put), m2);
  }

  /** What a handler at work lets the host see: busy with the command, bringing data or taking data. */
  lemma BusyPhases(bus: bv8)
    ensures Phase(Drive(bus, CommandBusy.clear, CommandBusy.put)) == 0x06
    ensures Phase(Drive(bus, ReadDataIn.clear, ReadDataIn.put)) == 0x05
    ensures Phase(Drive(bus, SenseDataIn.clear, SenseDataIn.put)) == 0x05
    ensures Phase(Drive(bus, DataOutBusy.clear, DataOutBusy.put)) == 0x04
    ensures Phase(Drive(bus, ModeDataOut.clear, ModeDataOut.put)) == 0x04
  {
  }

  predicate Quiet(w: Work) {
    w.Show? ==> w.clear & REQ != 0 && w.put & (REQ | SEL | 0x80) == 0
  }

  lemma {:induction false} SectorWorkQuiet(env: Environment, reading: bool, i: nat, blocks: nat)
    ensures forall w | w in SectorWork(env, reading, i, blocks) :: Quiet(w)
    decreases blocks - i
  {
    if i < blocks && Outcome(env, i) == Done {
      SectorWorkQuiet(env, reading, i + 1, blocks);
    }
  }

  lemma HandlerWorkQuiet(cdb: seq<bv8>, dmaEnabled: bool, env: Environment)
    requires |cdb| >= 6
    ensures forall w | w in HandlerWork(cdb, dmaEnabled, env) :: Quiet(w)
  {
    SectorWorkQuiet(env, cdb[0] == 0x08, 0, Blocks(cdb));
  }

  /** A handler at work changes the phase it shows and nothing else. */
  lemma {:induction false} RunWork(ws: seq<Work>, m: Machine)
    requires forall w | w in ws :: Quiet(w)
    requires m.bus & (SEL | 0x80) == 0
    ensures var r := Run(Expand(ws), m);
            && r.bus & (SEL | 0x80) == 0
            && r == m.(bus := r.bus, cells := m.cells.(c20 := r.cells.c20, c30 := r.cells.c30))
    decreases |ws|
  {
    if ws != [] {
      var w := ws[0];
      RunAppend(WorkOps(w), Expand(ws[1..]), m);
      match w {
        case Show(c, p) =>
          assert Quiet(w);
          RunPublish(c, p, m);
          assert Drive(m.bus, c, p) & (SEL | 0x80) == 0;
        case LookForReset =>
          RunOne(CheckReset, m);
      }
      RunWork(ws[1..], Run(WorkOps(w), m));
    }
  }

  predicate Abandons(ops: seq<Op>, m: Machine)
    decreases |ops|
  {
    ops != [] && ((ops[0] == CheckReset && m.resetRequested) || Abandons(ops[1..], Exec(ops[0], m)))
  }

  lemma {:induction false} PerformAppend(a: seq<Op>, b: seq<Op>, m: Machine)
    ensures Perform(a + b, m) == if Abandons(a, m) then Perform(a, m) else Perform(b, Perform(a, m))
    decreases |a|
  {
    if a == [] {
      assert a + b == b;
    } else {
      assert (a + b)[0] == a[0] && (a + b)[1..] == a[1..] + b;
      PerformAppend(a[1..], b, Exec(a[0], m));
    }
  }
}
