/**
 * The management channel between core 0 of the card and the Victor terminal, one shared access at a time.
 *
 * Three byte cells are shared: CMD (echo), STATUS and RESP.  The ISR serves a terminal access in one
 * piece; core 0 updates its own flags freely and makes them visible with a store to STATUS.
 */
module MgmtProtocol {
  import opened Basics

  const COUNTER: nat := 0x1_0000_0000
  const CMD_RING_SIZE: nat := 64
  const ECHO_RESET: byte := 0xFF

  /** The four low bits of STATUS; the high nibble is a fixed signature. */
  datatype Flags = Flags(overflow: bool, cmdFull: bool, ready: bool, phase: bool)

  function StatusByte(f: Flags): byte {
    0xD0 + (if f.overflow then 8 else 0) + (if f.cmdFull then 4 else 0) + (if f.ready then 2 else 0)
    + (if f.phase then 1 else 0)
  }

  function Bit(b: byte, weight: nat): bool
    requires weight > 0
  {
    b / weight % 2 == 1
  }

  /** What a terminal reads in a STATUS byte. */
  function FlagsOf(b: byte): Flags {
    Flags(Bit(b, 8), Bit(b, 4), Bit(b, 2), Bit(b, 1))
  }

  /** Every flag can be read back from the byte, next to the signature a detecting host looks for. */
  lemma StatusByteReads(f: Flags)
    ensures StatusByte(f) / 16 == 0xD && FlagsOf(StatusByte(f)) == f
  {
  }

  datatype Core0 = Running | ResetStatus | ResetEcho

  datatype TerminalPc =
    | Probe | HalfProbed | Probed
    | MustSettle | Settling | Echoed
    | Loop
    | HaveByte(phase: bool)
    | Read(phase: bool, d: byte, agreed: bool)

  /**
   * `capacity` is the number of bytes the response FIFO holds; `active` says that a command byte has been
   * popped since the last flush, without which the console writes nothing.  `asked`, `log` and `emitted`
   * are the response bytes since the last flush as core 0 was asked for them, as the FIFO accepted them
   * and as the terminal rendered them; `typed` and `popped` are the command bytes, `lastCmd` the last one
   * written, dropped or not.
   */
  datatype State = State(
    capacity: nat,
    cmdCell: byte, statusCell: Flags, respCell: byte,
    ack: u32, resetReq: bool, ring: seq<byte>, drops: u32,
    core0: Core0, flags: Flags, fifo: seq<byte>, served: u32, dropsSeen: u32, active: bool,
    pc: TerminalPc, last: bool, lastCmd: byte,
    asked: seq<byte>, log: seq<byte>, emitted: seq<byte>, typed: seq<byte>, popped: seq<byte>)

  datatype Step =
    // core 0
    | Pop | Ask(b: byte) | GiveUp(b: byte) | Abandon | PublishByte | DropReady | FoldDrops | StoreStatus
    | TakeReset | StoreResetStatus | StoreEcho
    // terminal
    | WriteCmd(b: byte) | WriteStatus | PollEcho | ReadPhase | PollStatus | DrainStatus | ReadResp | Reread
    | Acknowledge | Restart

  /** Detection sends 0x55 and 0xAA; inside a session any byte may go out. */
  predicate MaySend(pc: TerminalPc, b: byte) {
    pc.Loop? || (pc.Probe? && b == 0x55) || (pc.HalfProbed? && b == 0xAA)
  }

  function Sent(pc: TerminalPc): TerminalPc {
    if pc.Probe? then HalfProbed else if pc.HalfProbed? then Probed else Loop
  }

  predicate Enabled(s: State, step: Step) {
    match step
    case Pop => s.core0.Running? && s.ring != []
    case Ask(_) => s.core0.Running? && s.active && (s.flags.overflow || |s.fifo| < s.capacity)
    case GiveUp(_) => s.core0.Running? && s.active && !s.flags.overflow && |s.fifo| == s.capacity
    case Abandon => s.core0.Running? && s.active
    case PublishByte => s.core0.Running? && s.served == s.ack && s.fifo != []
    case DropReady => s.core0.Running? && s.served == s.ack && s.fifo == [] && s.flags.ready
    case FoldDrops => s.core0.Running?
    case StoreStatus => s.core0.Running?
    case TakeReset => s.core0.Running? && s.resetReq
    case StoreResetStatus => s.core0.ResetStatus?
    case StoreEcho => s.core0.ResetEcho?
    case WriteCmd(b) => MaySend(s.pc, b)
    case WriteStatus => s.pc.Probed? || s.pc.MustSettle?
    case PollEcho => s.pc.Settling?
    case ReadPhase => s.pc.Echoed?
    case PollStatus => s.pc.Loop?
    case DrainStatus => s.pc.Loop?
    case ReadResp => s.pc.HaveByte?
    case Reread => s.pc.Read?
    case Acknowledge => s.pc.Read? && s.pc.agreed
    case Restart => s.pc.Loop?
  }

  predicate HasRoom(ring: seq<byte>) {
    |ring| < CMD_RING_SIZE - 1
  }

  function PushCmd(s: State, b: byte): State {
    var room := HasRoom(s.ring);
    s.(ring := if room then s.ring + [b] else s.ring,
       typed := if room then s.typed + [b] else s.typed,
       drops := if room then s.drops else Succ(s.drops),
       cmdCell := 255 - b, lastCmd := b)
  }

  function Flush(s: State): State {
    s.(fifo := [], served := s.ack, ring := [], dropsSeen := s.drops,
       flags := Flags(false, false, false, s.flags.phase), resetReq := false, core0 := ResetStatus,
       active := false, asked := [], log := [], typed := [], popped := [])
  }

  /** A new byte is READY under a phase the terminal has not seen; the inner drain loop looks at nothing else. */
  function LookForByte(seen: Flags, last: bool): TerminalPc {
    if seen.ready && seen.phase != last then HaveByte(seen.phase) else Loop
  }

  function LookAtStatus(seen: Flags, last: bool): TerminalPc {
    if seen.overflow then MustSettle else LookForByte(seen, last)
  }

  function Next(s: State, step: Step): State
    requires Enabled(s, step)
  {
    match step
    case Pop => s.(ring := s.ring[1..], popped := s.popped + [s.ring[0]], active := true)
    case Ask(b) =>
      if s.flags.overflow then s.(asked := s.asked + [b])
      else s.(asked := s.asked + [b], fifo := s.fifo + [b], log := s.log + [b])
    case GiveUp(b) => s.(asked := s.asked + [b], flags := s.flags.(overflow := true))
    case Abandon => s.(flags := s.flags.(overflow := true))
    case PublishByte =>
      s.(respCell := s.fifo[0], fifo := s.fifo[1..], served := Succ(s.served),
         flags := s.flags.(phase := !s.flags.phase, ready := true))
    case DropReady => s.(flags := s.flags.(ready := false))
    case FoldDrops =>
      var full := s.ring != [] && (s.drops != s.dropsSeen || s.flags.cmdFull);
      s.(dropsSeen := s.drops, flags := s.flags.(cmdFull := full))
    case StoreStatus => s.(statusCell := s.flags)
    case TakeReset => Flush(s)
    case StoreResetStatus => s.(statusCell := s.flags, core0 := ResetEcho)
    case StoreEcho => s.(cmdCell := ECHO_RESET, core0 := Running)
    case WriteCmd(b) => PushCmd(s, b).(pc := Sent(s.pc))
    case WriteStatus => s.(resetReq := true, pc := Settling)
    case PollEcho => if s.cmdCell == ECHO_RESET then s.(pc := Echoed) else s
    case ReadPhase => s.(last := s.statusCell.phase, pc := Loop, emitted := [])
    case PollStatus => s.(pc := LookAtStatus(s.statusCell, s.last))
    case DrainStatus => s.(pc := LookForByte(s.statusCell, s.last))
    case ReadResp => s.(pc := Read(s.pc.phase, s.respCell, false))
    case Reread => s.(pc := Read(s.pc.phase, s.respCell, s.respCell == s.pc.d))
    case Acknowledge =>
      s.(ack := Succ(s.ack), last := s.pc.phase, emitted := s.emitted + [s.pc.d], pc := Loop)
    case Restart => s.(pc := Probe)
  }

  /** Power-up: the cells show their idle values and the terminal program has just started. */
  function PowerOn(capacity: nat): State {
    State(capacity, ECHO_RESET, Flags(false, false, false, false), 0, 0, false, [], 0,
          Running, Flags(false, false, false, false), [], 0, 0, false, Probe, false, 0, [], [], [], [], [])
  }

  /** A reset is asked for only when the last command byte was not the one whose complement is the reset echo. */
  predicate Honest(s: State, step: Step) {
    step.WriteStatus? ==> s.lastCmd != 0
  }

  predicate Run?(s: State, steps: seq<Step>)
    decreases |steps|
  {
    steps == [] || (Enabled(s, steps[0]) && Run?(Next(s, steps[0]), steps[1..]))
  }

  function Final(s: State, steps: seq<Step>): State
    requires Run?(s, steps)
    decreases |steps|
  {
    if steps == [] then s else Final(Next(s, steps[0]), steps[1..])
  }

  predicate HonestRun(s: State, steps: seq<Step>)
    requires Run?(s, steps)
    decreases |steps|
  {
    steps == [] || (Honest(s, steps[0]) && HonestRun(Next(s, steps[0]), steps[1..]))
  }

  // ---------------------------------------------------------------- the invariant

  /** Bytes handed out and not yet acknowledged. */
  function Unacked(s: State): seq<byte> {
    if s.served == s.ack then [] else [s.respCell]
  }

  predicate Session(pc: TerminalPc) {
    !pc.Settling? && !pc.Echoed?
  }

  predicate Flushed(s: State) {
    && s.fifo == [] && s.ring == [] && s.log == [] && s.asked == [] && !s.active
    && s.served == s.ack && !s.flags.ready && !s.flags.overflow
  }

  predicate SessionOk(s: State) {
    && s.core0.Running? && !s.resetReq
    && s.log == s.emitted + Unacked(s) + s.fifo
    && (s.flags.phase == s.last <==> s.served == s.ack)
    && (s.statusCell.phase != s.last ==> s.statusCell.phase == s.flags.phase)
    && (s.statusCell.overflow ==> s.flags.overflow)
    && match s.pc
       case Probed => s.cmdCell == 255 - s.lastCmd
       case MustSettle => s.cmdCell == 255 - s.lastCmd
       case HaveByte(phase) => phase == s.flags.phase == s.statusCell.phase != s.last
       case Read(phase, d, _) => phase == s.flags.phase == s.statusCell.phase != s.last && d == s.respCell
       case _ => true
  }

  predicate SettlingOk(s: State) {
    if s.resetReq then
      s.core0.Running? && s.cmdCell != ECHO_RESET && s.log == s.emitted + Unacked(s) + s.fifo
    else
      && Flushed(s)
      && (s.core0.Running? <==> s.cmdCell == ECHO_RESET)
      && (!s.core0.ResetStatus? ==>
            s.statusCell.phase == s.flags.phase && !s.statusCell.ready && !s.statusCell.overflow)
  }

  predicate Inv(s: State) {
    && (s.served == s.ack || s.served == Succ(s.ack))
    && s.log <= s.asked && (!s.flags.overflow ==> s.log == s.asked)
    && s.typed == s.popped + s.ring
    && (s.flags.overflow ==> s.active)
    && (s.served != s.ack ==> s.flags.ready)
    && (s.active || s.ring != [] ==> s.cmdCell == 255 - s.lastCmd)
    && match s.pc
       case Settling => SettlingOk(s)
       case Echoed => SettlingOk(s) && !s.resetReq && s.core0.Running?
       case _ => SessionOk(s)
  }

  lemma PowerOnInv(capacity: nat)
    ensures Inv(PowerOn(capacity))
  {
  }

  predicate ByCore0(step: Step) {
    match step
    case Pop | Ask(_) | GiveUp(_) | Abandon | PublishByte | DropReady | FoldDrops | StoreStatus => true
    case TakeReset | StoreResetStatus | StoreEcho => true
    case _ => false
  }

  lemma ConsoleKeeps(s: State, step: Step)
    requires Inv(s) && Enabled(s, step) && (step.Pop? || step.Ask? || step.GiveUp? || step.Abandon? || step.FoldDrops?)
    ensures Inv(Next(s, step))
  {
  }

  lemma PublishKeeps(s: State)
    requires Inv(s) && Enabled(s, PublishByte)
    ensures Inv(Next(s, PublishByte))
  {
  }

  lemma StatusKeeps(s: State, step: Step)
    requires Inv(s) && Enabled(s, step) && (step.DropReady? || step.StoreStatus?)
    ensures Inv(Next(s, step))
  {
  }

  lemma ResetKeeps(s: State, step: Step)
    requires Inv(s) && Enabled(s, step) && (step.TakeReset? || step.StoreResetStatus? || step.StoreEcho?)
    ensures Inv(Next(s, step))
  {
  }

  lemma CommandKeeps(s: State, b: byte)
    requires Inv(s) && Enabled(s, WriteCmd(b))
    ensures Inv(Next(s, WriteCmd(b)))
  {
  }

  lemma SettleKeeps(s: State, step: Step)
    requires Inv(s) && Enabled(s, step) && Honest(s, step)
    requires step.WriteStatus? || step.PollEcho? || step.ReadPhase? || step.Restart?
    ensures Inv(Next(s, step))
  {
  }

  lemma ReadingKeeps(s: State, step: Step)
    requires Inv(s) && Enabled(s, step)
    requires step.PollStatus? || step.DrainStatus? || step.ReadResp? || step.Reread? || step.Acknowledge?
    ensures Inv(Next(s, step))
  {
  }

  lemma StepKeeps(s: State, step: Step)
    requires Inv(s) && Enabled(s, step) && Honest(s, step)
    ensures Inv(Next(s, step))
  {
    match step
    case Pop | Ask(_) | GiveUp(_) | Abandon | FoldDrops => ConsoleKeeps(s, step);
    case PublishByte => PublishKeeps(s);
    case DropReady | StoreStatus => StatusKeeps(s, step);
    case TakeReset | StoreResetStatus | StoreEcho => ResetKeeps(s, step);
    case WriteCmd(b) => CommandKeeps(s, b);
    case WriteStatus | PollEcho | ReadPhase | Restart => SettleKeeps(s, step);
    case PollStatus | DrainStatus | ReadResp | Reread | Acknowledge => ReadingKeeps(s, step);
  }

  lemma {:induction false} RunKeeps(s: State, steps: seq<Step>)
    requires Inv(s) && Run?(s, steps) && HonestRun(s, steps)
    ensures Inv(Final(s, steps))
    decreases |steps|
  {
    if steps != [] {
      StepKeeps(s, steps[0]);
      RunKeeps(Next(s, steps[0]), steps[1..]);
    }
  }

  lemma {:induction false} RunThen(s: State, first: seq<Step>, second: seq<Step>)
    requires Run?(s, first) && Run?(Final(s, first), second)
    ensures Run?(s, first + second) && Final(s, first + second) == Final(Final(s, first), second)
    decreases |first|
  {
    if first == [] {
      assert first + second == second;
    } else {
      assert (first + second)[0] == first[0] && (first + second)[1..] == first[1..] + second;
      RunThen(Next(s, first[0]), first[1..], second);
    }
  }

  lemma {:induction false} HonestThen(s: State, steps: seq<Step>, step: Step)
    requires Run?(s, steps) && HonestRun(s, steps) && Enabled(Final(s, steps), step) && Honest(Final(s, steps), step)
    ensures Run?(s, steps + [step]) && HonestRun(s, steps + [step])
    ensures Final(s, steps + [step]) == Next(Final(s, steps), step)
    decreases |steps|
  {
    if steps == [] {
      assert [step][1..] == [];
      assert steps + [step] == [step];
    } else {
      assert (steps + [step])[1..] == steps[1..] + [step];
      HonestThen(Next(s, steps[0]), steps[1..], step);
    }
  }

  /** `steps` is a run from power-up that ends in `s`, and no reset in it was asked for behind a 0x00. */
  ghost predicate Reaches(capacity: nat, steps: seq<Step>, s: State) {
    && Run?(PowerOn(capacity), steps) && Final(PowerOn(capacity), steps) == s
    && HonestRun(PowerOn(capacity), steps)
  }

  lemma Reached(capacity: nat, steps: seq<Step>, s: State)
    requires Reaches(capacity, steps, s)
    ensures Inv(s)
  {
    PowerOnInv(capacity);
    RunKeeps(PowerOn(capacity), steps);
  }

  lemma ReachesNext(capacity: nat, steps: seq<Step>, s: State, step: Step)
    requires Reaches(capacity, steps, s) && Enabled(s, step) && Honest(s, step)
    ensures Reaches(capacity, steps + [step], Next(s, step))
  {
    HonestThen(PowerOn(capacity), steps, step);
  }

  // ---------------------------------------------------------------- the terminal's share of a run

  /**
   * What any number of terminal steps leaves of a state: core 0's part is untouched, commands come in
   * behind the waiting ones, at most the one byte handed out is acknowledged, a reset request stays, and
   * once it is made the terminal only looks.
   */
  /** The terminal has no byte in view that it could acknowledge. */
  predicate NothingNew(s: State) {
    && !s.pc.HaveByte? && !s.pc.Read?
    && (s.pc.Settling? || s.pc.Echoed? || s.statusCell.phase == s.last)
  }

  lemma AckedMeansNothingNew(s: State)
    requires Inv(s) && s.served == s.ack
    ensures NothingNew(s)
  {
  }

  ghost predicate ByTerminal(was: State, now: State) {
    && now.core0 == was.core0 && now.flags == was.flags && now.fifo == was.fifo && now.served == was.served
    && now.dropsSeen == was.dropsSeen && now.active == was.active && now.statusCell == was.statusCell
    && now.respCell == was.respCell && now.asked == was.asked && now.log == was.log && now.popped == was.popped
    && was.ring <= now.ring
    && (now.ack == was.ack || (was.served != was.ack && now.ack == now.served))
    && (NothingNew(was) ==> NothingNew(now) && now.ack == was.ack)
    && (was.resetReq || !was.core0.Running? ==> now == was)
  }

  predicate Writes(step: Step) {
    step.WriteCmd? || step.WriteStatus? || step.Acknowledge?
  }

  lemma TerminalWrites(s: State, step: Step)
    requires Inv(s) && Enabled(s, step) && Writes(step)
    ensures ByTerminal(s, Next(s, step))
  {
  }

  lemma TerminalReads(s: State, step: Step)
    requires Inv(s) && Enabled(s, step) && !ByCore0(step) && !Writes(step)
    ensures ByTerminal(s, Next(s, step))
  {
  }

  lemma TerminalSteps(a: State, b: State, c: State)
    requires ByTerminal(a, b) && ByTerminal(b, c)
    ensures ByTerminal(a, c)
  {
  }

  // ---------------------------------------------------------------- publishing

  /** Bytes accepted and not yet acknowledged. */
  function Left(s: State): nat {
    |s.fifo| + if s.served == s.ack then 0 else 1
  }

  /**
   * What publishing, with the terminal running alongside, leaves of a state: nothing is accepted or
   * dropped, no flag but READY and the phase moves, and every acknowledgement seen is one byte less to go.
   */
  ghost predicate Published(was: State, now: State) {
    && now.core0 == was.core0 && now.active == was.active
    && now.asked == was.asked && now.log == was.log && now.popped == was.popped
    && now.flags.overflow == was.flags.overflow && now.flags.cmdFull == was.flags.cmdFull
    && now.dropsSeen == was.dropsSeen && (was.resetReq ==> now.resetReq)
    && |now.fifo| <= |was.fifo| && Left(now) <= Left(was)
    && (now.ack != was.ack ==> Left(now) < Left(was))
  }

  /** The oldest byte has gone out to RESP, and STATUS shows READY under the other phase. */
  predicate HandedOut(was: State, now: State) {
    && was.fifo != [] && now.respCell == was.fifo[0] && now.fifo == was.fifo[1..]
    && now.flags == was.flags.(phase := !was.flags.phase, ready := true) && now.statusCell == now.flags
    && now.ack == was.ack && now.served == Succ(was.ack)
  }

  /** There was nothing to hand out, and READY is down. */
  predicate Drained(was: State, now: State) {
    && was.fifo == now.fifo == [] && now.flags == was.flags.(ready := false) && now.statusCell == now.flags
    && now.ack == was.ack == now.served
  }

  /** What publishing does, the terminal running alongside, if the last byte was acknowledged when it was called. */
  predicate PublishedOnce(was: State, now: State) {
    if was.served != was.ack then
      || (now.ack == was.ack && now.served == was.served && now.fifo == was.fifo && now.flags == was.flags
          && now.statusCell == was.statusCell)
      || (now.ack == was.served && (if was.fifo != [] then HandedOut(was.(ack := was.served), now)
                                    else Drained(was.(ack := was.served), now)))
    else if was.fifo != [] then HandedOut(was, now)
    else if was.flags.ready then Drained(was, now)
    else
      && now.fifo == [] && now.flags == was.flags && now.statusCell == was.statusCell
      && now.ack == was.ack == now.served
  }

  /** The terminal first (`free`), then core 0, which acts only on a byte acknowledged. */
  lemma PublishesOnce(was: State, free: State, now: State)
    requires Inv(was) && ByTerminal(was, free)
    requires if free.served == free.ack && (free.fifo != [] || free.flags.ready) then
               if free.fifo != [] then HandedOut(free, now) else Drained(free, now)
             else now == free
    ensures PublishedOnce(was, now)
  {
  }

  /** With no acknowledgement in between, a byte that was or should be out is out, and so while the FIFO stays full. */
  lemma StillOut(was: State, now: State)
    requires PublishedOnce(was, now)
    ensures (was.fifo != [] || was.served != was.ack) && now.ack == was.ack ==> now.served != now.ack
    ensures |now.fifo| == |was.fifo| > 0 ==> now.served != now.ack && now.ack == was.ack
  {
  }

  lemma TerminalPublishes(was: State, now: State)
    requires ByTerminal(was, now)
    ensures Published(was, now)
  {
  }

  lemma StepPublishes(s: State, step: Step)
    requires Enabled(s, step) && (step.PublishByte? || step.DropReady? || step.StoreStatus?)
    ensures Published(s, Next(s, step))
  {
  }

  lemma PublishesMore(a: State, b: State, c: State)
    requires Published(a, b) && Published(b, c)
    ensures Published(a, c)
  {
  }

  /** What console output, refused or not, leaves of a state. */
  ghost predicate Extended(was: State, now: State) {
    && now.core0 == was.core0 && now.active == was.active && now.popped == was.popped
    && (was.resetReq ==> now.resetReq)
    && (was.flags.overflow ==> now.flags.overflow && now.log == was.log)
  }

  lemma PublishedExtends(a: State, b: State)
    requires Published(a, b)
    ensures Extended(a, b)
  {
  }

  lemma ExtendsMore(a: State, b: State, c: State)
    requires Extended(a, b) && Extended(b, c)
    ensures Extended(a, c)
  {
  }
}
