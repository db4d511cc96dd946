/**
 * Host, register ISR and deferred worker stepping against each other.
 *
 * `base` is the resting point the worker reaches when it finishes the stores of the entry in hand, and
 * `Drain(base, queue)` is where it will be once it has caught up with everything the host has sent.  The
 * central fact is that the host never sees anything else: the cache runs ahead of the bus word by
 * exactly the queue.
 */
module RegisterProtocol {
  import opened SasiBits
  import opened DeferWorker
  import opened RegisterIsr

  // ---------------------------------------------------------------- the conforming host

  /** `Await...` polls STATUS, `Have...` has seen what it polled for, `Got...` is between the two halves of a read. */
  datatype HostPc =
    | Config | HaveIdle | HaveTarget
    | AwaitSelected | HaveSelected
    | AwaitCommand | HaveCommand
    | AwaitResult
    | AwaitParameters | HaveParameters
    | AwaitStatus | HaveStatus | GotStatus
    | AwaitMessage | HaveMessage | GotMessage
    | Resetting

  /** `limit` bounds the CONTROL writes before a selection, `left` counts those still allowed. */
  datatype Host = Host(pc: HostPc, limit: nat, left: nat, selection: bv8, sent: seq<bv8>, parameters: nat, byte: bv8)

  datatype Command = Command(target: nat, cdb: seq<bv8>)

  /** What host and worker have done since the last reset. */
  datatype History = History(statuses: seq<bv8>, messages: seq<bv8>, issued: seq<Command>, dispatched: seq<Command>)

  /** `torn` remembers that the ISR moved both STATUS cells between the worker's stores to them. */
  datatype State = State(m: Machine, todo: seq<Op>, base: View, queue: seq<Entry>, drops: nat, torn: bool,
                         host: Host, history: History)

  datatype Step =
    | Poll
    | HostControl(v: bv8)
    | HostData(v: bv8)
    | HostPrefetch
    | HostCommit
    | HostReset
    | HostResetOver
    | Worker(env: Environment)

  predicate Plain(v: bv8) {
    v & (DMA_SELECT | DMA_RESET) == 0
  }

  predicate Enabled(s: State, step: Step) {
    match step
    case Poll => true
    case HostControl(v) =>
      (match s.host.pc
       case Config => Plain(v) && s.host.left > 0
       case HaveTarget => Selecting(v) && v & DMA_RESET == 0
       case HaveSelected => Plain(v)
       case _ => false)
    case HostData(_) => s.host.pc.HaveIdle? || s.host.pc.HaveCommand? || s.host.pc.HaveParameters?
    case HostPrefetch => s.host.pc.HaveStatus? || s.host.pc.HaveMessage?
    case HostCommit => s.host.pc.GotStatus? || s.host.pc.GotMessage?
    case HostReset => s.host.pc != Resetting
    // the host gives the card time to drain the RESET entry
    case HostResetOver => s.host.pc == Resetting && s.queue == [] && s.todo == []
    case Worker(_) => s.todo != [] || s.queue != []
  }

  function PollHost(h: Host, seen: bv8): Host {
    match h.pc
    case Config => if seen == PHASE_FREE then h.(pc := HaveIdle) else h
    case AwaitSelected => if seen == PHASE_SELECTED then h.(pc := HaveSelected) else h
    case AwaitCommand => if seen == PHASE_COMMAND then h.(pc := HaveCommand) else h
    case AwaitResult =>
      if seen == PHASE_STATUS then h.(pc := HaveStatus)
      else if seen == PHASE_PARAMETERS then h.(pc := HaveParameters, parameters := 0)
      else h
    case AwaitParameters => if seen == PHASE_PARAMETERS then h.(pc := HaveParameters) else h
    case AwaitStatus => if seen == PHASE_STATUS then h.(pc := HaveStatus) else h
    case AwaitMessage => if seen == PHASE_MESSAGE then h.(pc := HaveMessage) else h
    case _ => h
  }

  function ControlHost(h: Host): Host {
    match h.pc
    case HaveTarget => h.(pc := AwaitSelected)
    case HaveSelected => h.(pc := AwaitCommand, sent := [])
    case _ => if h.left > 0 then h.(left := h.left - 1) else h
  }

  function DataHost(h: Host, v: bv8): Host {
    match h.pc
    case HaveIdle => h.(pc := HaveTarget, selection := v)
    case HaveCommand => h.(sent := h.sent + [v], pc := if |h.sent| + 1 == 6 then AwaitResult else AwaitCommand)
    case _ => h.(parameters := h.parameters + 1, pc := if h.parameters + 1 == 8 then AwaitStatus else AwaitParameters)
  }

  function DataHistory(sent: Host, h: History): History {
    if sent.pc == AwaitResult then
      h.(issued := h.issued + [Command(ExtractTarget(sent.selection), sent.sent)])
    else h
  }

  function PrefetchHost(h: Host, byte: bv8): Host {
    h.(byte := byte, pc := if h.pc == HaveStatus then GotStatus else GotMessage)
  }

  function CommitHost(h: Host): Host {
    if h.pc == GotStatus then h.(pc := AwaitMessage) else h.(pc := Config, left := h.limit)
  }

  function CommitHistory(host: Host, h: History): History {
    if host.pc == GotStatus then h.(statuses := h.statuses + [host.byte]) else h.(messages := h.messages + [host.byte])
  }

  predicate Mid(todo: seq<Op>) {
    todo != [] && todo[0].Cell30?
  }

  function Send(s: State, m: Machine, e: Entry, host: Host): State {
    s.(m := m,
       queue := Enqueue(s.queue, e),
       drops := if Enqueue(s.queue, e) == s.queue then s.drops + 1 else s.drops,
       torn := if m.cells.c20 == s.m.cells.c20 then s.torn else Mid(s.todo),
       host := host)
  }

  /** The worker hands a complete command to its handler. */
  predicate Dispatches(m: Machine, e: Entry) {
    e.WriteOf? && e.reg == Data && m.bus & (CTL | INP | MSG) == CTL && |m.local.cdb| + 1 >= 6
  }

  function Take(s: State, env: Environment): State
    requires s.queue != []
  {
    var e := s.queue[0];
    s.(todo := Program(e, s.m, env),
       base := After(s.base, e, s.m, env),
       queue := s.queue[1..],
       history :=
         if Dispatches(s.m, e) then
           s.history.(dispatched := s.history.dispatched + [Command(s.m.local.target, s.m.local.cdb + [e.v])])
         else s.history)
  }

  function Proceed(s: State): State
    requires s.todo != []
  {
    if s.todo[0] == CheckReset && s.m.resetRequested then s.(todo := [])
    else s.(m := Exec(s.todo[0], s.m), todo := s.todo[1..], torn := if s.todo[0].Cell20? then false else s.torn)
  }

  function Next(s: State, step: Step): State
    requires Enabled(s, step)
  {
    match step
    case Poll => s.(host := PollHost(s.host, s.m.cells.c20))
    case HostControl(v) => Send(s, WriteControl(s.m, v), WriteOf(Control, v), ControlHost(s.host))
    case HostData(v) =>
      Send(s, s.m, WriteOf(Data, v), DataHost(s.host, v)).(history := DataHistory(DataHost(s.host, v), s.history))
    case HostPrefetch =>
      var (m, byte) := PrefetchData(s.m);
      s.(m := m, host := PrefetchHost(s.host, byte))
    case HostCommit =>
      Send(s, CommitDataRead(s.m), ReadOf(Data), CommitHost(s.host)).(history := CommitHistory(s.host, s.history))
    case HostReset => Send(s, WriteControl(s.m, DMA_RESET), WriteOf(Control, DMA_RESET), s.host.(pc := Resetting))
    case HostResetOver =>
      s.(m := s.m.(posted := []), base := Free, torn := false, history := History([], [], [], []),
         host := s.host.(pc := Config, left := s.host.limit))
    case Worker(env) => if s.todo != [] then Proceed(s) else Take(s, env)
  }

  function PowerOn(limit: nat): State {
    State(Machine(Cells(0, 0xFF, 0, 0), 0, 0, Local(0, 0, false, false, 0, 0, false, []), false, []),
          [], Free, [], 0, false, Host(Config, limit, limit, 0, [], 0, 0), History([], [], [], []))
  }

  predicate Run?(s: State, steps: seq<Step>)
    decreases |steps|
  {
    steps == [] || (Enabled(s, steps[0]) && Run?(Next(s, steps[0]), steps[1..]))
  }

  function Final(s: State, steps: seq<Step>): State
    requires Run?(s, steps)
    decreases |steps|
  {
    if steps == [] then s else Final(Next(s, steps[0]), steps[1..])
  }

  // ---------------------------------------------------------------- resting points of the worker

  datatype View =
    | Free
    | Addressed(selection: bv8)
    | Selected(target: nat)
    | Collecting(target: nat, bytes: seq<bv8>)
    | Parameters(count: nat)
    | StatusPhase(v: bv8)
    | MessagePhase
    | Confused

  /** Where an entry takes the worker; a sixth command byte or eighth parameter leaves a verdict outstanding. */
  function NextView(view: View, e: Entry): View {
    match (view, e)
    case (Free, WriteOf(Control, v)) => if Plain(v) then Free else Confused
    case (Free, WriteOf(Data, v)) => Addressed(v)
    case (Addressed(x), WriteOf(Control, v)) =>
      if Selecting(v) && v & DMA_RESET == 0 then Selected(ExtractTarget(x)) else Confused
    case (Selected(t), WriteOf(Control, v)) => if Plain(v) then Collecting(t, []) else Confused
    case (Collecting(t, bytes), WriteOf(Data, v)) => if |bytes| < 6 then Collecting(t, bytes + [v]) else Confused
    case (Parameters(k), WriteOf(Data, v)) => if k < 8 then Parameters(k + 1) else Confused
    case (StatusPhase(_), ReadOf(Data)) => MessagePhase
    case (MessagePhase, ReadOf(Data)) => Free
    case _ => Confused
  }

  predicate Outstanding(view: View) {
    (view.Collecting? && |view.bytes| == 6) || view == Parameters(8)
  }

  function After(view: View, e: Entry, m: Machine, env: Environment): View {
    var next := NextView(view, e);
    if next.Collecting? && |next.bytes| == 6 then
      match HandlerVerdict(next.bytes, m.local.dmaEnabled, env)
      case Complete(v) => StatusPhase(v)
      case AskParameters => Parameters(0)
    else if next == Parameters(8) then StatusPhase(GOOD)
    else next
  }

  function Drain(view: View, queue: seq<Entry>): View
    decreases |queue|
  {
    if queue == [] then view else Drain(NextView(view, queue[0]), queue[1..])
  }

  function PhaseOf(view: View): bv8 {
    match view
    case Free => PHASE_FREE
    case Addressed(_) => PHASE_FREE
    case Selected(_) => PHASE_SELECTED
    case Collecting(_, _) => PHASE_COMMAND
    case Parameters(_) => PHASE_PARAMETERS
    case StatusPhase(_) => PHASE_STATUS
    case MessagePhase => PHASE_MESSAGE
    case Confused => 0xFF
  }

  /** The worker's own registers at a resting point. */
  predicate At(view: View, m: Machine) {
    var l := m.local;
    && (view.Selected? <==> Selecting(l.control))
    && l.statusPending == view.StatusPhase?
    && l.ndr == !(view.Free? || view.Addressed? || view.Selected?)
    && match view
       case Free => m.bus == 0 && l.dataOut == 0 && l.cdb == []
       case Addressed(x) => m.bus == 0 && l.dataOut == 0 && l.cdb == [] && l.command == x
       case Selected(t) => m.bus == SEL | BSY && l.dataOut == 0 && l.cdb == [] && l.target == t
       case Collecting(t, bytes) =>
         m.bus == BSY | REQ | CTL && l.dataOut == 0 && l.cdb == bytes && l.target == t && |bytes| < 6
       case Parameters(k) => m.bus == BSY | REQ && k < 8 && l.dataOut == 8 - k && l.cdb == []
       case StatusPhase(v) =>
         m.bus == BSY | REQ | CTL | INP && l.dataOut == 0 && l.cdb == [] && m.status == v
       case MessagePhase => m.bus == BSY | REQ | CTL | INP | MSG && l.dataOut == 0 && l.cdb == []
       case Confused => false
  }
}
