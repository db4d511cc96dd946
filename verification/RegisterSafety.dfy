/** The invariant of the register window over every interleaving, and what it promises a host. */
module RegisterSafety {
  import opened SasiBits
  import opened DeferWorker
  import opened RegisterIsr
  import opened RegisterProtocol
  import opened RegisterRest

  /** CONTROL writes per command for which the queue can be shown never to fill. */
  const MAX_CONTROL_WRITES: nat := 242

  function Rested(s: State): Machine {
    Run(s.todo, s.m)
  }

  /** Where the worker will be when it has caught up with the host. */
  function Seen(s: State): View {
    Drain(s.base, s.queue)
  }

  function LastControl(control: bv8, queue: seq<Entry>): bv8
    decreases |queue|
  {
    if queue == [] then control
    else
      var e := queue[0];
      LastControl(if e.WriteOf? && e.reg == Control then e.v else control, queue[1..])
  }

  predicate Agrees(h: Host, v: View) {
    match h.pc
    case Config => v.Free? && h.left <= h.limit
    case HaveIdle => v.Free?
    case HaveTarget => v == Addressed(h.selection)
    case AwaitSelected => v == Selected(ExtractTarget(h.selection))
    case HaveSelected => v == Selected(ExtractTarget(h.selection))
    case AwaitCommand => v == Collecting(ExtractTarget(h.selection), h.sent) && |h.sent| < 6
    case HaveCommand => v == Collecting(ExtractTarget(h.selection), h.sent) && |h.sent| < 6
    case AwaitResult =>
      && |h.sent| == 6
      && (v == Collecting(ExtractTarget(h.selection), h.sent) || v.StatusPhase? || v == Parameters(0))
    case AwaitParameters => v == Parameters(h.parameters) && h.parameters < 8
    case HaveParameters => v == Parameters(h.parameters) && h.parameters < 8
    case AwaitStatus => v == Parameters(8) || v.StatusPhase?
    case HaveStatus => v.StatusPhase?
    case GotStatus => v == StatusPhase(h.byte)
    case AwaitMessage => v.MessagePhase?
    case HaveMessage => v.MessagePhase?
    case GotMessage => v.MessagePhase? && h.byte == 0
    case Resetting => false
  }

  /** The most entries that can be queued at each point of the host's program. */
  function Backlog(h: Host): int {
    match h.pc
    case Config => 2 + h.limit - h.left
    case HaveIdle => 2 + h.limit
    case HaveTarget => 3 + h.limit
    case AwaitSelected => 4 + h.limit
    case HaveSelected => 4 + h.limit
    case AwaitCommand => 5 + h.limit + |h.sent|
    case HaveCommand => 5 + h.limit + |h.sent|
    case AwaitResult => 11 + h.limit
    case AwaitParameters => h.parameters
    case HaveParameters => h.parameters
    case AwaitStatus => 8
    case HaveStatus => 0
    case GotStatus => 0
    case AwaitMessage => 1
    case HaveMessage => 1
    case GotMessage => 1
    case Resetting => 12 + h.limit
  }

  /** Points at which the worker, not the ISR, moves the STATUS cell next. */
  predicate Waiting(pc: HostPc) {
    pc in {AwaitCommand, HaveCommand, AwaitResult, AwaitParameters, HaveParameters, AwaitStatus}
  }

  predicate Working(base: View) {
    base.Collecting? || base.Parameters? || base.StatusPhase?
  }

  /**
   * What a host access can depend on: the view the worker is heading for, whether stores to 0x20 are
   * still to come (`pending`) and where they leave it (`landing`), and a store to 0x30 in flight (`mid`).
   */
  datatype Picture = Picture(seen: View, working: bool, pending: bool, landing: bv8, mid: bool, inFlight: bv8,
                             cells: Cells, lastControl: bv8, torn: bool, posted: seq<bv8>)

  function PictureOf(s: State): Picture {
    var r := Rested(s);
    Picture(Seen(s), Working(s.base), Pending20(s.todo), r.cells.c20,
            Mid(s.todo), if Mid(s.todo) then Phase(Drive(s.m.bus, s.todo[0].clear, s.todo[0].put)) else 0,
            s.m.cells, LastControl(r.local.control, s.queue), s.torn, r.posted)
  }

  predicate CacheOk(p: Picture, h: Host) {
    && p.landing == PhaseOf(p.seen)
    && (if p.pending then
          && p.working && Waiting(h.pc)
          && p.cells.c20 != PHASE_STATUS
          && (h.pc in {AwaitCommand, HaveCommand, AwaitResult} ==> p.cells.c20 != PHASE_PARAMETERS)
        else p.cells.c20 == p.landing)
    && (Selecting(p.cells.control) <==> h.pc in {AwaitSelected, HaveSelected})
    && p.cells.control == p.lastControl
  }

  predicate AliasOk(p: Picture) {
    && (p.mid ==> p.working)
    && if p.mid then p.cells.c20 == p.inFlight <==> !p.torn
       else p.cells.c20 == p.cells.c30 <==> !p.torn
  }

  predicate HistoryOk(p: Picture, h: History) {
    var complete := p.seen.Collecting? && |p.seen.bytes| == 6;
    && p.posted == h.statuses + (if p.seen.StatusPhase? then [p.seen.v] else [])
    && |h.statuses| == |h.messages| + (if p.seen.MessagePhase? then 1 else 0)
    && (forall byte | byte in h.messages :: byte == 0)
    && h.issued == h.dispatched + (if complete then [Command(p.seen.target, p.seen.bytes)] else [])
    && |h.issued| == |h.statuses| + (if complete || p.seen.Parameters? || p.seen.StatusPhase? then 1 else 0)
  }

  predicate Coherent(p: Picture, host: Host, history: History) {
    Agrees(host, p.seen) && CacheOk(p, host) && AliasOk(p) && HistoryOk(p, history)
  }

  predicate Live(s: State) {
    && !s.m.resetRequested
    && At(s.base, Rested(s)) && Orderly(s.todo) && !Outstanding(s.base)
    && Coherent(PictureOf(s), s.host, s.history)
  }

  /** While a RESET drains: it is the last entry, or its stores are under way, or it is done. */
  predicate Recovering(s: State) {
    if s.queue != [] then s.queue[|s.queue| - 1] == WriteOf(Control, DMA_RESET)
    else
      var r := Rested(s);
      && At(Free, r) && !r.resetRequested
      && r.cells == Cells(DMA_RESET, 0, 0, 0) && r.local.control == DMA_RESET
      && CheckReset !in s.todo
  }

  predicate Inv(s: State) {
    && s.host.limit <= MAX_CONTROL_WRITES
    && s.drops == 0
    && |s.queue| <= Backlog(s.host)
    && if s.host.pc == Resetting then Recovering(s) && s.m.cells.control == DMA_RESET else Live(s)
  }

  // ---------------------------------------------------------------- stores and cells

  lemma {:induction false} RunKeepsCells(ops: seq<Op>, m: Machine)
    ensures Run(ops, m).cells.control == m.cells.control
    ensures !Pending20(ops) ==> Run(ops, m).cells.c20 == m.cells.c20
    decreases |ops|
  {
    if ops != [] {
      RunKeepsCells(ops[1..], Exec(ops[0], m));
    }
  }

  lemma ExecIgnoresCells(op: Op, m: Machine, x: Cells)
    ensures var b := Exec(op, m.(cells := x));
            b == Exec(op, m).(cells := b.cells) && (op.Cell20? ==> b.cells.c20 == Exec(op, m).cells.c20)
  {
    match op
    case SetLocal(_) =>
    case Bus(_, _) =>
    case Cell20(_, _) =>
    case Cell30(_, _) =>
    case CellData(_) =>
    case PostStatus(_) =>
    case ZeroStatus =>
    case CheckReset =>
    case ClearReset =>
  }

  /** Cells the ISR changed before the stores ran do not influence the stores. */
  lemma {:induction false} RunIgnoresCells(ops: seq<Op>, a: Machine, b: Machine)
    requires b == a.(cells := b.cells)
    ensures Run(ops, b) == Run(ops, a).(cells := Run(ops, b).cells)
    ensures Pending20(ops) || a.cells.c20 == b.cells.c20 ==> Run(ops, b).cells.c20 == Run(ops, a).cells.c20
    decreases |ops|
  {
    if ops != [] {
      var op := ops[0];
      ExecIgnoresCells(op, a, b.cells);
      var a1, b1 := Exec(op, a), Exec(op, b);
      assert b1 == a1.(cells := b1.cells);
      assert a.cells.c20 == b.cells.c20 || op.Cell20? ==> a1.cells.c20 == b1.cells.c20;
      RunIgnoresCells(ops[1..], a1, b1);
    }
  }

  lemma {:induction false} RunPosted(ops: seq<Op>, m: Machine)
    requires Orderly(ops) && !Pending20(ops)
    ensures Run(ops, m).posted == m.posted && Run(ops, m).status == m.status
    decreases |ops|
  {
    if ops != [] {
      RunPosted(ops[1..], Exec(ops[0], m));
    }
  }

  lemma {:induction false} LastControlAppend(control: bv8, queue: seq<Entry>, e: Entry)
    ensures LastControl(control, queue + [e])
            == if e.WriteOf? && e.reg == Control then e.v else LastControl(control, queue)
    decreases |queue|
  {
    if queue == [] {
      assert (queue + [e])[1..] == [];
    } else {
      assert (queue + [e])[1..] == queue[1..] + [e];
      var x := queue[0];
      LastControlAppend(if x.WriteOf? && x.reg == Control then x.v else control, queue[1..], e);
    }
  }

  /** Once the host has moved past the status phase, a store still in flight can only be to the alias. */
  lemma StoreInFlight(s: State)
    requires Live(s)
    ensures var p := PictureOf(s);
            p.mid && !p.pending && !p.seen.Collecting? && !p.seen.Parameters? ==> p.inFlight == PHASE_STATUS
  {
    if Mid(s.todo) && !Pending20(s.todo) && !Seen(s).Collecting? && !Seen(s).Parameters? {
      DrainForward(s.base, s.queue);
      var c, p := s.todo[0].clear, s.todo[0].put;
      assert s.todo == [Cell30(c, p), Bus(c, p)];
      RunTwo(Cell30(c, p), Bus(c, p), s.m);
    }
  }

  // ---------------------------------------------------------------- host steps

  function SendPicture(p: Picture, cells: Cells, e: Entry): Picture {
    p.(seen := NextView(p.seen, e),
       landing := if p.pending then p.landing else cells.c20,
       cells := cells,
       lastControl := if e.WriteOf? && e.reg == Control then e.v else p.lastControl,
       torn := if cells.c20 == p.cells.c20 then p.torn else p.mid)
  }

  lemma SendQueued(s: State, m: Machine, e: Entry, host: Host)
    requires Inv(s) && s.host.pc != Resetting
    ensures |s.queue| < DEFER_QUEUE_SIZE - 2
    ensures Send(s, m, e, host).queue == s.queue + [e] && Send(s, m, e, host).drops == 0
  {
  }

  /** A host access changes the picture by one entry and the cells the ISR wrote. */
  lemma SendPictured(s: State, m: Machine, e: Entry, host: Host)
    requires Inv(s) && s.host.pc != Resetting && m == s.m.(cells := m.cells)
    ensures |s.queue| < DEFER_QUEUE_SIZE - 2
    ensures var s' := Send(s, m, e, host);
            && s'.queue == s.queue + [e] && s'.drops == 0
            && PictureOf(s') == SendPicture(PictureOf(s), m.cells, e)
            && At(s.base, Rested(s'))
  {
    SendQueued(s, m, e, host);
    DrainAppend(s.base, s.queue, e);
    RunIgnoresCells(s.todo, s.m, m);
    RunKeepsCells(s.todo, m);
    LastControlAppend(Rested(s).local.control, s.queue, e);
  }

  lemma SendKeeps(s: State, m: Machine, e: Entry, host: Host, history: History)
    requires Inv(s) && s.host.pc != Resetting && m == s.m.(cells := m.cells)
    requires host.pc != Resetting && host.limit == s.host.limit
    requires |s.queue| < Backlog(host)
    requires Coherent(SendPicture(PictureOf(s), m.cells, e), host, history)
    ensures Inv(Send(s, m, e, host).(history := history))
  {
    SendPictured(s, m, e, host);
    var s' := Send(s, m, e, host).(history := history);
    assert PictureOf(s') == PictureOf(Send(s, m, e, host)) && Rested(s') == Run(s.todo, m);
  }

  lemma ReadPictured(s: State, m: Machine, host: Host)
    requires Live(s) && m == s.m.(cells := s.m.cells.(data := m.cells.data))
    ensures PictureOf(s.(m := m, host := host)) == PictureOf(s).(cells := m.cells)
    ensures At(s.base, Rested(s.(m := m, host := host)))
  {
    RunIgnoresCells(s.todo, s.m, m);
    RunKeepsCells(s.todo, m);
  }

  /** A read that queues nothing leaves the worker's side of the picture alone. */
  lemma ReadKeeps(s: State, m: Machine, host: Host)
    requires Inv(s) && s.host.pc != Resetting && m == s.m.(cells := s.m.cells.(data := m.cells.data))
    requires host.pc != Resetting && host.limit == s.host.limit
    requires |s.queue| <= Backlog(host)
    requires Coherent(PictureOf(s).(cells := m.cells), host, s.history)
    ensures Inv(s.(m := m, host := host))
  {
    ReadPictured(s, m, host);
  }

  lemma ControlCoherent(p: Picture, h: Host, history: History, m: Machine, v: bv8)
    requires Coherent(p, h, history) && m.cells == p.cells
    requires p.mid && !p.pending && !p.seen.Collecting? && !p.seen.Parameters? ==> p.inFlight == PHASE_STATUS
    requires match h.pc
             case Config => Plain(v) && h.left > 0
             case HaveTarget => Selecting(v) && v & DMA_RESET == 0
             case HaveSelected => Plain(v)
             case _ => false
    ensures Coherent(SendPicture(p, WriteControl(m, v).cells, WriteOf(Control, v)), ControlHost(h), history)
    ensures Backlog(ControlHost(h)) > Backlog(h)
  {
  }

  lemma DataCoherent(p: Picture, h: Host, history: History, v: bv8)
    requires Coherent(p, h, history)
    requires h.pc.HaveIdle? || h.pc.HaveCommand? || h.pc.HaveParameters?
    ensures Coherent(SendPicture(p, p.cells, WriteOf(Data, v)), DataHost(h, v), DataHistory(DataHost(h, v), history))
    ensures Backlog(DataHost(h, v)) > Backlog(h)
  {
  }

  lemma CommitCoherent(p: Picture, h: Host, history: History, m: Machine)
    requires Coherent(p, h, history) && m.cells == p.cells
    requires p.mid && !p.pending && !p.seen.Collecting? && !p.seen.Parameters? ==> p.inFlight == PHASE_STATUS
    requires h.pc.GotStatus? || h.pc.GotMessage?
    ensures Coherent(SendPicture(p, CommitDataRead(m).cells, ReadOf(Data)), CommitHost(h), CommitHistory(h, history))
    ensures Backlog(CommitHost(h)) > Backlog(h)
  {
  }

  /** The host acts on a phase only when no store to the STATUS cell is left. */
  lemma PollCoherent(p: Picture, h: Host, history: History)
    requires Coherent(p, h, history)
    ensures Coherent(p, PollHost(h, p.cells.c20), history)
    ensures PollHost(h, p.cells.c20).pc != Resetting && PollHost(h, p.cells.c20).limit == h.limit
  {
    PollAgrees(p, h);
  }

  lemma PollAgrees(p: Picture, h: Host)
    requires Agrees(h, p.seen) && CacheOk(p, h)
    ensures Agrees(PollHost(h, p.cells.c20), p.seen) && CacheOk(p, PollHost(h, p.cells.c20))
  {
  }

  lemma PollBacklog(p: Picture, h: Host)
    requires Agrees(h, p.seen) && CacheOk(p, h)
    ensures Backlog(PollHost(h, p.cells.c20)) >= Backlog(h) || p.seen.StatusPhase? || p.seen == Parameters(0)
    ensures 0 <= Backlog(PollHost(h, p.cells.c20))
  {
  }

  lemma ControlPlain(s: State, v: bv8)
    requires s.host.pc != Resetting && Enabled(s, HostControl(v))
    ensures var m := WriteControl(s.m, v); m == s.m.(cells := m.cells)
    ensures ControlHost(s.host).pc != Resetting && ControlHost(s.host).limit == s.host.limit
    ensures Next(s, HostControl(v))
            == Send(s, WriteControl(s.m, v), WriteOf(Control, v), ControlHost(s.host)).(history := s.history)
  {
  }

  lemma ControlKeeps(s: State, v: bv8)
    requires Inv(s) && Enabled(s, HostControl(v))
    ensures Inv(Next(s, HostControl(v)))
  {
    var p := PictureOf(s);
    StoreInFlight(s);
    ControlCoherent(p, s.host, s.history, s.m, v);
    ControlPlain(s, v);
    SendKeeps(s, WriteControl(s.m, v), WriteOf(Control, v), ControlHost(s.host), s.history);
  }

  lemma DataKeeps(s: State, v: bv8)
    requires Inv(s) && Enabled(s, HostData(v))
    ensures Inv(Next(s, HostData(v)))
  {
    var h := DataHost(s.host, v);
    DataCoherent(PictureOf(s), s.host, s.history, v);
    SendKeeps(s, s.m, WriteOf(Data, v), h, DataHistory(h, s.history));
  }

  lemma CommitKeeps(s: State)
    requires Inv(s) && Enabled(s, HostCommit)
    ensures Inv(Next(s, HostCommit))
  {
    var p := PictureOf(s);
    StoreInFlight(s);
    CommitCoherent(p, s.host, s.history, s.m);
    SendKeeps(s, CommitDataRead(s.m), ReadOf(Data), CommitHost(s.host), CommitHistory(s.host, s.history));
  }

  /** The byte a status or message read returns. */
  lemma PrefetchReads(s: State)
    requires Inv(s) && Enabled(s, HostPrefetch)
    ensures s.host.pc == HaveStatus ==> Seen(s) == StatusPhase(PrefetchData(s.m).1)
    ensures s.host.pc == HaveMessage ==> PrefetchData(s.m).1 == 0
  {
    RunPosted(s.todo, s.m);
    if s.queue != [] {
      DrainBehind(s.base, s.queue);
    }
  }

  lemma PrefetchCoherent(p: Picture, h: Host, history: History, m: Machine, byte: bv8)
    requires Coherent(p, h, history) && m.cells == p.cells.(data := m.cells.data)
    requires (h.pc == HaveStatus && p.seen == StatusPhase(byte)) || (h.pc == HaveMessage && byte == 0)
    ensures Coherent(p.(cells := m.cells), PrefetchHost(h, byte), history)
    ensures Backlog(PrefetchHost(h, byte)) == Backlog(h)
  {
  }

  lemma PrefetchKeeps(s: State)
    requires Inv(s) && Enabled(s, HostPrefetch)
    ensures Inv(Next(s, HostPrefetch))
  {
    PrefetchReads(s);
    var (m, byte) := PrefetchData(s.m);
    PrefetchCoherent(PictureOf(s), s.host, s.history, m, byte);
    ReadKeeps(s, m, PrefetchHost(s.host, byte));
  }

  lemma PollKeeps(s: State)
    requires Inv(s) && s.host.pc != Resetting
    ensures Inv(Next(s, Poll))
  {
    PollCoherent(PictureOf(s), s.host, s.history);
    PollBacklog(PictureOf(s), s.host);
    if s.queue != [] {
      DrainBehind(s.base, s.queue);
    }
    ReadKeeps(s, s.m, PollHost(s.host, s.m.cells.c20));
  }

  // ---------------------------------------------------------------- worker steps

  lemma QuietPhase(bus: bv8, clear: bv8, put: bv8)
    requires clear & REQ != 0 && put & REQ == 0
    ensures Phase(Drive(bus, clear, put)) != PHASE_STATUS && Phase(Drive(bus, clear, put)) != PHASE_PARAMETERS
  {
  }

  /** A store of the worker is coherent with whatever the ISR has already shown. */
  lemma WorkCoherent(s: State)
    requires Live(s) && s.todo != []
    ensures Coherent(PictureOf(Proceed(s)), s.host, s.history)
  {
    var p, s' := PictureOf(s), Proceed(s);
    var p' := PictureOf(s');
    assert Rested(s') == Rested(s);
    if !p'.pending {
      RunKeepsCells(s'.todo, s'.m);
    }
    var op := s.todo[0];
    if op.Cell20? {
      var shown := Phase(Drive(s.m.bus, op.clear, op.put));
      assert p' == p.(pending := p'.pending, cells := p.cells.(c20 := shown), mid := true, inFlight := shown,
                      torn := false);
      if p'.pending {
        QuietPhase(s.m.bus, op.clear, op.put);
      }
    } else if op.Cell30? {
      assert p' == p.(cells := p.cells.(c30 := p.inFlight), mid := false, inFlight := 0);
    } else {
      assert p' == p.(cells := p'.cells) && p'.cells == p.cells.(data := p'.cells.data);
    }
  }

  lemma WorkKeeps(s: State, env: Environment)
    requires Inv(s) && s.todo != []
    ensures Inv(Next(s, Worker(env)))
  {
    if s.host.pc == Resetting {
      assert s.todo[0] in s.todo;
    } else {
      WorkCoherent(s);
    }
  }

  /** What the picture shows once the worker has taken an entry: only an outstanding verdict moves the view. */
  lemma TakeSeen(s: State, env: Environment)
    requires Live(s) && s.todo == [] && s.queue != []
    ensures !NextView(s.base, s.queue[0]).Confused?
    ensures var s' := Take(s, env);
            if Outstanding(NextView(s.base, s.queue[0])) then
              s'.queue == [] && Seen(s) == NextView(s.base, s.queue[0]) && Seen(s') == s'.base
            else
              Seen(s') == Seen(s) && s'.base == NextView(s.base, s.queue[0])
  {
    var next := NextView(s.base, s.queue[0]);
    DrainForward(next, s.queue[1..]);
    if Outstanding(next) {
      OutstandingIsLast(next, s.queue[1..]);
    }
  }

  predicate FullCommand(v: View) {
    v.Collecting? && |v.bytes| == 6
  }

  /** The picture before (`p`) and after (`p'`) an entry is taken, and what its stores establish. */
  lemma TakeCoherent(p: Picture, p': Picture, h: Host, history: History, history': History, base: View, after: View)
    requires Coherent(p, h, history) && !p.pending && !p.mid
    requires p.seen == Parameters(0) ==> h.pc != AwaitResult
    requires p' == p.(seen := p'.seen, working := Working(after), pending := p'.pending, landing := p'.landing,
                      posted := p'.posted)
    requires p'.pending <==> base.Collecting? || base.Parameters?
    requires p'.pending ==> Working(after)
    requires base.Collecting? ==> p.seen.Collecting?
    requires base.Parameters? ==> p.seen.Parameters?
    requires p'.landing == if p'.pending then PhaseOf(after) else p.cells.c20
    requires p'.posted == p.posted + (if after.StatusPhase? then [after.v] else [])
    requires if Outstanding(p.seen) && p'.seen == after && (after.StatusPhase? || after == Parameters(0)) then
               && p'.pending
               && (after == Parameters(0) ==> p.seen.Collecting?)
             else p'.seen == p.seen && !p.seen.StatusPhase? && !after.StatusPhase? && after != Parameters(0)
                  && (after.Collecting? ==> p.seen.Collecting?) && (after.Parameters? ==> p.seen.Parameters?)
    requires history' == if FullCommand(p.seen) && p'.seen != p.seen then
                           history.(dispatched := history.dispatched + [Command(p.seen.target, p.seen.bytes)])
                         else history
    ensures Coherent(p', h, history')
  {
  }

  /** The dispatched command is the one the host finished sending. */
  lemma TakeHistory(s: State, env: Environment)
    requires Live(s) && s.todo == [] && s.queue != []
    ensures var v, v' := Seen(s), Seen(Take(s, env));
            Take(s, env).history == if FullCommand(v) && v' != v then
              s.history.(dispatched := s.history.dispatched + [Command(v.target, v.bytes)]) else s.history
  {
    TakeSeen(s, env);
    DrainForward(s.base, s.queue);
  }

  /** How base, view and host stand to each other when an entry is taken. */
  lemma TakeViews(s: State, env: Environment)
    requires Live(s) && s.todo == [] && s.queue != []
    ensures var seen, seen', base, after := Seen(s), Seen(Take(s, env)), s.base, Take(s, env).base;
            && (seen == Parameters(0) ==> s.host.pc != AwaitResult)
            && (base.Collecting? ==> seen.Collecting?)
            && (base.Parameters? ==> seen.Parameters?)
            && (base.Collecting? || base.Parameters? ==> Working(after))
            && if Outstanding(seen) && seen' == after && (after.StatusPhase? || after == Parameters(0)) then
                 && (base.Collecting? || base.Parameters?)
                 && (after == Parameters(0) ==> seen.Collecting?)
               else && seen' == seen && !seen.StatusPhase? && !after.StatusPhase? && after != Parameters(0)
                    && (after.Collecting? ==> seen.Collecting?) && (after.Parameters? ==> seen.Parameters?)
  {
    var s' := Take(s, env);
    TakeSeen(s, env);
    DrainBehind(s.base, s.queue);
    DrainForward(s.base, s.queue);
    DrainForward(s'.base, s'.queue);
  }

  lemma TakePicture(s: State, env: Environment)
    requires Live(s) && s.todo == [] && s.queue != []
    ensures Coherent(PictureOf(Take(s, env)), s.host, Take(s, env).history)
  {
    var s' := Take(s, env);
    TakeSeen(s, env);
    TakeViews(s, env);
    TakeHistory(s, env);
    EntrySettles(s.base, s.queue[0], s.m, env);
    RunKeepsCells(s'.todo, s.m);
    TakeCoherent(PictureOf(s), PictureOf(s'), s.host, s.history, s'.history, s.base, s'.base);
  }

  lemma TakeKeeps(s: State, env: Environment)
    requires Inv(s) && s.host.pc != Resetting && s.todo == [] && s.queue != []
    ensures Inv(Next(s, Worker(env)))
  {
    TakeSeen(s, env);
    TakePicture(s, env);
    EntrySettles(s.base, s.queue[0], s.m, env);
  }

  // ---------------------------------------------------------------- RESET

  lemma RunDeviceReset(l: Local, m: Machine)
    ensures Run([SetLocal(l)] + DeviceResetOps(l), m)
            == m.(bus := 0, status := 0, resetRequested := false, cells := m.cells.(c20 := 0, c30 := 0, data := 0),
                  local := l.(ndr := false, dmaEnabled := false, dataOut := 0, statusPending := false,
                              command := 0, target := 0, cdb := []))
  {
    var l' := l.(ndr := false, dmaEnabled := false, dataOut := 0, statusPending := false, command := 0,
                 target := 0, cdb := []);
    var a, b := [SetLocal(l), Bus(0xFF, 0)], [SetLocal(l'), ZeroStatus];
    assert [SetLocal(l)] + DeviceResetOps(l) == a + (b + ResetCells);
    DriveAll(m.bus);
    var m1 := m.(local := l, bus := 0);
    RunAppend(a, b + ResetCells, m);
    RunTwo(a[0], a[1], m);
    RunAppend(b, ResetCells, m1);
    RunTwo(b[0], b[1], m1);
    RunResetCells(m1.(local := l', status := 0));
  }

  /** The stores of a RESET entry leave an idle card behind, whatever they find. */
  lemma RunReset(m: Machine)
    ensures var r := Run(ControlWriteOps(m, DMA_RESET), m);
            && At(Free, r) && !r.resetRequested && r.status == 0
            && r.cells == m.cells.(c20 := 0, c30 := 0, data := 0)
            && r.local.control == DMA_RESET && !r.local.dmaEnabled
    ensures CheckReset !in ControlWriteOps(m, DMA_RESET)
  {
    RunDeviceReset(m.local.(control := DMA_RESET), m);
  }

  const ResetCells: seq<Op> := [ClearReset, Cell20(0xFF, 0), Cell30(0xFF, 0), CellData(0)]

  lemma RunResetCells(m: Machine)
    ensures Run(ResetCells, m) == m.(resetRequested := false, cells := m.cells.(c20 := 0, c30 := 0, data := 0))
  {
  }

  lemma DriveAll(bus: bv8)
    ensures Drive(bus, 0xFF, 0) == 0
  {
  }

  lemma ResetKeeps(s: State)
    requires Inv(s) && Enabled(s, HostReset)
    ensures Inv(Next(s, HostReset))
  {
  }

  /** From any state in which a RESET entry is last, taking entries leads towards recovery. */
  lemma TakeRecovers(s: State, env: Environment)
    requires Inv(s) && s.host.pc == Resetting && s.todo == [] && s.queue != []
    ensures Inv(Next(s, Worker(env)))
  {
    if |s.queue| == 1 {
      RunReset(s.m);
    }
  }

  lemma ResetOverKeeps(s: State)
    requires Inv(s) && Enabled(s, HostResetOver)
    ensures Inv(Next(s, HostResetOver))
  {
  }

  // ---------------------------------------------------------------- every run

  lemma PowerOnInv(limit: nat)
    requires limit <= MAX_CONTROL_WRITES
    ensures Inv(PowerOn(limit))
  {
  }

  lemma StepKeeps(s: State, step: Step)
    requires Inv(s) && Enabled(s, step)
    ensures Inv(Next(s, step))
  {
    match step
    case Poll =>
      if s.host.pc != Resetting {
        PollKeeps(s);
      }
    case HostControl(v) => ControlKeeps(s, v);
    case HostData(v) => DataKeeps(s, v);
    case HostPrefetch => PrefetchKeeps(s);
    case HostCommit => CommitKeeps(s);
    case HostReset => ResetKeeps(s);
    case HostResetOver => ResetOverKeeps(s);
    case Worker(env) =>
      if s.todo != [] {
        WorkKeeps(s, env);
      } else if s.host.pc == Resetting {
        TakeRecovers(s, env);
      } else {
        TakeKeeps(s, env);
      }
  }

  lemma {:induction false} RunKeeps(s: State, steps: seq<Step>)
    requires Inv(s) && Run?(s, steps)
    ensures Inv(Final(s, steps))
    decreases |steps|
  {
    if steps != [] {
      StepKeeps(s, steps[0]);
      RunKeeps(Next(s, steps[0]), steps[1..]);
    }
  }
}
