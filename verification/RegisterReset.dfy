/**
 * What a host that reads STATUS sees while a RESET drains.  The ISR shows bus free at once; the worker may
 * still be in the middle of an entry, or have entries in front of the RESET, and these can store a phase.
 */
module RegisterReset {
  import opened SasiBits
  import opened DeferWorker
  import opened RegisterIsr
  import opened RegisterProtocol
  import opened RegisterRest
  import opened RegisterSafety
  import opened RegisterAlias

  /** The entry in hand stores a phase before it next looks for a reset. */
  predicate EarlyStore(todo: seq<Op>)
    decreases |todo|
  {
    todo != [] && !todo[0].CheckReset? && (todo[0].Cell20? || EarlyStore(todo[1..]))
  }

  predicate TakesBytes(view: View) {
    view.Collecting? || view.Parameters?
  }

  /** A command or parameter byte waits in the queue. */
  predicate ByteQueued(view: View, queue: seq<Entry>)
    decreases |queue|
  {
    && queue != []
    && (|| (TakesBytes(view) && queue[0].WriteOf? && queue[0].reg == Data)
        || ByteQueued(NextView(view, queue[0]), queue[1..]))
  }

  /** Something ahead of a RESET will still store a phase. */
  predicate Disturbs(s: State) {
    EarlyStore(s.todo) || ByteQueued(s.base, s.queue)
  }

  // ---------------------------------------------------------------- handlers end in the status phase

  predicate EndsInStatus(todo: seq<Op>) {
    |todo| >= 3 && todo[|todo| - 3..] == Publish(ACK | MSG, BSY | REQ | CTL | INP)
  }

  /** A handler that still looks for a reset has its status phase to come. */
  predicate LooksThenEnds(todo: seq<Op>) {
    CheckReset in todo ==> EndsInStatus(todo)
  }

  lemma EndsAppend(a: seq<Op>, b: seq<Op>)
    requires EndsInStatus(b)
    ensures EndsInStatus(a + b)
  {
  }

  lemma StatusEnds(l: Local, v: bv8)
    ensures EndsInStatus(EnterStatus(l, v))
  {
  }

  lemma CommandEnds(cdb: seq<bv8>, l: Local, env: Environment)
    requires |cdb| >= 6
    ensures CheckReset in CommandOps(cdb, l, env) ==> EndsInStatus(CommandOps(cdb, l, env))
  {
    var verdict := HandlerVerdict(cdb, l.dmaEnabled, env);
    var work := Expand(HandlerWork(cdb, l.dmaEnabled, env));
    var l' := l.(cdb := []);
    if verdict.Complete? {
      StatusEnds(l', verdict.v);
      EndsAppend(work, EndOps(l', verdict));
      EndsAppend([SetLocal(l')], work + EndOps(l', verdict));
    } else {
      assert work == [];
    }
  }

  lemma TakeByteNoLook(m: Machine, v: bv8)
    ensures CheckReset !in TakeByteOps(m, v)
  {
  }

  lemma UseByteEnds(m: Machine, v: bv8, env: Environment)
    ensures LooksThenEnds(UseByteOps(m, v, env))
  {
    var l := Taken(m, v);
    var cdb := l.cdb + [v];
    if m.bus & (CTL | INP | MSG) == CTL && |cdb| >= 6 {
      CommandEnds(cdb, l, env);
      assert UseByteOps(m, v, env) == CommandOps(cdb, l, env);
    } else {
      assert CheckReset !in UseByteOps(m, v, env);
    }
  }

  lemma ProgramEnds(e: Entry, m: Machine, env: Environment)
    ensures LooksThenEnds(Program(e, m, env))
  {
    if e.WriteOf? && e.reg == Data {
      TakeByteNoLook(m, e.v);
      UseByteEnds(m, e.v, env);
      var take, use := TakeByteOps(m, e.v), UseByteOps(m, e.v, env);
      if CheckReset in take + use {
        EndsAppend(take, use);
      }
    } else {
      assert CheckReset !in Program(e, m, env);
    }
  }

  lemma {:induction false} RunLooksThenEnds(s: State, steps: seq<Step>)
    requires Run?(s, steps) && LooksThenEnds(s.todo)
    ensures LooksThenEnds(Final(s, steps).todo)
    decreases |steps|
  {
    if steps != [] {
      var s' := Next(s, steps[0]);
      if steps[0].Worker? && s.todo == [] {
        ProgramEnds(s.queue[0], s.m, steps[0].env);
      }
      assert LooksThenEnds(s'.todo);
      RunLooksThenEnds(s', steps[1..]);
    }
  }

  /** While a handler still looks for resets nothing is queued behind it. */
  lemma NothingBehindHandler(s: State)
    requires Live(s) && LooksThenEnds(s.todo) && CheckReset in s.todo
    ensures s.queue == []
  {
    var n := |s.todo| - 3;
    var end := Publish(ACK | MSG, BSY | REQ | CTL | INP);
    assert s.todo == s.todo[..n] + end;
    PendingEnd(s.todo[..n], end);
    RunAppend(s.todo[..n], end, s.m);
    RunPublish(ACK | MSG, BSY | REQ | CTL | INP, Run(s.todo[..n], s.m));
    StatusBits(Run(s.todo[..n], s.m).bus);
    assert PhaseOf(Seen(s)) == PHASE_STATUS;
    if s.queue != [] {
      DrainBehind(s.base, s.queue);
    }
  }

  lemma StatusBits(bus: bv8)
    ensures Phase(Drive(bus, ACK | MSG, BSY | REQ | CTL | INP)) == PHASE_STATUS
  {
  }

  lemma {:induction false} PendingEnd(a: seq<Op>, b: seq<Op>)
    requires b != [] && b[0].Cell20?
    ensures Pending20(a + b)
    decreases |a|
  {
    if a == [] {
      assert a + b == b;
    } else {
      assert (a + b)[1..] == a[1..] + b;
      PendingEnd(a[1..], b);
    }
  }

  // ---------------------------------------------------------------- a RESET nothing disturbs

  predicate WorkerOrPoll(steps: seq<Step>) {
    forall i :: 0 <= i < |steps| ==> steps[i].Worker? || steps[i].Poll?
  }

  lemma ExecFlagged(op: Op, a: Machine, b: Machine)
    requires b == a.(cells := b.cells, resetRequested := b.resetRequested) && !op.ClearReset?
    ensures var r, q := Exec(op, a), Exec(op, b); q == r.(cells := q.cells, resetRequested := b.resetRequested)
  {
    match op
    case SetLocal(_) =>
    case Bus(_, _) =>
    case PostStatus(_) =>
    case _ =>
  }

  /** What a RESET request does not change of a run of stores. */
  lemma {:induction false} RunFlagged(ops: seq<Op>, a: Machine, b: Machine)
    requires b == a.(cells := b.cells, resetRequested := b.resetRequested) && ClearReset !in ops
    ensures var r, q := Run(ops, a), Run(ops, b); q == r.(cells := q.cells, resetRequested := b.resetRequested)
    decreases |ops|
  {
    if ops != [] {
      assert ops[0] in ops;
      ExecFlagged(ops[0], a, b);
      RunFlagged(ops[1..], Exec(ops[0], a), Exec(ops[0], b));
    }
  }

  lemma {:induction false} OrderlyNoClear(ops: seq<Op>)
    requires Orderly(ops)
    ensures ClearReset !in ops
    decreases |ops|
  {
    if ops != [] {
      OrderlyNoClear(ops[1..]);
    }
  }

  lemma {:induction false} EarlyIsPending(ops: seq<Op>)
    ensures EarlyStore(ops) ==> Pending20(ops)
    ensures CheckReset !in ops && Pending20(ops) ==> EarlyStore(ops)
    decreases |ops|
  {
    if ops != [] {
      EarlyIsPending(ops[1..]);
    }
  }

  /** What is queued in front of the RESET. */
  function Ahead(s: State): seq<Entry>
    requires s.queue != []
  {
    s.queue[..|s.queue| - 1]
  }

  /** The worker on its way to the RESET: no phase to be stored, and entries only from known resting points. */
  predicate Approaching(s: State) {
    && s.queue != [] && s.queue[|s.queue| - 1] == WriteOf(Control, DMA_RESET)
    && s.m.resetRequested && ClearReset !in s.todo && !EarlyStore(s.todo)
    && (Ahead(s) != [] ==>
          && CheckReset !in s.todo && At(s.base, Rested(s))
          && !ByteQueued(s.base, Ahead(s)) && !Drain(s.base, Ahead(s)).Confused?)
  }

  predicate Clears(op: Op) {
    op.Cell20? ==> op == Cell20(0xFF, 0)
  }

  /** The RESET itself under way, or done. */
  predicate Clearing(s: State) {
    s.queue == [] && forall op | op in s.todo :: Clears(op)
  }

  predicate Undisturbed(s: State) {
    s.host.pc == Resetting && s.m.cells.c20 == PHASE_FREE && (Approaching(s) || Clearing(s))
  }

  lemma CalmEntry(view: View, e: Entry, m: Machine, env: Environment)
    requires At(view, m) && !NextView(view, e).Confused?
    requires !(TakesBytes(view) && e.WriteOf? && e.reg == Data)
    ensures var ops := Program(e, m, env);
            && CheckReset !in ops && ClearReset !in ops && !EarlyStore(ops)
            && After(view, e, m, env) == NextView(view, e) && At(NextView(view, e), Run(ops, m))
  {
    var ops := Program(e, m, env);
    EntrySettles(view, e, m, env);
    OrderlyNoClear(ops);
    EarlyIsPending(ops);
  }

  lemma ResetClears(m: Machine)
    ensures forall op | op in ControlWriteOps(m, DMA_RESET) :: Clears(op)
  {
  }

  lemma ApproachingTake(s: State, env: Environment)
    requires Undisturbed(s) && Approaching(s) && s.todo == []
    ensures Undisturbed(Take(s, env))
  {
    var e, s' := s.queue[0], Take(s, env);
    if Ahead(s) == [] {
      ResetClears(s.m);
    } else {
      var ahead := Ahead(s);
      assert ahead[0] == e && Ahead(s') == ahead[1..];
      DrainForward(NextView(s.base, e), ahead[1..]);
      CalmEntry(s.base, e, s.m, env);
    }
  }

  lemma UndisturbedStep(s: State, step: Step)
    requires Undisturbed(s) && Enabled(s, step) && (step.Worker? || step.Poll?)
    ensures Undisturbed(Next(s, step))
  {
    if step.Worker? && s.todo != [] {
      assert s.todo[0] in s.todo;
      DriveAll(s.m.bus);
    } else if step.Worker? {
      ApproachingTake(s, step.env);
    }
  }

  lemma {:induction false} UndisturbedRun(s: State, steps: seq<Step>)
    requires Undisturbed(s) && Run?(s, steps) && WorkerOrPoll(steps)
    ensures Undisturbed(Final(s, steps))
    decreases |steps|
  {
    if steps != [] {
      UndisturbedStep(s, steps[0]);
      UndisturbedRun(Next(s, steps[0]), steps[1..]);
    }
  }

  /** What the host's RESET leaves for the worker. */
  lemma AfterReset(s: State)
    requires Inv(s) && s.host.pc != Resetting
    ensures var s' := Next(s, HostReset);
            && s'.host.pc == Resetting && s'.todo == s.todo && s'.base == s.base
            && s'.queue == s.queue + [WriteOf(Control, DMA_RESET)] && Ahead(s') == s.queue
            && s'.m == s.m.(cells := s'.m.cells, resetRequested := true) && s'.m.cells.c20 == PHASE_FREE
  {
    assert Backlog(s.host) < DEFER_QUEUE_SIZE - 2;
  }

  lemma AtFlagged(s: State, m: Machine)
    requires Live(s) && m == s.m.(cells := m.cells, resetRequested := m.resetRequested)
    ensures ClearReset !in s.todo && At(s.base, Run(s.todo, m)) && !Seen(s).Confused?
  {
    OrderlyNoClear(s.todo);
    RunFlagged(s.todo, s.m, m);
  }

  lemma ResetUndisturbed(s: State)
    requires Inv(s) && s.host.pc != Resetting && LooksThenEnds(s.todo) && !Disturbs(s)
    ensures Undisturbed(Next(s, HostReset))
  {
    AfterReset(s);
    AtFlagged(s, Next(s, HostReset).m);
    if CheckReset in s.todo {
      NothingBehindHandler(s);
    }
  }

  // ---------------------------------------------------------------- a RESET that is disturbed

  /** Every phase these stores show is another one than bus free. */
  predicate Visible(ops: seq<Op>, m: Machine)
    decreases |ops|
  {
    ops == [] || ((ops[0].Cell20? ==> Phase(Drive(m.bus, ops[0].clear, ops[0].put)) != PHASE_FREE)
                  && Visible(ops[1..], Exec(ops[0], m)))
  }

  predicate ShowsBusy(op: Op) {
    op.Cell20? ==> op.put & BSY != 0
  }

  lemma BusyPhase(bus: bv8, clear: bv8, put: bv8)
    requires put & BSY != 0
    ensures Phase(Drive(bus, clear, put)) != PHASE_FREE
  {
  }

  lemma {:induction false} BusyVisible(ops: seq<Op>, m: Machine)
    requires forall op | op in ops :: ShowsBusy(op)
    ensures Visible(ops, m)
    decreases |ops|
  {
    if ops != [] {
      assert ShowsBusy(ops[0]);
      if ops[0].Cell20? {
        BusyPhase(m.bus, ops[0].clear, ops[0].put);
      }
      BusyVisible(ops[1..], Exec(ops[0], m));
    }
  }

  lemma {:induction false} VisibleAppend(a: seq<Op>, b: seq<Op>, m: Machine)
    requires Visible(a, m) && Visible(b, Run(a, m))
    ensures Visible(a + b, m)
    decreases |a|
  {
    if a == [] {
      assert a + b == b;
    } else {
      assert (a + b)[1..] == a[1..] + b;
      VisibleAppend(a[1..], b, Exec(a[0], m));
    }
  }

  lemma {:induction false} ExpandBusy(ws: seq<Work>)
    requires forall w | w in ws :: w.Show? ==> w.put & BSY != 0
    ensures forall op | op in Expand(ws) :: ShowsBusy(op)
    decreases |ws|
  {
    if ws != [] {
      assert ws[0] in ws;
      ExpandBusy(ws[1..]);
    }
  }

  lemma {:induction false} SectorWorkBusy(env: Environment, reading: bool, i: nat, blocks: nat)
    ensures forall w | w in SectorWork(env, reading, i, blocks) :: w.Show? ==> w.put & BSY != 0
    decreases blocks - i
  {
    if i < blocks {
      SectorWorkBusy(env, reading, i + 1, blocks);
    }
  }

  lemma CommandBusyOps(cdb: seq<bv8>, l: Local, env: Environment)
    requires |cdb| >= 6
    ensures forall op | op in CommandOps(cdb, l, env) :: ShowsBusy(op)
  {
    HandlerBusy(cdb, l.dmaEnabled, env);
    ExpandBusy(HandlerWork(cdb, l.dmaEnabled, env));
    EndBusy(l.(cdb := []), HandlerVerdict(cdb, l.dmaEnabled, env));
  }

  lemma HandlerBusy(cdb: seq<bv8>, dmaEnabled: bool, env: Environment)
    requires |cdb| >= 6
    ensures forall w | w in HandlerWork(cdb, dmaEnabled, env) :: w.Show? ==> w.put & BSY != 0
  {
    SectorWorkBusy(env, cdb[0] == 0x08, 0, Blocks(cdb));
  }

  lemma EndBusy(l: Local, verdict: Verdict)
    ensures forall op | op in EndOps(l, verdict) :: ShowsBusy(op)
  {
  }

  lemma UseByteBusy(m: Machine, v: bv8, env: Environment)
    ensures forall op | op in UseByteOps(m, v, env) :: ShowsBusy(op)
  {
    var l := Taken(m, v);
    if |l.cdb| + 1 >= 6 {
      CommandBusyOps(l.cdb + [v], l, env);
    }
  }

  lemma {:induction false} QuietVisible(ops: seq<Op>, m: Machine)
    requires !Pending20(ops)
    ensures Visible(ops, m)
    decreases |ops|
  {
    if ops != [] {
      QuietVisible(ops[1..], Exec(ops[0], m));
    }
  }

  lemma {:induction false} EarlyAppend(a: seq<Op>, b: seq<Op>)
    requires EarlyStore(a)
    ensures EarlyStore(a + b)
    decreases |a|
  {
    assert (a + b)[1..] == a[1..] + b;
    if !a[0].Cell20? {
      EarlyAppend(a[1..], b);
    }
  }

  /** A byte the worker waits for is acknowledged at once, and the phase shown for it is not bus free. */
  lemma ByteShows(view: View, v: bv8, m: Machine)
    requires At(view, m) && TakesBytes(view)
    ensures EarlyStore(TakeByteOps(m, v)) && Visible(TakeByteOps(m, v), m)
  {
    var l := m.local.(command := v);
    var first, rest := SetLocal(l), [SetLocal(l.(ndr := false))] + Publish(REQ, ACK);
    assert TakeByteOps(m, v) == [first] + rest;
    assert ([first] + rest)[1..] == rest && rest[1..] == Publish(REQ, ACK);
    assert Publish(REQ, ACK)[1..] == [Cell30(REQ, ACK), Bus(REQ, ACK)];
    assert Phase(Drive(BSY | REQ | CTL, REQ, ACK)) != PHASE_FREE && Phase(Drive(BSY | REQ, REQ, ACK)) != PHASE_FREE;
    var tail := [Cell30(REQ, ACK), Bus(REQ, ACK)];
    assert tail[1..] == [Bus(REQ, ACK)] && tail[1..][1..] == [];
    assert !Pending20(tail[1..][1..]) && !Pending20(tail[1..]) && !Pending20(tail);
    QuietVisible(tail, Exec(Cell20(REQ, ACK), Exec(rest[0], Exec(first, m))));
  }

  lemma ByteEntry(view: View, v: bv8, m: Machine, env: Environment)
    requires At(view, m) && TakesBytes(view)
    ensures EarlyStore(DataWriteOps(m, v, env)) && Visible(DataWriteOps(m, v, env), m)
  {
    var take, use := TakeByteOps(m, v), UseByteOps(m, v, env);
    ByteShows(view, v, m);
    UseByteBusy(m, v, env);
    BusyVisible(use, Run(take, m));
    EarlyAppend(take, use);
    VisibleAppend(take, use, m);
  }

  lemma EntryVisible(view: View, e: Entry, m: Machine, env: Environment)
    requires At(view, m) && !NextView(view, e).Confused?
    ensures Visible(Program(e, m, env), m)
  {
    if TakesBytes(view) && e.WriteOf? && e.reg == Data {
      ByteEntry(view, e.v, m, env);
    } else {
      EntrySettles(view, e, m, env);
      QuietVisible(Program(e, m, env), m);
    }
  }

  lemma {:induction false} VisibleFlagged(ops: seq<Op>, a: Machine, b: Machine)
    requires b == a.(cells := b.cells, resetRequested := b.resetRequested) && Visible(ops, a)
    ensures Visible(ops, b)
    decreases |ops|
  {
    if ops != [] {
      if !ops[0].ClearReset? {
        ExecFlagged(ops[0], a, b);
      }
      VisibleFlagged(ops[1..], Exec(ops[0], a), Exec(ops[0], b));
    }
  }

  predicate VisibleInHand(s: State) {
    s.host.pc != Resetting ==> Visible(s.todo, s.m)
  }

  lemma TakeVisible(s: State, env: Environment)
    requires Live(s) && s.todo == [] && s.queue != []
    ensures Visible(Take(s, env).todo, s.m)
  {
    TakeSeen(s, env);
    EntryVisible(s.base, s.queue[0], s.m, env);
  }

  lemma ProceedVisible(s: State)
    requires s.todo != [] && Visible(s.todo, s.m)
    ensures Visible(Proceed(s).todo, Proceed(s).m)
  {
  }

  /** What a step of the host leaves of the worker's state. */
  lemma HostStepAside(s: State, step: Step)
    requires Enabled(s, step) && !step.Worker? && !step.HostResetOver?
    ensures var s' := Next(s, step);
            s'.todo == s.todo && s'.m == s.m.(cells := s'.m.cells, resetRequested := s'.m.resetRequested)
  {
  }

  lemma StaysResetting(s: State, step: Step)
    requires Enabled(s, step) && s.host.pc == Resetting && !step.HostResetOver?
    ensures Next(s, step).host.pc == Resetting
  {
  }

  lemma StepVisible(s: State, step: Step)
    requires Inv(s) && Enabled(s, step) && VisibleInHand(s)
    ensures VisibleInHand(Next(s, step))
  {
    if step.HostResetOver? {
      assert Next(s, step).todo == [];
    } else if s.host.pc == Resetting {
      StaysResetting(s, step);
    } else if !step.Worker? {
      HostStepAside(s, step);
      VisibleFlagged(s.todo, s.m, Next(s, step).m);
    } else if s.todo == [] {
      TakeVisible(s, step.env);
    } else {
      ProceedVisible(s);
    }
  }

  lemma {:induction false} RunVisible(s: State, steps: seq<Step>)
    requires Inv(s) && Run?(s, steps) && VisibleInHand(s)
    ensures VisibleInHand(Final(s, steps))
    decreases |steps|
  {
    if steps != [] {
      StepKeeps(s, steps[0]);
      StepVisible(s, steps[0]);
      RunVisible(Next(s, steps[0]), steps[1..]);
    }
  }

  /** The worker's next phase store, if it comes before it looks for a reset. */
  lemma {:induction false} ShowStore(s: State, env: Environment) returns (more: seq<Step>)
    requires EarlyStore(s.todo) && Visible(s.todo, s.m)
    ensures Run?(s, more) && WorkerOrPoll(more) && Final(s, more).m.cells.c20 != PHASE_FREE
    decreases |s.todo|
  {
    var s' := Next(s, Worker(env));
    var rest: seq<Step> := [];
    if !s.todo[0].Cell20? {
      rest := ShowStore(s', env);
    }
    more := [Worker(env)] + rest;
    assert more[1..] == rest;
  }

  /** The worker up to the first byte that waits in front of the RESET. */
  lemma {:induction false} FindByte(s: State, env: Environment) returns (more: seq<Step>)
    requires s.host.pc == Resetting && s.queue != [] && CheckReset !in s.todo && At(s.base, Rested(s))
    requires ByteQueued(s.base, Ahead(s)) && !Drain(s.base, Ahead(s)).Confused?
    ensures Run?(s, more) && WorkerOrPoll(more) && Final(s, more).m.cells.c20 != PHASE_FREE
    decreases |s.queue|, |s.todo|
  {
    var s' := Next(s, Worker(env));
    var rest: seq<Step>;
    if s.todo != [] {
      assert s.todo[0] in s.todo;
      rest := FindByte(s', env);
    } else {
      var e, ahead := s.queue[0], Ahead(s);
      assert ahead[0] == e;
      if TakesBytes(s.base) && e.WriteOf? && e.reg == Data {
        ByteEntry(s.base, e.v, s.m, env);
        rest := ShowStore(s', env);
      } else {
        assert Ahead(s') == ahead[1..];
        DrainForward(NextView(s.base, e), ahead[1..]);
        CalmEntry(s.base, e, s.m, env);
        rest := FindByte(s', env);
      }
    }
    more := [Worker(env)] + rest;
    assert more[1..] == rest;
  }

  lemma ResetDisturbed(s: State, env: Environment) returns (more: seq<Step>)
    requires Inv(s) && s.host.pc != Resetting && LooksThenEnds(s.todo) && Visible(s.todo, s.m) && Disturbs(s)
    ensures var s' := Next(s, HostReset);
            Run?(s', more) && WorkerOrPoll(more) && Final(s', more).m.cells.c20 != PHASE_FREE
  {
    var s' := Next(s, HostReset);
    AfterReset(s);
    if EarlyStore(s.todo) {
      VisibleFlagged(s.todo, s.m, s'.m);
      more := ShowStore(s', env);
    } else {
      if CheckReset in s.todo {
        NothingBehindHandler(s);
      }
      AtFlagged(s, s'.m);
      more := FindByte(s', env);
    }
  }

  // ---------------------------------------------------------------- what the host sees

  ghost predicate StaysFree(s: State) {
    forall more | Run?(s, more) && WorkerOrPoll(more) :: Final(s, more).m.cells.c20 == PHASE_FREE
  }

  /**
   * A RESET shows bus free at once, in every reachable state.  It goes on showing it until it has drained
   * exactly if no entry in hand has a phase to store before it next looks for a reset and no command or
   * parameter byte waits in front of it.
   */
  lemma ResetSeenIff(limit: nat, steps: seq<Step>)
    requires limit <= MAX_CONTROL_WRITES && Run?(PowerOn(limit), steps)
    requires Final(PowerOn(limit), steps).host.pc != Resetting
    ensures var s := Final(PowerOn(limit), steps);
            && Next(s, HostReset).m.cells.c20 == PHASE_FREE
            && (StaysFree(Next(s, HostReset)) <==> !Disturbs(s))
  {
    var s := Final(PowerOn(limit), steps);
    var s' := Next(s, HostReset);
    PowerOnInv(limit);
    RunKeeps(PowerOn(limit), steps);
    RunLooksThenEnds(PowerOn(limit), steps);
    RunVisible(PowerOn(limit), steps);
    if Disturbs(s) {
      var more := ResetDisturbed(s, Environment([], true, true));
    } else {
      ResetUndisturbed(s);
      forall more | Run?(s', more) && WorkerOrPoll(more)
        ensures Final(s', more).m.cells.c20 == PHASE_FREE
      {
        UndisturbedRun(s', more);
      }
    }
  }

  lemma {:induction false} QueuedByteIsSeen(view: View, queue: seq<Entry>)
    requires ByteQueued(view, queue)
    ensures var v := Drain(view, queue); TakesBytes(v) || v.Confused?
    decreases |queue|
  {
    if TakesBytes(view) {
      DrainForward(view, queue);
    } else {
      QueuedByteIsSeen(NextView(view, queue[0]), queue[1..]);
    }
  }

  lemma NotWaitingCalm(s: State)
    requires Live(s) && !Waiting(s.host.pc)
    ensures !Pending20(s.todo) && !TakesBytes(Seen(s)) && !Seen(s).Confused?
  {
  }

  /** A host that is not waiting for the worker can reset the card undisturbed. */
  lemma OnlyWaitingIsDisturbed(limit: nat, steps: seq<Step>)
    requires limit <= MAX_CONTROL_WRITES && Run?(PowerOn(limit), steps)
    requires var s := Final(PowerOn(limit), steps); s.host.pc != Resetting && !Waiting(s.host.pc)
    ensures !Disturbs(Final(PowerOn(limit), steps))
  {
    PowerOnInv(limit);
    RunKeeps(PowerOn(limit), steps);
    var s := Final(PowerOn(limit), steps);
    NotWaitingCalm(s);
    EarlyIsPending(s.todo);
    if ByteQueued(s.base, s.queue) {
      QueuedByteIsSeen(s.base, s.queue);
    }
  }

  /** A byte the worker has not seen yet is queued. */
  lemma {:induction false} UnseenByteQueued(view: View, queue: seq<Entry>)
    requires !view.Parameters? && Drain(view, queue).Collecting?
    requires |Drain(view, queue).bytes| > if view.Collecting? then |view.bytes| else 0
    ensures ByteQueued(view, queue)
    decreases |queue|
  {
    if !(view.Collecting? && queue[0].WriteOf? && queue[0].reg == Data) {
      DrainForward(NextView(view, queue[0]), queue[1..]);
      UnseenByteQueued(NextView(view, queue[0]), queue[1..]);
    }
  }

  /** The host has sent its first command byte and the worker has not run yet. */
  lemma ByteAhead() returns (t: State)
    ensures Reachable(t) && Inv(t) && t.host.pc != Resetting && t.todo == [] && Disturbs(t)
  {
    t := SelectAhead();
    t := Go(t, Poll);
    t := Go(t, HostData(0));
    ReachableInv(t);
    assert t.host.pc == AwaitCommand && Seen(t) == Collecting(ExtractTarget(t.host.selection), t.host.sent);
    UnseenByteQueued(t.base, t.queue);
  }

  /**
   * It does happen: a host resets the card when its first command byte is still queued.  The worker then
   * acknowledges that byte, and STATUS shows a busy bus after it had shown it free.
   */
  lemma ResetCanBeUndone() returns (s: State, more: seq<Step>)
    ensures Reachable(s) && s.host.pc == Resetting && s.m.cells.c20 == PHASE_FREE
    ensures Run?(s, more) && WorkerOrPoll(more) && Final(s, more).m.cells.c20 != PHASE_FREE
  {
    var t := ByteAhead();
    AfterReset(t);
    more := ResetDisturbed(t, Environment([], true, true));
    s := Go(t, HostReset);
  }
}
