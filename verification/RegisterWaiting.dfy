/**
 * A host can go by where it stands in its own program: the points at which it waits for the worker are
 * exactly those at which a RESET can be disturbed.
 */
module RegisterWaiting {
  import opened SasiBits
  import opened DeferWorker
  import opened RegisterProtocol
  import opened RegisterRest
  import opened RegisterSafety
  import opened RegisterTheorems
  import opened RegisterAlias
  import opened RegisterReset

  ghost predicate CanBeDisturbed(pc: HostPc) {
    exists limit: nat, steps: seq<Step> ::
      limit <= MAX_CONTROL_WRITES && Run?(PowerOn(limit), steps)
      && Final(PowerOn(limit), steps).host.pc == pc && Disturbs(Final(PowerOn(limit), steps))
  }

  lemma Shown(s: State)
    requires Reachable(s) && Disturbs(s)
    ensures CanBeDisturbed(s.host.pc)
  {
    var steps: seq<Step> :| Run?(PowerOn(0), steps) && Final(PowerOn(0), steps) == s;
  }

  // ---------------------------------------------------------------- DMA stays switched off

  /** No store in hand and no entry queued turns DMA on, so that command 0x0C will ask for parameters. */
  predicate DmaOff(s: State) {
    && !s.m.local.dmaEnabled
    && (forall op | op in s.todo :: op.SetLocal? ==> !op.local.dmaEnabled)
    && (forall e | e in s.queue :: LeavesDmaOff(e))
  }

  predicate LeavesDmaOff(e: Entry) {
    e.WriteOf? && e.reg == Control ==> e.v & DMA_ON_LATCH == 0
  }

  lemma {:induction false} ExpandSetsNothing(ws: seq<Work>)
    ensures forall op | op in Expand(ws) :: !op.SetLocal?
    decreases |ws|
  {
    if ws != [] {
      ExpandSetsNothing(ws[1..]);
    }
  }

  lemma UseByteOff(m: Machine, v: bv8, env: Environment)
    requires !m.local.dmaEnabled
    ensures forall op | op in UseByteOps(m, v, env) :: op.SetLocal? ==> !op.local.dmaEnabled
  {
    var l := Taken(m, v);
    if |l.cdb| + 1 >= 6 {
      ExpandSetsNothing(HandlerWork(l.cdb + [v], l.dmaEnabled, env));
    }
  }

  lemma ProgramOff(e: Entry, m: Machine, env: Environment)
    requires !m.local.dmaEnabled && LeavesDmaOff(e)
    ensures forall op | op in Program(e, m, env) :: op.SetLocal? ==> !op.local.dmaEnabled
  {
    if e.WriteOf? && e.reg == Data {
      UseByteOff(m, e.v, env);
    }
  }

  lemma WorkerOff(s: State, env: Environment)
    requires DmaOff(s) && Enabled(s, Worker(env))
    ensures DmaOff(Next(s, Worker(env)))
  {
    if s.todo == [] {
      ProgramOff(s.queue[0], s.m, env);
    } else {
      assert s.todo[0] in s.todo;
    }
  }

  lemma Work(s: State, env: Environment) returns (t: State)
    requires Reachable(s) && DmaOff(s) && Enabled(s, Worker(env))
    ensures t == Next(s, Worker(env)) && Reachable(t) && DmaOff(t)
  {
    t := Go(s, Worker(env));
    WorkerOff(s, env);
  }

  // ---------------------------------------------------------------- bytes sent ahead of the worker

  /** The host is ahead of a worker that has not run yet, with at least one command byte sent. */
  predicate SentAhead(s: State) {
    && s.base == Free && s.todo == []
    && s.host.pc in {AwaitCommand, HaveCommand, AwaitResult} && s.host.sent != []
  }

  lemma AheadDisturbs(s: State)
    requires Reachable(s) && SentAhead(s)
    ensures Disturbs(s) && Seen(s).Collecting?
  {
    ReachableInv(s);
    if s.queue != [] {
      DrainBehind(s.base, s.queue);
    }
    UnseenByteQueued(s.base, s.queue);
  }

  /** The command that asks for eight parameter bytes when DMA is off. */
  function AskingByte(i: nat): bv8 {
    if i == 0 then 0x0C else 0
  }

  predicate Asking(sent: seq<bv8>) {
    forall i | 0 <= i < |sent| :: sent[i] == AskingByte(i)
  }

  lemma {:induction false} SendAsking(s: State) returns (t: State)
    requires Reachable(s) && DmaOff(s) && s.host.pc == AwaitCommand && s.base == Free && s.todo == []
    requires |s.host.sent| < 6 && Asking(s.host.sent) && s.m.cells.c20 == PHASE_COMMAND
    ensures Reachable(t) && DmaOff(t) && t.host.pc == AwaitResult && SentAhead(t) && Asking(t.host.sent)
    decreases 6 - |s.host.sent|
  {
    t := Go(s, Poll);
    t := Go(t, HostData(AskingByte(|s.host.sent|)));
    if t.host.pc == AwaitCommand {
      t := SendAsking(t);
    }
  }

  lemma FirstByteAhead() returns (t: State)
    ensures Reachable(t) && DmaOff(t) && SentAhead(t) && t.host.pc == AwaitCommand
    ensures t.host.sent == [AskingByte(0)] && t.m.cells.c20 == PHASE_COMMAND
  {
    t := SelectAhead();
    t := Go(t, Poll);
    t := Go(t, HostData(AskingByte(0)));
  }

  lemma CommandPointsDisturbed() returns (t: State)
    ensures CanBeDisturbed(AwaitCommand) && CanBeDisturbed(HaveCommand) && CanBeDisturbed(AwaitResult)
    ensures Reachable(t) && DmaOff(t) && Asked(t)
  {
    var s := FirstByteAhead();
    AheadDisturbs(s);
    Shown(s);
    t := Go(s, Poll);
    AheadDisturbs(t);
    Shown(t);
    t := SendAsking(s);
    AheadDisturbs(t);
    Shown(t);
  }

  // ---------------------------------------------------------------- parameter bytes

  /** The command has been sent, and the worker has yet to dispatch it or has just asked for the parameters. */
  predicate Asked(s: State) {
    && s.host.pc == AwaitResult && Asking(s.host.sent)
    && (Seen(s).Collecting? || s.base == Parameters(0))
  }

  lemma TakeAsked(s: State, env: Environment)
    requires Live(s) && DmaOff(s) && Asked(s) && s.todo == [] && s.queue != []
    ensures Asked(Take(s, env))
  {
    TakeSeen(s, env);
    DrainBehind(s.base, s.queue);
  }

  lemma ProceedAsked(s: State)
    requires Asked(s) && s.todo != []
    ensures Asked(Proceed(s))
  {
    assert Seen(Proceed(s)) == Seen(s);
  }

  lemma WorkAsked(s: State, env: Environment)
    requires Inv(s) && DmaOff(s) && Asked(s) && Enabled(s, Worker(env))
    ensures Asked(Next(s, Worker(env)))
  {
    if s.todo == [] {
      TakeAsked(s, env);
    } else {
      ProceedAsked(s);
    }
  }

  lemma {:induction false} CatchUpAsked(s: State, env: Environment) returns (t: State)
    requires Reachable(s) && DmaOff(s) && Asked(s)
    ensures Reachable(t) && Quiescent(t) && t.host.pc == AwaitResult && t.base == Parameters(0)
    decreases |s.queue|, |s.todo|
  {
    ReachableInv(s);
    if Quiescent(s) {
      t := s;
    } else {
      WorkAsked(s, env);
      t := Work(s, env);
      t := CatchUpAsked(t, env);
    }
  }

  /** Parameter bytes queued in front of a worker that waits for the first. */
  predicate SentParameters(s: State) {
    s.base == Parameters(0) && s.todo == [] && s.queue != [] && s.queue[0].WriteOf? && s.queue[0].reg == Data
  }

  /** The host sees the request and sends its first parameter byte. */
  lemma FirstParameter(s: State) returns (t: State)
    requires Reachable(s) && Quiescent(s) && s.host.pc == AwaitResult && s.base == Parameters(0)
    ensures Reachable(t) && SentParameters(t) && t.host.pc == AwaitParameters
  {
    ReachableInv(s);
    t := Go(s, Poll);
    t := Go(t, HostData(0));
  }

  lemma SeesParameters(s: State) returns (t: State)
    requires Reachable(s) && SentParameters(s) && s.host.pc == AwaitParameters
    ensures Reachable(t) && SentParameters(t) && t.host == s.host.(pc := HaveParameters)
  {
    ReachableInv(s);
    t := Go(s, Poll);
  }

  lemma {:induction false} SendParameters(s: State) returns (t: State)
    requires Reachable(s) && SentParameters(s) && s.host.pc == AwaitParameters
    ensures Reachable(t) && SentParameters(t) && t.host.pc == AwaitStatus
    decreases 8 - s.host.parameters
  {
    t := SeesParameters(s);
    t := Go(t, HostData(0));
    if t.host.pc == AwaitParameters {
      ReachableInv(t);
      t := SendParameters(t);
    }
  }

  lemma ParameterPointsDisturbed(s: State)
    requires Reachable(s) && SentParameters(s) && s.host.pc == AwaitParameters
    ensures CanBeDisturbed(AwaitParameters) && CanBeDisturbed(HaveParameters) && CanBeDisturbed(AwaitStatus)
  {
    Shown(s);
    var t := SeesParameters(s);
    Shown(t);
    t := SendParameters(s);
    Shown(t);
  }

  /**
   * Wherever in its program the host may issue a RESET, some run lets an entry in hand or a queued byte
   * disturb it exactly if the host is waiting for the worker there.
   */
  lemma DisturbedIffWaiting(pc: HostPc)
    requires pc != Resetting
    ensures CanBeDisturbed(pc) <==> Waiting(pc)
  {
    var s := CommandPointsDisturbed();
    s := CatchUpAsked(s, Environment([], true, true));
    s := FirstParameter(s);
    ParameterPointsDisturbed(s);
    if CanBeDisturbed(pc) && !Waiting(pc) {
      var limit: nat, steps: seq<Step> :|
        limit <= MAX_CONTROL_WRITES && Run?(PowerOn(limit), steps)
        && Final(PowerOn(limit), steps).host.pc == pc && Disturbs(Final(PowerOn(limit), steps));
      OnlyWaitingIsDisturbed(limit, steps);
    }
  }
}
