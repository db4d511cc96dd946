/** What the register window promises over every run that starts at power-on. */
module RegisterTheorems {
  import opened SasiBits
  import opened DeferWorker
  import opened RegisterIsr
  import opened RegisterProtocol
  import opened RegisterSafety

  predicate Quiescent(s: State) {
    s.queue == [] && s.todo == []
  }

  /**
   * A worker store to the STATUS cell happens only while the host waits for the worker, and only once the
   * worker has processed the entry behind the ISR's last advance.  In every other host state the cell
   * shows the phase the bus word will have when the queue has drained.
   */
  lemma WorkerNeverUndoesIsr(limit: nat, steps: seq<Step>, env: Environment)
    requires limit <= MAX_CONTROL_WRITES && Run?(PowerOn(limit), steps)
    requires Final(PowerOn(limit), steps).host.pc != Resetting
    ensures var s := Final(PowerOn(limit), steps);
            && (Enabled(s, Worker(env)) && Next(s, Worker(env)).m.cells.c20 != s.m.cells.c20 ==>
                  Waiting(s.host.pc) && Working(s.base))
            && (!Waiting(s.host.pc) ==> s.m.cells.c20 == PhaseOf(Seen(s)))
  {
    PowerOnInv(limit);
    RunKeeps(PowerOn(limit), steps);
    WorkerWaitsForHost(Final(PowerOn(limit), steps), env);
  }

  lemma WorkerWaitsForHost(s: State, env: Environment)
    requires Inv(s) && s.host.pc != Resetting
    ensures Enabled(s, Worker(env)) && Next(s, Worker(env)).m.cells.c20 != s.m.cells.c20 ==>
              Waiting(s.host.pc) && Working(s.base)
    ensures !Waiting(s.host.pc) ==> s.m.cells.c20 == PhaseOf(Seen(s))
  {
  }

  /**
   * With nothing queued and no entry in hand the cache and the bus agree, CONTROL included; after a RESET
   * the alias does so as well.
   */
  lemma QuiescentCacheIsBus(limit: nat, steps: seq<Step>)
    requires limit <= MAX_CONTROL_WRITES && Run?(PowerOn(limit), steps)
    requires Quiescent(Final(PowerOn(limit), steps))
    ensures var s := Final(PowerOn(limit), steps);
            && s.m.cells.c20 == Phase(s.m.bus)
            && s.m.cells.control == s.m.local.control
            && (s.m.cells.c30 == s.m.cells.c20 <==> s.host.pc == Resetting || !s.torn)
  {
    PowerOnInv(limit);
    RunKeeps(PowerOn(limit), steps);
    var s := Final(PowerOn(limit), steps);
    assert Rested(s) == s.m && Seen(s) == s.base;
  }

  /**
   * Whenever the host is between commands it has read, for every command it issued, the status byte
   * that command's handler posted and one 0x00 message, in order, and every command reached its handler
   * with the target and the six bytes the host sent.
   */
  lemma EveryCommandAnswered(limit: nat, steps: seq<Step>)
    requires limit <= MAX_CONTROL_WRITES && Run?(PowerOn(limit), steps)
    requires Final(PowerOn(limit), steps).host.pc == Config
    ensures var s := Final(PowerOn(limit), steps);
            && s.history.statuses == s.m.posted
            && |s.history.messages| == |s.history.statuses| == |s.history.issued|
            && (forall byte | byte in s.history.messages :: byte == 0)
            && s.history.dispatched == s.history.issued
            && s.m.cells.c20 == PHASE_FREE
  {
    PowerOnInv(limit);
    RunKeeps(PowerOn(limit), steps);
    var s := Final(PowerOn(limit), steps);
    RunPosted(s.todo, s.m);
  }

  /** The status byte read in the middle of a command is the one its handler has just posted. */
  lemma StatusByteIsPosted(limit: nat, steps: seq<Step>)
    requires limit <= MAX_CONTROL_WRITES && Run?(PowerOn(limit), steps)
    requires Final(PowerOn(limit), steps).host.pc == HaveStatus
    ensures var s := Final(PowerOn(limit), steps);
            s.m.posted == s.history.statuses + [PrefetchData(s.m).1]
  {
    PowerOnInv(limit);
    RunKeeps(PowerOn(limit), steps);
    var s := Final(PowerOn(limit), steps);
    PrefetchReads(s);
    RunPosted(s.todo, s.m);
  }

  lemma {:induction false} RunKeepsLimit(s: State, steps: seq<Step>)
    requires Run?(s, steps)
    ensures Final(s, steps).host.limit == s.host.limit
    decreases |steps|
  {
    if steps != [] {
      RunKeepsLimit(Next(s, steps[0]), steps[1..]);
    }
  }

  /** No access is ever dropped: the queue is bounded by the CONTROL writes a command may use. */
  lemma QueueNeverFull(limit: nat, steps: seq<Step>)
    requires limit <= MAX_CONTROL_WRITES && Run?(PowerOn(limit), steps)
    ensures var s := Final(PowerOn(limit), steps);
            s.drops == 0 && |s.queue| <= limit + 12 < 255
  {
    RunKeepsLimit(PowerOn(limit), steps);
    PowerOnInv(limit);
    RunKeeps(PowerOn(limit), steps);
    BacklogBound(Final(PowerOn(limit), steps));
  }

  lemma BacklogBound(s: State)
    requires Inv(s)
    ensures s.drops == 0 && |s.queue| <= s.host.limit + 12
  {
  }

  // ---------------------------------------------------------------- progress

  /** Worker steps alone always reach quiescence. */
  lemma {:induction false} CatchUp(s: State, env: Environment) returns (steps: seq<Step>)
    ensures forall step | step in steps :: step == Worker(env)
    ensures Run?(s, steps) && Quiescent(Final(s, steps)) && Final(s, steps).host == s.host
    decreases |s.queue|, |s.todo|
  {
    if Quiescent(s) {
      steps := [];
    } else {
      var rest := CatchUp(Next(s, Worker(env)), env);
      steps := [Worker(env)] + rest;
      assert steps[1..] == rest;
    }
  }

  predicate Awaiting(pc: HostPc) {
    pc in {Config, AwaitSelected, AwaitCommand, AwaitResult, AwaitParameters, AwaitStatus, AwaitMessage}
  }

  lemma PollCoherentProgress(p: Picture, h: Host, history: History)
    requires Coherent(p, h, history) && !p.pending && !Outstanding(p.seen) && Awaiting(h.pc)
    ensures !Awaiting(PollHost(h, p.cells.c20).pc) && PollHost(h, p.cells.c20).pc != Resetting
  {
  }

  /** Once the worker has caught up, a waiting host sees what it polls for: nobody waits forever. */
  lemma PollSucceeds(limit: nat, steps: seq<Step>)
    requires limit <= MAX_CONTROL_WRITES && Run?(PowerOn(limit), steps)
    requires Quiescent(Final(PowerOn(limit), steps)) && Awaiting(Final(PowerOn(limit), steps).host.pc)
    ensures !Awaiting(Next(Final(PowerOn(limit), steps), Poll).host.pc)
  {
    PowerOnInv(limit);
    RunKeeps(PowerOn(limit), steps);
    var s := Final(PowerOn(limit), steps);
    PollCoherentProgress(PictureOf(s), s.host, s.history);
  }

  // ---------------------------------------------------------------- RESET

  predicate Idle(s: State) {
    && At(Free, s.m) && !s.m.resetRequested
    && s.m.cells.c20 == 0 && s.m.cells.c30 == 0 && s.m.cells.data == 0
  }

  /** Every run in which a RESET has drained has left the card idle, whatever it interrupted. */
  lemma DrainedResetIsIdle(limit: nat, steps: seq<Step>)
    requires limit <= MAX_CONTROL_WRITES && Run?(PowerOn(limit), steps)
    requires var s := Final(PowerOn(limit), steps); s.host.pc == Resetting && Quiescent(s)
    ensures Idle(Final(PowerOn(limit), steps))
  {
    PowerOnInv(limit);
    RunKeeps(PowerOn(limit), steps);
  }

  /**
   * And it does drain: from every reachable state, whatever entry or transfer it interrupts,
   * worker steps alone bring the card to idle, with nothing queued.
   */
  lemma ResetRecovers(limit: nat, steps: seq<Step>, env: Environment) returns (more: seq<Step>)
    requires limit <= MAX_CONTROL_WRITES && Run?(PowerOn(limit), steps)
    requires Final(PowerOn(limit), steps).host.pc != Resetting
    ensures var s := Next(Final(PowerOn(limit), steps), HostReset);
            && (forall step | step in more :: step == Worker(env))
            && Run?(s, more) && Quiescent(Final(s, more)) && Idle(Final(s, more))
            && Enabled(Final(s, more), HostResetOver)
  {
    PowerOnInv(limit);
    RunKeeps(PowerOn(limit), steps);
    var s := Final(PowerOn(limit), steps);
    ResetKeeps(s);
    var s' := Next(s, HostReset);
    more := CatchUp(s', env);
    RunKeeps(s', more);
  }

  // ---------------------------------------------------------------- the worker left alone

  /** The worker finishing the entry in hand with no host access in between. */
  function Alone(s: State): State
    decreases |s.todo|
  {
    if s.todo == [] then s else Alone(Proceed(s))
  }

  /** Undisturbed, the store-by-store worker does what processing the entry in one piece does. */
  lemma {:induction false} AlonePerforms(s: State)
    ensures Alone(s).m == Perform(s.todo, s.m) && Alone(s).todo == [] && Alone(s).queue == s.queue
    decreases |s.todo|
  {
    if s.todo != [] {
      AlonePerforms(Proceed(s));
    }
  }
}
