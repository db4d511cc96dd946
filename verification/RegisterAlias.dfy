/**
 * The status alias at 0x30 is stored separately from 0x20, so it can be left behind: a run in which the
 * host advances between the worker's two stores ends with the alias one phase back.
 */
module RegisterAlias {
  import opened SasiBits
  import opened DeferWorker
  import opened RegisterProtocol
  import opened RegisterRest
  import opened RegisterSafety

  ghost predicate Reachable(s: State) {
    exists steps: seq<Step> :: Run?(PowerOn(0), steps) && Final(PowerOn(0), steps) == s
  }

  lemma {:induction false} RunExtends(s: State, steps: seq<Step>, step: Step)
    requires Run?(s, steps) && Enabled(Final(s, steps), step)
    ensures Run?(s, steps + [step]) && Final(s, steps + [step]) == Next(Final(s, steps), step)
    decreases |steps|
  {
    var longer := steps + [step];
    if steps == [] {
      assert longer[1..] == [];
    } else {
      assert longer[1..] == steps[1..] + [step];
      RunExtends(Next(s, steps[0]), steps[1..], step);
    }
  }

  lemma Extend(s: State, step: Step)
    requires Reachable(s) && Enabled(s, step)
    ensures Reachable(Next(s, step))
  {
    var steps: seq<Step> :| Run?(PowerOn(0), steps) && Final(PowerOn(0), steps) == s;
    RunExtends(PowerOn(0), steps, step);
  }

  lemma Start()
    ensures Reachable(PowerOn(0))
  {
    var none: seq<Step> := [];
    assert Run?(PowerOn(0), none) && Final(PowerOn(0), none) == PowerOn(0);
  }

  lemma Go(s: State, step: Step) returns (t: State)
    requires Reachable(s) && Enabled(s, step)
    ensures t == Next(s, step) && Reachable(t)
  {
    Extend(s, step);
    t := Next(s, step);
  }

  lemma ReachableInv(s: State)
    requires Reachable(s)
    ensures Inv(s)
  {
    var steps: seq<Step> :| Run?(PowerOn(0), steps) && Final(PowerOn(0), steps) == s;
    PowerOnInv(0);
    RunKeeps(PowerOn(0), steps);
  }

  /** The host selects target 0 while the worker has not yet run at all. */
  lemma SelectAhead() returns (t: State)
    ensures Reachable(t) && t.host.pc == AwaitCommand && t.todo == [] && t.host.sent == []
    ensures t.m.cells.c20 == PHASE_COMMAND && t.base == Free && !t.m.local.dmaEnabled
    ensures t.queue == [WriteOf(Data, 1), WriteOf(Control, DMA_SELECT), WriteOf(Control, 0)]
  {
    Start();
    t := Go(PowerOn(0), Poll);
    t := Go(t, HostData(1));
    t := Go(t, HostControl(DMA_SELECT));
    t := Go(t, Poll);
    t := Go(t, HostControl(0));
  }

  /** The host sends a whole TEST UNIT READY ahead of the worker. */
  lemma {:induction false} SendAhead(s: State) returns (t: State)
    requires Reachable(s) && s.host.pc == AwaitCommand && s.todo == [] && |s.host.sent| < 6
    requires s.m.cells.c20 == PHASE_COMMAND
    requires forall i | 0 <= i < |s.host.sent| :: s.host.sent[i] == 0
    ensures Reachable(t) && t.host.pc == AwaitResult && t.todo == [] && t.queue != []
    ensures forall i | 0 <= i < |t.host.sent| :: t.host.sent[i] == 0
    decreases 6 - |s.host.sent|
  {
    t := Go(s, Poll);
    t := Go(t, HostData(0));
    if t.host.pc == AwaitCommand {
      t := SendAhead(t);
    }
  }

  /** The worker catches up with all but the last queued entry. */
  lemma {:induction false} CatchUpToLast(s: State, env: Environment) returns (t: State)
    requires Reachable(s) && s.queue != []
    ensures Reachable(t) && t.todo == [] && |t.queue| == 1 && t.host == s.host
    decreases |s.queue|, |s.todo|
  {
    if s.todo == [] && |s.queue| == 1 {
      t := s;
    } else {
      t := Go(s, Worker(env));
      t := CatchUpToLast(t, env);
    }
  }

  /** The entry left is the byte that completes the command. */
  lemma LastByte(s: State, env: Environment)
    requires Reachable(s) && s.host.pc == AwaitResult && s.todo == [] && |s.queue| == 1
    requires forall i | 0 <= i < |s.host.sent| :: s.host.sent[i] == 0
    ensures Take(s, env).base == StatusPhase(GOOD) && Pending20(Take(s, env).todo)
  {
    ReachableInv(s);
    TakeSeen(s, env);
    DrainBehind(s.base, s.queue);
    assert Seen(s) == NextView(s.base, s.queue[0]) == Collecting(ExtractTarget(s.host.selection), s.host.sent);
    EntrySettles(s.base, s.queue[0], s.m, env);
  }

  /** Worker steps up to the moment the last STATUS store has reached 0x20 but not yet 0x30. */
  lemma {:induction false} StoreAlmost(s: State, env: Environment) returns (t: State)
    requires Reachable(s) && s.host.pc == AwaitResult && Pending20(s.todo) && s.base.StatusPhase? && s.queue == []
    ensures Reachable(t) && t.host.pc == AwaitResult && Mid(t.todo) && !Pending20(t.todo)
    ensures t.base.StatusPhase? && t.queue == []
    decreases |s.todo|
  {
    ReachableInv(s);
    t := Go(s, Worker(env));
    if Pending20(t.todo) {
      t := StoreAlmost(t, env);
    }
  }

  /** What that moment looks like. */
  lemma AtThatMoment(t: State)
    requires Reachable(t) && t.host.pc == AwaitResult && Mid(t.todo) && !Pending20(t.todo)
    requires t.base.StatusPhase? && t.queue == []
    ensures var c, p := t.todo[0].clear, t.todo[0].put;
            && t.todo == [Cell30(c, p), Bus(c, p)] && Drive(t.m.bus, c, p) == BSY | REQ | CTL | INP
    ensures t.m.cells.c20 == PHASE_STATUS && t.m.local.statusPending && !t.m.resetRequested
  {
    ReachableInv(t);
    var c, p := t.todo[0].clear, t.todo[0].put;
    assert t.todo == [Cell30(c, p), Bus(c, p)];
    RunTwo(Cell30(c, p), Bus(c, p), t.m);
  }

  lemma PostedAlmost(env: Environment) returns (t: State)
    ensures Reachable(t) && t.host.pc == AwaitResult && t.queue == []
    ensures Mid(t.todo) && !Pending20(t.todo) && t.base.StatusPhase?
  {
    t := SelectAhead();
    t := SendAhead(t);
    t := CatchUpToLast(t, env);
    LastByte(t, env);
    t := Go(t, Worker(env));
    t := StoreAlmost(t, env);
  }

  /** The host reads the status byte in that window. */
  lemma ReadInTheWindow(s: State) returns (t: State)
    requires Reachable(s) && s.host.pc == AwaitResult && s.queue == [] && s.m.cells.c20 == PHASE_STATUS
    ensures Reachable(t) && t.queue == [ReadOf(Data)] && t.todo == s.todo
    ensures t.m == s.m.(cells := s.m.cells.(c20 := PHASE_MESSAGE, c30 := PHASE_MESSAGE, data := 0))
  {
    t := Go(s, Poll);
    t := Go(t, HostPrefetch);
    t := Go(t, HostCommit);
  }

  /** The worker stores the old phase to the alias and then raises the bus word. */
  lemma FinishStores(s: State, c: bv8, p: bv8, env: Environment) returns (t: State)
    requires Reachable(s) && s.todo == [Cell30(c, p), Bus(c, p)]
    ensures Reachable(t) && t.queue == s.queue && t.todo == []
    ensures var bus := Drive(s.m.bus, c, p); t.m == s.m.(cells := s.m.cells.(c30 := Phase(bus)), bus := bus)
  {
    t := Go(s, Worker(env));
    t := Go(t, Worker(env));
  }

  /** The worker processes the queued status read. */
  lemma FinishRead(s: State, env: Environment) returns (t: State)
    requires Reachable(s) && s.todo == [] && s.queue == [ReadOf(Data)] && !s.m.resetRequested
    requires s.m.bus == BSY | REQ | CTL | INP && s.m.local.statusPending
    ensures Reachable(t) && t.todo == [] && t.queue == []
    ensures t.m.cells == s.m.cells && t.m.bus == BSY | REQ | CTL | INP | MSG
  {
    t := Go(s, Worker(env));
    t := Go(t, Worker(env));
    t := Go(t, Worker(env));
  }

  /**
   * The alias is not always the phase of the bus: here everything has drained, 0x20 shows the message
   * phase and 0x30 still shows the status phase.
   */
  lemma AliasCanGoStale() returns (t: State)
    ensures Reachable(t) && t.todo == [] && t.queue == []
    ensures t.m.cells.c20 == Phase(t.m.bus) == PHASE_MESSAGE && t.m.cells.c30 == PHASE_STATUS
  {
    var env := Environment([], true, true);
    t := PostedAlmost(env);
    AtThatMoment(t);
    var c, p := t.todo[0].clear, t.todo[0].put;
    t := ReadInTheWindow(t);
    t := FinishStores(t, c, p, env);
    t := FinishRead(t, env);
  }
}
