/**
 * What the management channel promises over every run of core 0, the ISR and a terminal that asks for no
 * reset right behind a 0x00 command byte, and that this is exactly what would end the reset wait early.
 */
module MgmtTheorems {
  import opened MgmtProtocol

  /**
   * In a session the terminal has rendered exactly the accepted bytes less those still queued and at most
   * one handed out; the accepted bytes are those asked for, cut short only after an overflow.
   */
  lemma StreamIsExact(capacity: nat, steps: seq<Step>, s: State)
    requires Reaches(capacity, steps, s)
    ensures && s.log <= s.asked && (s.log != s.asked ==> s.flags.overflow)
            && s.typed == s.popped + s.ring
            && (Session(s.pc) ==>
                  && s.emitted <= s.log
                  && s.log[|s.emitted|..] == Unacked(s) + s.fifo)
  {
    Reached(capacity, steps, s);
  }

  /**
   * With nothing left to acknowledge and no overflow, which is when a raw download reports success, the
   * terminal has rendered every byte asked for since the last flush.
   */
  lemma DeliveredInFull(capacity: nat, steps: seq<Step>, s: State)
    requires Reaches(capacity, steps, s) && Left(s) == 0 && !s.flags.overflow && s.core0.Running? && s.log != []
    ensures !s.pc.Echoed? ==> s.emitted == s.log == s.asked
  {
    Reached(capacity, steps, s);
  }

  /** Stop and wait: never more than one byte is published and not acknowledged, even across counter wrap. */
  lemma StopAndWait(capacity: nat, steps: seq<Step>, s: State)
    requires Reaches(capacity, steps, s)
    ensures && (s.served - s.ack) % COUNTER in {0, 1}
            && (Session(s.pc) ==> ((s.served - s.ack) % COUNTER == 1 <==> s.flags.phase != s.last))
  {
    Reached(capacity, steps, s);
    if s.served != s.ack {
      if s.ack + 1 == COUNTER {
        assert s.served == 0 && s.served - s.ack == 1 + (-1) * COUNTER;
      }
    }
  }

  /** A byte handed out and not yet acknowledged, in a session. */
  predicate ByteOut(s: State) {
    Inv(s) && Session(s.pc) && s.served != s.ack
  }

  lemma ByteOutStep(s: State, step: Step)
    requires ByteOut(s) && Enabled(s, step) && !step.Acknowledge? && !step.WriteStatus?
    ensures ByteOut(Next(s, step)) && Next(s, step).respCell == s.respCell
  {
    StepKeeps(s, step);
  }

  predicate KeepsByte(steps: seq<Step>) {
    forall i :: 0 <= i < |steps| ==> !steps[i].Acknowledge? && !steps[i].WriteStatus?
  }

  lemma {:induction false} RespStays(s: State, steps: seq<Step>)
    requires ByteOut(s) && Run?(s, steps) && KeepsByte(steps)
    ensures ByteOut(Final(s, steps)) && Final(s, steps).respCell == s.respCell
    decreases |steps|
  {
    if steps != [] {
      assert !steps[0].Acknowledge? && !steps[0].WriteStatus?;
      ByteOutStep(s, steps[0]);
      RespStays(Next(s, steps[0]), steps[1..]);
    }
  }

  /**
   * From the moment a byte is handed out, and so at the latest from the moment its phase can be seen, RESP
   * stays put whoever steps, until the terminal acknowledges it or asks for a reset.
   */
  lemma RespHeld(capacity: nat, steps: seq<Step>, s: State, between: seq<Step>)
    requires Reaches(capacity, steps, s) && Session(s.pc)
    requires s.served != s.ack || s.statusCell.phase != s.last
    requires Run?(s, between) && KeepsByte(between)
    ensures Final(s, between).respCell == s.respCell
  {
    Reached(capacity, steps, s);
    RespStays(s, between);
  }

  lemma {:induction false} Core0LeavesTerminal(s: State, steps: seq<Step>)
    requires Run?(s, steps) && forall i :: 0 <= i < |steps| ==> ByCore0(steps[i])
    ensures Final(s, steps).pc == s.pc && KeepsByte(steps)
    decreases |steps|
  {
    if steps != [] {
      assert ByCore0(steps[0]);
      Core0LeavesTerminal(Next(s, steps[0]), steps[1..]);
    }
  }

  /** So the second read of a byte agrees with the first, and the pair is acknowledged at once. */
  lemma RereadsAgree(capacity: nat, steps: seq<Step>, s: State, between: seq<Step>)
    requires Reaches(capacity, steps, s) && s.pc.HaveByte? && Run?(Next(s, ReadResp), between)
    requires forall i :: 0 <= i < |between| ==> ByCore0(between[i])
    ensures var t := Final(Next(s, ReadResp), between);
            Enabled(t, Reread) && Next(t, Reread).pc == Read(s.pc.phase, s.respCell, true)
  {
    Reached(capacity, steps, s);
    ReadingKeeps(s, ReadResp);
    Core0LeavesTerminal(Next(s, ReadResp), between);
    RespStays(Next(s, ReadResp), between);
  }

  // ---------------------------------------------------------------- progress

  /** The terminal is past detection and reset, where it polls and reads. */
  predicate Reading(pc: TerminalPc) {
    pc.Loop? || HoldsByte(pc)
  }

  predicate HoldsByte(pc: TerminalPc) {
    pc.HaveByte? || pc.Read?
  }

  /** What comes next when core 0 does nothing but publish and the terminal nothing but look, read and acknowledge. */
  function NextStep(s: State): (step: Step)
    requires Inv(s) && Reading(s.pc) && Left(s) > 0
    ensures Enabled(s, step) && Honest(s, step)
  {
    if s.pc.Read? then if s.pc.agreed then Acknowledge else Reread
    else if s.pc.HaveByte? then ReadResp
    else if s.served == s.ack then PublishByte
    else if s.statusCell != s.flags then StoreStatus
    else if s.flags.overflow then DrainStatus
    else PollStatus
  }

  /** How far the byte at hand is from being acknowledged. */
  function Distance(s: State): nat {
    if s.pc.Read? then if s.pc.agreed then 0 else 1
    else if s.pc.HaveByte? then 2
    else if s.served == s.ack then 5
    else if s.statusCell != s.flags then 4
    else 3
  }

  lemma ComesNearer(s: State)
    requires Inv(s) && Reading(s.pc) && Left(s) > 0
    ensures var t := Next(s, NextStep(s));
            && Inv(t) && Reading(t.pc) && t.log == s.log && t.asked == s.asked && t.flags.overflow == s.flags.overflow
            && (Left(t) < Left(s) || (Left(t) == Left(s) && Distance(t) < Distance(s)))
  {
    StepKeeps(s, NextStep(s));
  }

  predicate Delivers(step: Step) {
    match step
    case PublishByte | StoreStatus | PollStatus | DrainStatus | ReadResp | Reread | Acknowledge => true
    case _ => false
  }

  lemma {:induction false} Drains(s: State) returns (more: seq<Step>)
    requires Inv(s) && Reading(s.pc)
    ensures Run?(s, more) && forall step | step in more :: Delivers(step)
    ensures var t := Final(s, more);
            && Inv(t) && Reading(t.pc) && Left(t) == 0
            && t.log == s.log && t.asked == s.asked && t.flags.overflow == s.flags.overflow
    decreases Left(s), Distance(s)
  {
    if Left(s) == 0 {
      more := [];
    } else {
      ComesNearer(s);
      var rest := Drains(Next(s, NextStep(s)));
      more := [NextStep(s)] + rest;
      assert more[1..] == rest;
    }
  }

  /**
   * Nothing gets stuck: from every reachable state of a session, publishing and the terminal's looks, reads and
   * acknowledgements alone bring every accepted byte to the screen, and without an overflow every byte asked for.
   */
  lemma EverythingArrives(capacity: nat, steps: seq<Step>, s: State) returns (more: seq<Step>)
    requires Reaches(capacity, steps, s) && Reading(s.pc)
    ensures Run?(s, more) && forall step | step in more :: Delivers(step)
    ensures var t := Final(s, more);
            && Left(t) == 0 && t.emitted == t.log == s.log && t.asked == s.asked
            && (!s.flags.overflow ==> t.emitted == s.asked)
  {
    Reached(capacity, steps, s);
    more := Drains(s);
  }

  /** What is still to be done of a reset, by core 0 and then by the terminal. */
  function NextOfReset(s: State): (step: Step)
    requires Inv(s) && !Session(s.pc)
    ensures Enabled(s, step) && Honest(s, step)
  {
    if s.pc.Echoed? then ReadPhase
    else if s.resetReq then TakeReset
    else if s.core0.ResetStatus? then StoreResetStatus
    else if s.core0.ResetEcho? then StoreEcho
    else PollEcho
  }

  function ResetDistance(s: State): nat {
    if s.pc.Echoed? then 1
    else if s.resetReq then 5
    else if s.core0.ResetStatus? then 4
    else if s.core0.ResetEcho? then 3
    else 2
  }

  /** A reset asked for is served: core 0's three steps and the terminal's two looks start the new session. */
  lemma {:induction false} ResetIsServed(s: State) returns (more: seq<Step>)
    requires Inv(s) && !Session(s.pc)
    ensures Run?(s, more) && |more| <= ResetDistance(s) <= 5
    ensures var t := Final(s, more); Inv(t) && t.pc.Loop? && Flushed(t) && !t.resetReq
    decreases ResetDistance(s)
  {
    var step := NextOfReset(s);
    var t := Next(s, step);
    StepKeeps(s, step);
    var rest: seq<Step> := [];
    if !Session(t.pc) {
      rest := ResetIsServed(t);
    }
    more := [step] + rest;
    assert more[1..] == rest;
  }

  /** The terminal leaves the reset wait only once both directions are flushed and the request is taken. */
  lemma EchoIsTruthful(capacity: nat, steps: seq<Step>, s: State)
    requires Reaches(capacity, steps, s) && s.pc.Settling? && Next(s, PollEcho).pc.Echoed?
    ensures Flushed(s) && !s.resetReq && s.core0.Running?
  {
    Reached(capacity, steps, s);
  }

  lemma {:induction false} QuietUntilPhaseRead(s: State, steps: seq<Step>)
    requires Inv(s) && s.pc.Echoed? && Run?(s, steps)
    requires forall i :: 0 <= i < |steps| ==> ByCore0(steps[i])
    ensures var t := Final(s, steps); Inv(t) && t.pc.Echoed? && t.flags.phase == s.flags.phase
    decreases |steps|
  {
    if steps != [] {
      assert ByCore0(steps[0]);
      StepKeeps(s, steps[0]);
      QuietUntilPhaseRead(Next(s, steps[0]), steps[1..]);
    }
  }

  /**
   * After the echo core 0 can do what it likes before the terminal reads the phase: the new session starts
   * with the card's own phase, READY and OVERFLOW down, nothing queued and nothing to be taken for a byte.
   */
  lemma SessionStartsClean(capacity: nat, steps: seq<Step>, s: State, between: seq<Step>)
    requires Reaches(capacity, steps, s) && s.pc.Settling? && s.cmdCell == ECHO_RESET
    requires Run?(Next(s, PollEcho), between)
    requires forall i :: 0 <= i < |between| ==> ByCore0(between[i])
    ensures var e := Final(Next(s, PollEcho), between);
            && Enabled(e, ReadPhase)
            && var t := Next(e, ReadPhase);
            && Inv(t) && t.last == t.flags.phase == t.statusCell.phase
            && !t.statusCell.ready && !t.statusCell.overflow
            && t.emitted == t.log == t.asked == [] && t.fifo == [] && t.ring == [] && t.served == t.ack
            && LookAtStatus(t.statusCell, t.last) == Loop
  {
    Reached(capacity, steps, s);
    SettleKeeps(s, PollEcho);
    QuietUntilPhaseRead(Next(s, PollEcho), between);
    SettleKeeps(Final(Next(s, PollEcho), between), ReadPhase);
  }

  /** Until core 0 takes the request up, nothing but the terminal's own last byte stands in the CMD cell. */
  lemma {:induction false} EchoUnmoved(s: State, between: seq<Step>)
    requires s.pc.Settling? && s.core0.Running? && s.resetReq && Run?(s, between)
    requires forall i :: 0 <= i < |between| ==> ByCore0(between[i]) && !between[i].TakeReset?
    ensures var t := Final(s, between); t.pc.Settling? && t.core0.Running? && t.resetReq && t.cmdCell == s.cmdCell
    decreases |between|
  {
    if between != [] {
      assert ByCore0(between[0]) && !between[0].TakeReset?;
      EchoUnmoved(Next(s, between[0]), between[1..]);
    }
  }

  /** When the terminal asks for a reset its own last byte stands in the CMD cell. */
  lemma EchoAtRequest(capacity: nat, steps: seq<Step>, s: State)
    requires Reaches(capacity, steps, s) && Enabled(s, WriteStatus)
    ensures var t := Next(s, WriteStatus);
            t.pc.Settling? && t.core0.Running? && t.resetReq && t.cmdCell == 255 - s.lastCmd
  {
    Reached(capacity, steps, s);
  }

  lemma EchoedIff(s: State)
    requires s.pc.Settling?
    ensures Next(s, PollEcho).pc.Echoed? <==> s.cmdCell == ECHO_RESET
  {
  }

  /**
   * The reset wait can be fooled in exactly one way.  Whatever led up to the reset request, and whatever
   * core 0 does short of taking it up, the wait ends over the pending request exactly if the last command
   * byte was 0x00, whose complement is the value the terminal waits for.
   */
  lemma FooledIffZero(capacity: nat, steps: seq<Step>, s: State, between: seq<Step>)
    requires Reaches(capacity, steps, s) && Enabled(s, WriteStatus) && Run?(Next(s, WriteStatus), between)
    requires forall i :: 0 <= i < |between| ==> ByCore0(between[i]) && !between[i].TakeReset?
    ensures var waiting := Final(Next(s, WriteStatus), between);
            && waiting.pc.Settling? && waiting.resetReq
            && (Next(waiting, PollEcho).pc.Echoed? <==> s.lastCmd == 0)
  {
    EchoAtRequest(capacity, steps, s);
    EchoUnmoved(Next(s, WriteStatus), between);
    EchoedIff(Final(Next(s, WriteStatus), between));
  }

  function Repeat(step: Step, n: nat): (steps: seq<Step>)
    ensures |steps| == n
  {
    seq(n, _ => step)
  }

  lemma {:induction false} Fill(s: State, n: nat)
    requires s.core0.Running? && s.active && !s.flags.overflow && |s.fifo| + n == s.capacity
    ensures Run?(s, Repeat(Ask(0x2A), n))
    ensures Final(s, Repeat(Ask(0x2A), n))
            == s.(asked := s.asked + seq(n, _ => 0x2A), fifo := s.fifo + seq(n, _ => 0x2A),
                  log := s.log + seq(n, _ => 0x2A))
    decreases n
  {
    if n == 0 {
      assert s.asked + seq(0, _ => 0x2A) == s.asked && s.fifo + seq(0, _ => 0x2A) == s.fifo;
      assert s.log + seq(0, _ => 0x2A) == s.log;
    } else {
      var steps := Repeat(Ask(0x2A), n);
      assert steps[1..] == Repeat(Ask(0x2A), n - 1);
      Fill(Next(s, steps[0]), n - 1);
      assert [0x2A] + seq(n - 1, _ => 0x2A) == seq(n, _ => 0x2A);
      assert s.asked + [0x2A] + seq(n - 1, _ => 0x2A) == s.asked + seq(n, _ => 0x2A);
      assert s.fifo + [0x2A] + seq(n - 1, _ => 0x2A) == s.fifo + seq(n, _ => 0x2A);
      assert s.log + [0x2A] + seq(n - 1, _ => 0x2A) == s.log + seq(n, _ => 0x2A);
    }
  }

  /** A terminal starts and asks for a reset; core 0 serves it; the session begins with a carriage return. */
  const Starting: seq<Step> := [WriteCmd(0x55), WriteCmd(0xAA), WriteStatus, TakeReset, StoreResetStatus]
  const Entering: seq<Step> := [StoreEcho, PollEcho, ReadPhase]
  const Opening: seq<Step> := [WriteCmd(0x0D), Pop]

  /** Core 0 gives up on a full FIFO; a 0x00 goes out just before the terminal sees it. */
  const Failing: seq<Step> := [GiveUp(0x2A), StoreStatus, WriteCmd(0)]
  const Fooled: seq<Step> := [PollStatus, WriteStatus, PollEcho]

  function Opened(capacity: nat): State {
    State(capacity, 0xF2, Flags(false, false, false, false), 0, 0, false, [], 0,
          Running, Flags(false, false, false, false), [], 0, 0, true, Loop, false, 0x0D, [], [], [], [0x0D], [0x0D])
  }

  function Started(capacity: nat): State {
    PowerOn(capacity).(cmdCell := 0x55, core0 := ResetEcho, pc := Settling, lastCmd := 0xAA)
  }

  function Entered(capacity: nat): State {
    PowerOn(capacity).(pc := Loop, lastCmd := 0xAA)
  }

  lemma SessionRuns(capacity: nat)
    ensures Run?(PowerOn(capacity), Starting + (Entering + Opening))
    ensures Final(PowerOn(capacity), Starting + (Entering + Opening)) == Opened(capacity)
  {
    StartingRuns(capacity);
    EnteringRuns(capacity);
    OpeningRuns(capacity);
    RunThen(Started(capacity), Entering, Opening);
    RunThen(PowerOn(capacity), Starting, Entering + Opening);
  }

  lemma EnteringRuns(capacity: nat)
    ensures Run?(Started(capacity), Entering) && Final(Started(capacity), Entering) == Entered(capacity)
  {
  }

  lemma OpeningRuns(capacity: nat)
    ensures Run?(Entered(capacity), Opening) && Final(Entered(capacity), Opening) == Opened(capacity)
  {
  }

  lemma StartingRuns(capacity: nat)
    ensures Run?(PowerOn(capacity), Starting) && Final(PowerOn(capacity), Starting) == Started(capacity)
  {
  }

  lemma FailingRuns(s: State)
    requires s.core0.Running? && s.active && !s.flags.overflow && |s.fifo| == s.capacity && s.pc.Loop?
    ensures Run?(s, Failing)
    ensures var t := Final(s, Failing);
            t.pc.Loop? && t.statusCell.overflow && t.cmdCell == ECHO_RESET && t.fifo == s.fifo
  {
  }

  lemma FooledRuns(s: State)
    requires s.pc.Loop? && s.statusCell.overflow && s.cmdCell == ECHO_RESET
    ensures Run?(s, Fooled)
    ensures var t := Final(s, Fooled); t.pc.Echoed? && t.resetReq && t.fifo == s.fifo
  {
  }

  /** With a 0x00 byte the terminal does leave the reset wait over a full FIFO and with the request still pending. */
  lemma ZeroByteFoolsReset(capacity: nat) returns (steps: seq<Step>)
    requires capacity > 0
    ensures Run?(PowerOn(capacity), steps)
    ensures var t := Final(PowerOn(capacity), steps); t.pc.Echoed? && t.resetReq && |t.fifo| == capacity
  {
    SessionRuns(capacity);
    Fill(Opened(capacity), capacity);
    var full := Final(Opened(capacity), Repeat(Ask(0x2A), capacity));
    FailingRuns(full);
    FooledRuns(Final(full, Failing));
    RunThen(full, Failing, Fooled);
    RunThen(Opened(capacity), Repeat(Ask(0x2A), capacity), Failing + Fooled);
    RunThen(PowerOn(capacity), Starting + (Entering + Opening), Repeat(Ask(0x2A), capacity) + (Failing + Fooled));
    steps := Starting + (Entering + Opening) + (Repeat(Ask(0x2A), capacity) + (Failing + Fooled));
  }
}
