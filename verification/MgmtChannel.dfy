/**
 * The management channel as the card runs it: rings, counters, flags and the three cells, changed in place.
 * Between any two shared accesses of core 0 the terminal may make any number of its own; the whole history
 * is recorded and is always a run of the protocol.
 */
module MgmtChannel {
  import opened Basics
  import opened MgmtProtocol
  import Ring

  const SPIN_MAX: nat := 4_000_000
  const PUMP_BURST: nat := 64
  const PUMP_ACK_SPIN: nat := 2000

  const CMD_OFF: nat := 0x40
  const STATUS_OFF: nat := 0x50
  const RESP_OFF: nat := 0x60

  datatype Wait = Room | ResetPending | TimedOut

  class Channel {
    const cmdSlots: array<byte>
    var cmdHead: nat
    var cmdTail: nat
    const respSlots: array<byte>
    var respHead: nat
    var respTail: nat

    var cmdEcho: byte
    var status: byte
    var respByte: byte

    var ack: u32
    var served: u32
    var resetReq: bool
    var cmdDrop: u32
    var cmdDropSeen: u32
    var flags: Flags

    // the other party: where the terminal program is, the phase it saw last and the command byte it sent last
    var terminal: TerminalPc
    var lastPhase: bool
    var lastCmd: byte

    ghost var model: State
    ghost var trace: seq<Step>
    // how often core 0 has tried to publish
    ghost var rounds: nat

    ghost predicate Recorded()
      reads this
    {
      && 0 < respSlots.Length && model.capacity == respSlots.Length - 1
      && Reaches(respSlots.Length - 1, trace, model)
    }

    ghost predicate Shared()
      reads this, cmdSlots
    {
      Cells() && Peer() && model.ack == ack && model.resetReq == resetReq
    }

    /** The cells and the command ring are the protocol's. */
    ghost predicate Cells()
      reads this, cmdSlots
    {
      && cmdSlots.Length == CMD_RING_SIZE && Ring.InRange(cmdSlots[..], cmdHead, cmdTail)
      && model.ring == Ring.Contents(cmdSlots[..], cmdHead, cmdTail) && model.drops == cmdDrop
      && model.cmdCell == cmdEcho && StatusByte(model.statusCell) == status && model.respCell == respByte
    }

    ghost predicate Peer()
      reads this
    {
      model.pc == terminal && model.last == lastPhase && model.lastCmd == lastCmd
    }

    ghost predicate Own()
      reads this, respSlots
    {
      && Ring.InRange(respSlots[..], respHead, respTail)
      && model.fifo == Ring.Contents(respSlots[..], respHead, respTail)
      && model.served == served && model.dropsSeen == cmdDropSeen && model.flags == flags
    }

    ghost predicate Valid()
      reads this, cmdSlots, respSlots
    {
      cmdSlots != respSlots && Recorded() && Shared() && Own()
    }

    constructor (capacity: nat)
      ensures Valid() && respSlots.Length == capacity + 1 && trace == [] && model == PowerOn(capacity)
      ensures fresh(cmdSlots) && fresh(respSlots)
    {
      cmdSlots := new byte[CMD_RING_SIZE];
      respSlots := new byte[capacity + 1];
      cmdHead, cmdTail, respHead, respTail := 0, 0, 0, 0;
      cmdEcho, status, respByte := ECHO_RESET, 0xD0, 0;
      ack, served, resetReq, cmdDrop, cmdDropSeen := 0, 0, false, 0, 0;
      flags := Flags(false, false, false, false);
      terminal, lastPhase, lastCmd := Probe, false, 0;
      model, trace, rounds := PowerOn(capacity), [], 0;
    }

    /** Adds one step to the recorded run. */
    ghost method Record(step: Step)
      requires Recorded() && Enabled(model, step) && Honest(model, step)
      modifies this`model, this`trace
      ensures Recorded() && model == Next(old(model), step) && trace == old(trace) + [step]
    {
      ReachesNext(respSlots.Length - 1, trace, model, step);
      model, trace := Next(model, step), trace + [step];
    }

    // ---------------------------------------------------------------- the ISR and the terminal

    /** A command byte is in the ring, or counted as dropped when 63 are waiting; its complement is echoed anyway. */
    ghost predicate Pushed(waiting: seq<byte>, drops: u32, val: byte)
      requires Ring.InRange(cmdSlots[..], cmdHead, cmdTail)
      reads this, cmdSlots
    {
      && cmdEcho == 255 - val
      && if |waiting| < 63 then
           Ring.Contents(cmdSlots[..], cmdHead, cmdTail) == waiting + [val] && cmdDrop == drops
         else
           Ring.Contents(cmdSlots[..], cmdHead, cmdTail) == waiting && cmdDrop == Succ(drops)
    }

    /** What the ISR does for a write: push a command byte, count an acknowledgement or ask for a reset. */
    method RegWrite(off: nat, val: byte) returns (ours: bool)
      requires cmdSlots.Length == CMD_RING_SIZE && Ring.InRange(cmdSlots[..], cmdHead, cmdTail)
      modifies this`cmdHead, cmdSlots, this`cmdDrop, this`cmdEcho, this`ack, this`resetReq
      ensures ours <==> off in {0x40, 0x50, 0x60}
      ensures Ring.InRange(cmdSlots[..], cmdHead, cmdTail)
      ensures off == 0x40 ==>
                Pushed(old(Ring.Contents(cmdSlots[..], cmdHead, cmdTail)), old(cmdDrop), val)
      ensures off != CMD_OFF ==>
                && cmdSlots[..] == old(cmdSlots[..]) && cmdHead == old(cmdHead)
                && cmdDrop == old(cmdDrop) && cmdEcho == old(cmdEcho)
      ensures ack == if off == 0x60 then Succ(old(ack)) else old(ack)
      ensures resetReq == (old(resetReq) || off == 0x50)
    {
      ours := true;
      if off == CMD_OFF {
        PushCommand(val);
      } else if off == RESP_OFF {
        ack := Succ(ack);
      } else if off == STATUS_OFF {
        resetReq := true;
      } else {
        ours := false;
      }
    }

    method PushCommand(val: byte)
      requires cmdSlots.Length == CMD_RING_SIZE && Ring.InRange(cmdSlots[..], cmdHead, cmdTail)
      modifies this`cmdHead, cmdSlots, this`cmdDrop, this`cmdEcho
      ensures Ring.InRange(cmdSlots[..], cmdHead, cmdTail)
      ensures Pushed(old(Ring.Contents(cmdSlots[..], cmdHead, cmdTail)), old(cmdDrop), val)
    {
      var h := cmdHead;
      var next := Ring.After(h, CMD_RING_SIZE);
      Ring.FullIff(cmdSlots[..], cmdHead, cmdTail);
      if next == cmdTail {
        cmdDrop := Succ(cmdDrop);
      } else {
        Ring.Pushes(cmdSlots[..], cmdHead, cmdTail, val);
        cmdSlots[h] := val;
        cmdHead := next;
      }
      cmdEcho := 255 - val;
    }

    /** The terminal program's next command byte; one it would not send now is ignored. */
    method TerminalCommands(b: byte)
      requires Valid()
      modifies this`cmdHead, cmdSlots, this`cmdDrop, this`cmdEcho, this`ack, this`resetReq
      modifies this`terminal, this`lastCmd, this`model, this`trace
      ensures Valid() && old(trace) <= trace && ByTerminal(old(model), model)
    {
      TerminalSkips(model);
      if MaySend(terminal, b) {
        SendCommand(b);
        RecordCommand(b);
        terminal, lastCmd := Sent(terminal), b;
      }
    }

    ghost method RecordCommand(b: byte)
      requires Recorded() && MaySend(model.pc, b)
      modifies this`model, this`trace
      ensures Recorded() && model == PushCmd(old(model), b).(pc := Sent(old(model).pc))
      ensures old(trace) <= trace && ByTerminal(old(model), model)
    {
      OneByTerminal(model, respSlots.Length - 1, trace, WriteCmd(b));
      Record(WriteCmd(b));
    }

    /** The ISR's part in it: ring, echo and drop count are what the protocol says. */
    method SendCommand(b: byte)
      requires Valid()
      modifies this`cmdHead, cmdSlots, this`cmdDrop, this`cmdEcho, this`ack, this`resetReq
      ensures Recorded() && Own() && cmdSlots.Length == CMD_RING_SIZE && Ring.InRange(cmdSlots[..], cmdHead, cmdTail)
      ensures var next := PushCmd(model, b);
              && next.ring == Ring.Contents(cmdSlots[..], cmdHead, cmdTail)
              && next.cmdCell == cmdEcho && next.drops == cmdDrop
      ensures ack == old(ack) && resetReq == old(resetReq)
    {
      var _ := RegWrite(CMD_OFF, b);
    }

    /** The terminal asks for a reset, if that is what its program does next and no 0x00 has just gone out. */
    method TerminalResets()
      requires Valid()
      modifies this`cmdHead, cmdSlots, this`cmdDrop, this`cmdEcho, this`ack, this`resetReq
      modifies this`terminal, this`model, this`trace
      ensures Valid() && Accessed(old(model), old(trace), WriteStatus)
    {
      if (terminal.Probed? || terminal.MustSettle?) && lastCmd != 0 {
        var _ := RegWrite(STATUS_OFF, 0);
        terminal := Settling;
        Record(WriteStatus);
      }
    }

    /** The terminal acknowledges the byte it has read twice alike. */
    method TerminalAcks()
      requires Valid()
      modifies this`cmdHead, cmdSlots, this`cmdDrop, this`cmdEcho, this`ack, this`resetReq
      modifies this`terminal, this`lastPhase, this`lastCmd, this`model, this`trace
      ensures Valid() && Accessed(old(model), old(trace), Acknowledge)
    {
      if terminal.Read? && terminal.agreed {
        AckByte();
      }
    }

    method AckByte()
      requires Valid() && terminal.Read? && terminal.agreed
      modifies this`cmdHead, cmdSlots, this`cmdDrop, this`cmdEcho, this`ack, this`resetReq
      modifies this`terminal, this`lastPhase, this`model, this`trace
      ensures Valid() && Enabled(old(model), Acknowledge)
      ensures model == Next(old(model), Acknowledge) && trace == old(trace) + [Acknowledge]
    {
      Record(Acknowledge);
      terminal, lastPhase := Loop, terminal.phase;
      WriteResp();
    }

    /** The ISR's share of an acknowledgement. */
    method WriteResp()
      requires cmdSlots.Length == CMD_RING_SIZE && Ring.InRange(cmdSlots[..], cmdHead, cmdTail)
      modifies this`cmdHead, cmdSlots, this`cmdDrop, this`cmdEcho, this`ack, this`resetReq
      ensures cmdSlots[..] == old(cmdSlots[..]) && cmdHead == old(cmdHead) && cmdDrop == old(cmdDrop)
      ensures cmdEcho == old(cmdEcho) && resetReq == old(resetReq) && ack == Succ(old(ack))
    {
      var _ := RegWrite(RESP_OFF, 0);
    }

    /** The looks at the CMD and STATUS cells with which the terminal waits for a reset. */
    method TerminalWaits(step: Step)
      requires Valid() && (step.PollEcho? || step.ReadPhase?)
      modifies this`terminal, this`lastPhase, this`lastCmd, this`model, this`trace
      ensures Valid() && Accessed(old(model), old(trace), step)
    {
      StatusByteReads(model.statusCell);
      if step.PollEcho? && terminal.Settling? {
        terminal := if cmdEcho == ECHO_RESET then Echoed else Settling;
        Record(step);
      } else if step.ReadPhase? && terminal.Echoed? {
        terminal, lastPhase := Loop, FlagsOf(status).phase;
        Record(step);
      }
    }

    /** A look at STATUS within a session and what the terminal's program makes of it. */
    method TerminalPolls(step: Step)
      requires Valid() && (step.PollStatus? || step.DrainStatus?)
      modifies this`terminal, this`model, this`trace
      ensures Valid() && Accessed(old(model), old(trace), step)
    {
      if terminal.Loop? {
        StatusByteReads(model.statusCell);
        var seen := FlagsOf(status);
        terminal := if step.PollStatus? then LookAtStatus(seen, lastPhase) else LookForByte(seen, lastPhase);
        Record(step);
      }
    }

    /** A read of the RESP cell, or the terminal program started anew. */
    method TerminalReadsResp(step: Step)
      requires Valid() && (step.ReadResp? || step.Reread? || step.Restart?)
      modifies this`terminal, this`model, this`trace
      ensures Valid() && Accessed(old(model), old(trace), step)
    {
      if step.ReadResp? && terminal.HaveByte? {
        terminal := Read(terminal.phase, respByte, false);
        Record(step);
      } else if step.Reread? && terminal.Read? {
        terminal := Read(terminal.phase, respByte, respByte == terminal.d);
        Record(step);
      } else if step.Restart? && terminal.Loop? {
        terminal := Probe;
        Record(step);
      }
    }

    /** Either nothing happened or the recorded run is one terminal step longer. */
    ghost predicate Accessed(was: State, before: seq<Step>, step: Step)
      reads this
    {
      || (model == was && trace == before)
      || (Enabled(was, step) && model == Next(was, step) && trace == before + [step])
    }

    method Access(step: Step)
      requires Valid() && !ByCore0(step)
      modifies this`cmdHead, cmdSlots, this`cmdDrop, this`cmdEcho, this`ack, this`resetReq
      modifies this`terminal, this`lastPhase, this`lastCmd, this`model, this`trace
      ensures Valid() && old(trace) <= trace && ByTerminal(old(model), model)
    {
      OneByTerminal(model, respSlots.Length - 1, trace, step);
      match step
      case WriteCmd(b) => TerminalCommands(b);
      case WriteStatus => TerminalResets();
      case Acknowledge => TerminalAcks();
      case PollEcho | ReadPhase => TerminalWaits(step);
      case PollStatus | DrainStatus => TerminalPolls(step);
      case ReadResp | Reread | Restart => TerminalReadsResp(step);
    }

    /** The terminal makes any number of accesses. */
    method Bus()
      requires Valid()
      modifies this`cmdHead, cmdSlots, this`cmdDrop, this`cmdEcho, this`ack, this`resetReq
      modifies this`terminal, this`lastPhase, this`lastCmd, this`model, this`trace
      ensures Valid() && old(trace) <= trace && ByTerminal(old(model), model)
    {
      var accesses: int := *;
      while accesses > 0
        invariant Valid() && old(trace) <= trace && ByTerminal(old(model), model)
      {
        var step: Step := *;
        if !ByCore0(step) {
          ghost var was := model;
          Access(step);
          TerminalSteps(old(model), was, model);
        }
        accesses := accesses - 1;
      }
    }

    // ---------------------------------------------------------------- core 0

    method StatusStore()
      requires Valid() && model.core0.Running?
      modifies this`status, this`model, this`trace
      ensures Valid() && trace == old(trace) + [StoreStatus] && model == old(model).(statusCell := flags)
    {
      status := StatusByte(flags);
      Record(StoreStatus);
    }

    /** Moves the oldest byte from the FIFO to the RESP cell, under a new phase. */
    method HandOut()
      requires Valid() && model.core0.Running? && served == ack && respTail != respHead
      modifies this`respTail, this`respByte, this`flags, this`served, this`model, this`trace
      ensures Valid() && Enabled(old(model), PublishByte)
      ensures model == Next(old(model), PublishByte) && trace == old(trace) + [PublishByte]
    {
      Ring.PopsFirst(respSlots[..], respHead, respTail);
      Record(PublishByte);
      respByte := respSlots[respTail];
      respTail := Ring.After(respTail, respSlots.Length);
      flags := flags.(phase := !flags.phase, ready := true);
      served := Succ(served);
    }

    /** The FIFO has drained: READY goes down, the phase stays. */
    method DropReadyFlag()
      requires Valid() && model.core0.Running? && served == ack && respTail == respHead && flags.ready
      modifies this`flags, this`model, this`trace
      ensures Valid() && Enabled(old(model), DropReady)
      ensures model == Next(old(model), DropReady) && trace == old(trace) + [DropReady]
    {
      Ring.FullIff(respSlots[..], respHead, respTail);
      flags := flags.(ready := false);
      Record(DropReady);
    }

    /**
     * Hands out the next byte once the last one is acknowledged, the byte before the STATUS that announces it.
     * With nothing left to hand out READY goes down.
     */
    method Publish()
      requires Valid() && model.core0.Running?
      modifies this`cmdHead, cmdSlots, this`cmdDrop, this`cmdEcho, this`ack, this`resetReq
      modifies this`terminal, this`lastPhase, this`lastCmd, this`model, this`trace
      modifies this`respTail, this`respByte, this`flags, this`served, this`status, this`rounds
      ensures Valid() && old(trace) <= trace && Published(old(model), model) && rounds == old(rounds) + 1
      ensures |old(model).fifo| <= |model.fifo| + 1
      ensures PublishedOnce(old(model), model)
    {
      Reached(respSlots.Length - 1, trace, model);
      rounds := rounds + 1;
      Bus();
      ghost var free := model;
      TerminalPublishes(old(model), free);
      var empty := Empty();
      if served == ack && (!empty || flags.ready) {
        PublishNow();
        PublishesMore(old(model), free, model);
      }
      PublishesOnce(old(model), free, model);
    }

    /** The last byte is acknowledged, and there is something to tell the terminal. */
    method PublishNow()
      requires Valid() && model.core0.Running? && served == ack && (model.fifo != [] || flags.ready)
      modifies this`cmdHead, cmdSlots, this`cmdDrop, this`cmdEcho, this`ack, this`resetReq
      modifies this`terminal, this`lastPhase, this`lastCmd, this`model, this`trace
      modifies this`respTail, this`respByte, this`flags, this`served, this`status
      ensures Valid() && old(trace) <= trace && Published(old(model), model)
      ensures |old(model).fifo| <= |model.fifo| + 1
      ensures if old(model).fifo != [] then HandedOut(old(model), model) else Drained(old(model), model)
    {
      Change();
      ghost var changed := model;
      Announce();
      PublishesMore(old(model), changed, model);
    }

    /** What core 0 does to its own part when the last byte is acknowledged. */
    method Change()
      requires Valid() && model.core0.Running? && served == ack && (model.fifo != [] || flags.ready)
      modifies this`respTail, this`respByte, this`flags, this`served, this`model, this`trace
      ensures Valid() && old(trace) <= trace && Published(old(model), model) && NothingNew(model)
      ensures model == Next(old(model), if old(model).fifo != [] then PublishByte else DropReady)
    {
      ghost var was := model;
      Quiet();
      if respTail != respHead {
        HandOut();
        StepPublishes(was, PublishByte);
      } else {
        DropReadyFlag();
        StepPublishes(was, DropReady);
      }
    }

    /** With the last byte acknowledged the terminal has none in view. */
    lemma Quiet()
      requires Valid() && served == ack
      ensures NothingNew(model) && (model.fifo == [] <==> respTail == respHead)
    {
      Reached(respSlots.Length - 1, trace, model);
      AckedMeansNothingNew(model);
      Ring.FullIff(respSlots[..], respHead, respTail);
    }

    /** The terminal may come in before the new flags are stored. */
    method Announce()
      requires Valid() && model.core0.Running?
      modifies this`cmdHead, cmdSlots, this`cmdDrop, this`cmdEcho, this`ack, this`resetReq
      modifies this`terminal, this`lastPhase, this`lastCmd, this`model, this`trace, this`status
      ensures Valid() && old(trace) <= trace && Published(old(model), model) && model.fifo == old(model).fifo
      ensures model.flags == old(model).flags == model.statusCell
      ensures model.served == old(model).served && model.respCell == old(model).respCell
      ensures NothingNew(old(model)) ==> model.ack == old(model).ack
    {
      Bus();
      TerminalPublishes(old(model), model);
      ghost var middle := model;
      StepPublishes(model, StoreStatus);
      StatusStore();
      PublishesMore(old(model), middle, model);
    }

    /**
     * Waits for a slot in the FIFO, publishing as the terminal acknowledges; `heedReset` makes a pending
     * reset end the wait.
     */
    method AwaitRoom(heedReset: bool) returns (outcome: Wait)
      requires Valid() && model.core0.Running?
      modifies this`cmdHead, cmdSlots, this`cmdDrop, this`cmdEcho, this`ack, this`resetReq
      modifies this`terminal, this`lastPhase, this`lastCmd, this`model, this`trace
      modifies this`respTail, this`respByte, this`flags, this`served, this`status, this`rounds
      ensures Valid() && old(trace) <= trace && Published(old(model), model)
      ensures rounds >= old(rounds)
      ensures match outcome
              case Room => |model.fifo| < model.capacity
              case ResetPending => heedReset && model.resetReq
              case TimedOut =>
                && |model.fifo| == model.capacity && rounds >= old(rounds) + SPIN_MAX
                && (model.capacity > 0 ==> served != ack && ack == old(ack))
    {
      var full := Full();
      var spins := 0;
      while full
        invariant Valid() && old(trace) <= trace && Published(old(model), model)
        invariant full <==> |model.fifo| == model.capacity
        invariant spins < SPIN_MAX && rounds == old(rounds) + spins
        invariant model.capacity > 0 && full ==> |old(model).fifo| == |model.fifo| && ack == old(ack)
        decreases SPIN_MAX - spins
      {
        if heedReset && resetReq { return ResetPending; }
        ghost var before := model;
        WaitingPublish();
        PublishesMore(old(model), before, model);
        full := Full();
        if !full { break; }
        spins := spins + 1;
        if spins >= SPIN_MAX { return TimedOut; }
      }
      outcome := Room;
    }

    /** A round of a wait: as long as the terminal does not acknowledge, its byte stays out. */
    method WaitingPublish()
      requires Valid() && model.core0.Running?
      modifies this`cmdHead, cmdSlots, this`cmdDrop, this`cmdEcho, this`ack, this`resetReq
      modifies this`terminal, this`lastPhase, this`lastCmd, this`model, this`trace
      modifies this`respTail, this`respByte, this`flags, this`served, this`status, this`rounds
      ensures Valid() && old(trace) <= trace && Published(old(model), model) && rounds == old(rounds) + 1
      ensures (old(model).fifo != [] || old(served != ack)) && ack == old(ack) ==> served != ack
      ensures |model.fifo| == |old(model).fifo| > 0 ==> served != ack && ack == old(ack)
    {
      Publish();
      StillOut(old(model), model);
    }

    method Full() returns (full: bool)
      requires Valid()
      ensures full <==> |model.fifo| == model.capacity
      ensures |model.fifo| <= model.capacity
    {
      Ring.FullIff(respSlots[..], respHead, respTail);
      full := Ring.After(respHead, respSlots.Length) == respTail;
    }

    method Empty() returns (empty: bool)
      requires Valid()
      ensures empty <==> model.fifo == []
    {
      Ring.FullIff(respSlots[..], respHead, respTail);
      empty := respTail == respHead;
    }

    /** Puts a byte in the free slot. */
    method Enqueue(b: byte)
      requires Valid() && model.core0.Running? && model.active && !flags.overflow && |model.fifo| < model.capacity
      modifies respSlots, this`respHead, this`model, this`trace
      ensures Valid() && trace == old(trace) + [Ask(b)]
      ensures Extended(old(model), model) && !flags.overflow
      ensures model.asked == old(model).asked + [b] && model.log == old(model).log + [b]
    {
      Ring.FullIff(respSlots[..], respHead, respTail);
      Ring.Pushes(respSlots[..], respHead, respTail, b);
      respSlots[respHead] := b;
      respHead := Ring.After(respHead, respSlots.Length);
      Record(Ask(b));
    }

    /** Latches OVERFLOW; `step` says whether a byte is dropped with it. */
    method Overflow(step: Step)
      requires Valid() && model.core0.Running? && (step.GiveUp? || step.Abandon?) && Enabled(model, step)
      modifies this`cmdHead, cmdSlots, this`cmdDrop, this`cmdEcho, this`ack, this`resetReq
      modifies this`terminal, this`lastPhase, this`lastCmd, this`model, this`trace, this`flags, this`status
      ensures Valid() && old(trace) <= trace && Extended(Next(old(model), step), model)
      ensures flags.overflow && model.asked == Next(old(model), step).asked && model.log == old(model).log
    {
      flags := flags.(overflow := true);
      Record(step);
      ghost var latched := model;
      Announce();
      PublishedExtends(latched, model);
    }

    /** Queues one byte, or latches OVERFLOW when the terminal does not drain the full FIFO. */
    method WriteByte(b: byte, heedReset: bool) returns (outcome: Wait)
      requires Valid() && model.core0.Running? && model.active && !flags.overflow
      modifies this`cmdHead, cmdSlots, this`cmdDrop, this`cmdEcho, this`ack, this`resetReq
      modifies this`terminal, this`lastPhase, this`lastCmd, this`model, this`trace
      modifies this`respTail, this`respByte, this`flags, this`served, this`status, this`rounds, respSlots, this`respHead
      ensures Valid() && old(trace) <= trace && Extended(old(model), model)
      ensures model.asked == if outcome.ResetPending? then old(model).asked else old(model).asked + [b]
      ensures model.log == if outcome.Room? then old(model).log + [b] else old(model).log
      ensures flags.overflow == outcome.TimedOut? && (outcome.ResetPending? ==> heedReset && resetReq)
      ensures rounds >= old(rounds) && (outcome.TimedOut? ==> rounds >= old(rounds) + SPIN_MAX)
    {
      outcome := AwaitRoom(heedReset);
      ghost var waited := model;
      PublishedExtends(old(model), waited);
      if outcome.TimedOut? {
        Refuse(b);
        ExtendsMore(old(model), waited, model);
      } else if outcome.Room? {
        Enqueue(b);
        ExtendsMore(old(model), waited, model);
      }
    }

    /** The byte is lost, and OVERFLOW says so. */
    method Refuse(b: byte)
      requires Valid() && model.core0.Running? && Enabled(model, GiveUp(b))
      modifies this`cmdHead, cmdSlots, this`cmdDrop, this`cmdEcho, this`ack, this`resetReq
      modifies this`terminal, this`lastPhase, this`lastCmd, this`model, this`trace, this`flags, this`status
      ensures Valid() && old(trace) <= trace && Extended(old(model), model) && flags.overflow
      ensures model.asked == old(model).asked + [b] && model.log == old(model).log
    {
      Overflow(GiveUp(b));
      ExtendsMore(old(model), Next(old(model), GiveUp(b)), model);
    }

    /** Console output: all of `buf` is asked for; it is accepted up to the byte at which the FIFO stays full. */
    method RespWrite(buf: seq<byte>)
      requires Valid() && model.core0.Running? && model.active
      modifies this`cmdHead, cmdSlots, this`cmdDrop, this`cmdEcho, this`ack, this`resetReq
      modifies this`terminal, this`lastPhase, this`lastCmd, this`model, this`trace
      modifies this`respTail, this`respByte, this`flags, this`served, this`status, this`rounds, respSlots, this`respHead
      ensures Valid() && old(trace) <= trace && Extended(old(model), model)
      ensures model.asked == old(model).asked + buf
      ensures !flags.overflow ==> model.log == old(model).log + buf
      ensures rounds >= old(rounds) && (flags.overflow && !old(flags.overflow) ==> rounds >= old(rounds) + SPIN_MAX)
    {
      for i := 0 to |buf|
        invariant Valid() && old(trace) <= trace && Extended(old(model), model)
        invariant model.core0.Running? && model.active
        invariant model.asked == old(model).asked + buf[..i]
        invariant !flags.overflow ==> model.log == old(model).log + buf[..i]
        invariant rounds >= old(rounds) && (flags.overflow && !old(flags.overflow) ==> rounds >= old(rounds) + SPIN_MAX)
      {
        if flags.overflow {
          Joins(old(model).asked, buf, i);
          DropRest(buf[i..]);
          return;
        }
        ghost var before := model;
        var _ := WriteByte(buf[i], false);
        ExtendsMore(old(model), before, model);
        Grows(old(model).asked, buf, i);
        Grows(old(model).log, buf, i);
      }
      assert buf[..|buf|] == buf;
    }

    /** The first half of a raw download: the whole buffer into the FIFO. */
    method QueueAll(buf: seq<byte>) returns (queued: bool)
      requires Valid() && model.core0.Running? && model.active && !flags.overflow
      modifies this`cmdHead, cmdSlots, this`cmdDrop, this`cmdEcho, this`ack, this`resetReq
      modifies this`terminal, this`lastPhase, this`lastCmd, this`model, this`trace
      modifies this`respTail, this`respByte, this`flags, this`served, this`status, this`rounds, respSlots, this`respHead
      ensures Valid() && old(trace) <= trace && Extended(old(model), model)
      ensures queued ==> !flags.overflow && model.log == old(model).log + buf
      ensures !queued ==> flags.overflow || resetReq
      ensures rounds >= old(rounds) && (flags.overflow && !old(flags.overflow) ==> rounds >= old(rounds) + SPIN_MAX)
    {
      for i := 0 to |buf|
        invariant Valid() && old(trace) <= trace && Extended(old(model), model)
        invariant !flags.overflow && model.log == old(model).log + buf[..i] && rounds >= old(rounds)
      {
        ghost var before := model;
        var outcome := WriteByte(buf[i], true);
        ExtendsMore(old(model), before, model);
        if !outcome.Room? { return false; }
        Grows(old(model).log, buf, i);
      }
      assert buf[..|buf|] == buf;
      queued := true;
    }

    /**
     * Raw download: true means every byte of the buffer, and everything queued before it, has reached the
     * terminal in order.
     */
    method BlobSend(buf: seq<byte>) returns (delivered: bool)
      requires Valid() && model.core0.Running? && model.active
      modifies this`cmdHead, cmdSlots, this`cmdDrop, this`cmdEcho, this`ack, this`resetReq
      modifies this`terminal, this`lastPhase, this`lastCmd, this`model, this`trace
      modifies this`respTail, this`respByte, this`flags, this`served, this`status, this`rounds, respSlots, this`respHead
      ensures Valid() && old(trace) <= trace && Extended(old(model), model)
      ensures delivered ==> !flags.overflow && model.log == old(model).log + buf && Left(model) == 0
      ensures !delivered ==> flags.overflow || resetReq
      ensures rounds >= old(rounds) && (flags.overflow && !old(flags.overflow) ==> rounds >= old(rounds) + SPIN_MAX)
    {
      if flags.overflow || resetReq { return false; }
      delivered := QueueAll(buf);
      if !delivered { return; }
      ghost var queued, first := model, trace;
      delivered := DrainAll();
      ExtendsMore(old(model), queued, model);
      Longer(old(trace), first, trace);
    }

    /**
     * Publishes until every byte is acknowledged.  Each acknowledgement renews the patience, so what
     * falls is the pair of bytes still to be acknowledged and spins left.
     */
    method AwaitDrained() returns (outcome: Wait)
      requires Valid() && model.core0.Running?
      modifies this`cmdHead, cmdSlots, this`cmdDrop, this`cmdEcho, this`ack, this`resetReq
      modifies this`terminal, this`lastPhase, this`lastCmd, this`model, this`trace
      modifies this`respTail, this`respByte, this`flags, this`served, this`status, this`rounds
      ensures Valid() && old(trace) <= trace && Published(old(model), model)
      ensures rounds >= old(rounds)
      ensures match outcome
              case Room => Left(model) == 0
              case ResetPending => resetReq
              case TimedOut => model.served != model.ack && rounds >= old(rounds) + SPIN_MAX
    {
      var empty := Empty();
      var spins := 0;
      while !empty || served != ack
        invariant Valid() && old(trace) <= trace && Published(old(model), model)
        invariant (empty <==> model.fifo == []) && spins < SPIN_MAX && rounds >= old(rounds) + spins
        decreases Left(model), SPIN_MAX - spins
      {
        if resetReq { return ResetPending; }
        ghost var before := model;
        var acked := ack;
        WaitingPublish();
        PublishesMore(old(model), before, model);
        empty := Empty();
        if ack != acked {
          spins := 0;
        } else {
          spins := spins + 1;
          if spins >= SPIN_MAX { return TimedOut; }
        }
      }
      outcome := Room;
    }

    /** The second half of a raw download: until the last byte is acknowledged, or OVERFLOW. */
    method DrainAll() returns (delivered: bool)
      requires Valid() && model.core0.Running? && model.active && !flags.overflow
      modifies this`cmdHead, cmdSlots, this`cmdDrop, this`cmdEcho, this`ack, this`resetReq
      modifies this`terminal, this`lastPhase, this`lastCmd, this`model, this`trace
      modifies this`respTail, this`respByte, this`flags, this`served, this`status, this`rounds
      ensures Valid() && old(trace) <= trace && Extended(old(model), model) && model.log == old(model).log
      ensures delivered ==> !flags.overflow && Left(model) == 0
      ensures !delivered ==> flags.overflow || resetReq
      ensures rounds >= old(rounds) && (flags.overflow && !old(flags.overflow) ==> rounds >= old(rounds) + SPIN_MAX)
    {
      var outcome := AwaitDrained();
      PublishedExtends(old(model), model);
      ghost var waited := model;
      if outcome.TimedOut? {
        Overflow(Abandon);
        ExtendsMore(old(model), Next(waited, Abandon), model);
      }
      delivered := outcome.Room?;
    }

    /** Once OVERFLOW is latched, what is asked for is only recorded as lost. */
    ghost method DropRest(lost: seq<byte>)
      requires Valid() && model.core0.Running? && model.active && flags.overflow
      modifies this`model, this`trace
      ensures Valid() && old(trace) <= trace
      ensures model == old(model).(asked := old(model).asked + lost)
    {
      for i := 0 to |lost|
        invariant Valid() && old(trace) <= trace
        invariant model == old(model).(asked := old(model).asked + lost[..i])
      {
        Grows(old(model).asked, lost, i);
        Record(Ask(lost[i]));
      }
      assert lost[..|lost|] == lost;
    }

    /** Takes the oldest command byte; false when none had come in. */
    method CmdPop() returns (ok: bool, b: byte)
      requires Valid() && model.core0.Running?
      modifies this`cmdHead, cmdSlots, this`cmdDrop, this`cmdEcho, this`ack, this`resetReq
      modifies this`terminal, this`lastPhase, this`lastCmd, this`model, this`trace, this`cmdTail
      ensures Valid() && old(trace) <= trace && model.core0.Running?
      ensures ok ==> model.popped == old(model).popped + [b] && model.active
      ensures !ok ==> old(model).ring == [] && model.popped == old(model).popped && model.active == old(model).active
      ensures old(model).ring != [] ==> ok && b == old(model).ring[0]
      ensures model.asked == old(model).asked && model.log == old(model).log && model.fifo == old(model).fifo
    {
      b := 0;
      Ring.FullIff(cmdSlots[..], cmdHead, cmdTail);
      if cmdTail == cmdHead { return false, 0; }
      Bus();
      Ring.FullIff(cmdSlots[..], cmdHead, cmdTail);
      Ring.Pops(cmdSlots[..], cmdHead, cmdTail);
      b := cmdSlots[cmdTail];
      ok := true;
      Bus();
      Ring.FullIff(cmdSlots[..], cmdHead, cmdTail);
      Ring.Pops(cmdSlots[..], cmdHead, cmdTail);
      Free();
    }

    /** Gives the oldest slot back to the producer. */
    method Free()
      requires Valid() && model.core0.Running? && cmdHead != cmdTail && model.ring != []
      modifies this`cmdTail, this`model, this`trace
      ensures Valid() && trace == old(trace) + [Pop] && model == Next(old(model), Pop)
    {
      Ring.PopsFirst(cmdSlots[..], cmdHead, cmdTail);
      cmdTail := Ring.After(cmdTail, CMD_RING_SIZE);
      Record(Pop);
    }

    /**
     * Serves a pending reset: both directions are flushed, then STATUS shows it, then the echo says so.
     * The terminal may look in between but finds the old echo until the last store.
     */
    method TakeResetRequest() returns (performed: bool)
      requires Valid() && model.core0.Running?
      modifies this`cmdHead, cmdSlots, this`cmdDrop, this`cmdEcho, this`ack, this`resetReq
      modifies this`terminal, this`lastPhase, this`lastCmd, this`model, this`trace
      modifies this`respHead, this`respTail, this`served, this`cmdTail, this`cmdDropSeen, this`flags, this`status
      ensures Valid() && old(trace) <= trace && model.core0.Running?
      ensures performed == old(resetReq) && (!performed ==> model == old(model))
      ensures performed ==>
                && Flushed(model) && model.cmdCell == ECHO_RESET && !resetReq
                && flags == Flags(false, false, false, old(flags).phase) && model.statusCell == flags
    {
      if !resetReq { return false; }
      FlushBoth();
      Bus();
      ShowReset();
      Bus();
      EchoReset();
      performed := true;
    }

    method ShowReset()
      requires Valid() && model.core0.ResetStatus?
      modifies this`status, this`model, this`trace
      ensures Valid() && trace == old(trace) + [StoreResetStatus]
      ensures model == old(model).(statusCell := flags, core0 := ResetEcho)
    {
      status := StatusByte(flags);
      Record(StoreResetStatus);
    }

    method EchoReset()
      requires Valid() && model.core0.ResetEcho?
      modifies this`cmdEcho, this`model, this`trace
      ensures Valid() && trace == old(trace) + [StoreEcho]
      ensures model == old(model).(cmdCell := ECHO_RESET, core0 := Running)
    {
      cmdEcho := ECHO_RESET;
      Record(StoreEcho);
    }

    method FlushBoth()
      requires Valid() && model.core0.Running? && resetReq
      modifies this`resetReq, this`model, this`trace
      modifies this`respHead, this`respTail, this`served, this`cmdTail, this`cmdDropSeen, this`flags
      ensures Valid() && trace == old(trace) + [TakeReset]
      ensures model == Flush(old(model)) && flags == model.flags
    {
      Ring.FullIff(cmdSlots[..], cmdHead, cmdHead);
      Ring.FullIff(respSlots[..], 0, 0);
      RecordFlush();
      respHead, respTail := 0, 0;
      served := ack;
      cmdTail := cmdHead;
      cmdDropSeen := cmdDrop;
      flags := Flags(false, false, false, flags.phase);
      resetReq := false;
    }

    ghost method RecordFlush()
      requires Recorded() && Enabled(model, TakeReset)
      modifies this`model, this`trace
      ensures Recorded() && trace == old(trace) + [TakeReset] && model == Flush(old(model))
    {
      Record(TakeReset);
    }

    /** One round of core 0: fold the drop counter into CMD_FULL, then hand out a burst while it is acknowledged. */
    method Pump()
      requires Valid() && model.core0.Running?
      modifies this`cmdHead, cmdSlots, this`cmdDrop, this`cmdEcho, this`ack, this`resetReq
      modifies this`terminal, this`lastPhase, this`lastCmd, this`model, this`trace, this`cmdDropSeen
      modifies this`respTail, this`respByte, this`flags, this`served, this`status, this`rounds
      ensures Valid() && old(trace) <= trace && Published(Next(old(model), FoldDrops), model)
      ensures model.statusCell == flags && |old(model).fifo| <= |model.fifo| + 64
      ensures Bursts(old(model), model)
    {
      FoldDropCount();
      ghost var folded := model;
      Burst();
      ghost var handed := model;
      StepPublishes(model, StoreStatus);
      StatusStore();
      PublishesMore(folded, handed, model);
      BurstsAround(old(model), folded, handed, model);
    }

    method Burst()
      requires Valid() && model.core0.Running?
      modifies this`cmdHead, cmdSlots, this`cmdDrop, this`cmdEcho, this`ack, this`resetReq
      modifies this`terminal, this`lastPhase, this`lastCmd, this`model, this`trace
      modifies this`respTail, this`respByte, this`flags, this`served, this`status, this`rounds
      ensures Valid() && old(trace) <= trace && Published(old(model), model)
      ensures |old(model).fifo| <= |model.fifo| + PUMP_BURST
      ensures Bursts(old(model), model)
    {
      var burst := 0;
      ghost var was := model;
      TerminalPublishes(was, was);
      while burst < PUMP_BURST
        invariant Valid() && old(trace) <= trace && Published(was, model)
        invariant burst <= PUMP_BURST && |was.fifo| <= |model.fifo| + burst && Bursting(was, model, burst)
        decreases PUMP_BURST - burst
      {
        ghost var before := trace;
        var more := BurstRound(was, burst);
        Longer(old(trace), before, trace);
        if !more { return; }
        burst := burst + 1;
      }
      BurstFull(was, model);
    }

    /** One byte of a burst: goes on only if the terminal has acknowledged it in time. */
    method BurstRound(ghost was: State, ghost burst: nat) returns (more: bool)
      requires Valid() && model.core0.Running? && burst < PUMP_BURST
      requires Published(was, model) && |was.fifo| <= |model.fifo| + burst && Bursting(was, model, burst)
      modifies this`cmdHead, cmdSlots, this`cmdDrop, this`cmdEcho, this`ack, this`resetReq
      modifies this`terminal, this`lastPhase, this`lastCmd, this`model, this`trace
      modifies this`respTail, this`respByte, this`flags, this`served, this`status, this`rounds
      ensures Valid() && old(trace) <= trace && Published(was, model)
      ensures |was.fifo| <= |model.fifo| + burst + 1
      ensures if more then Bursting(was, model, burst + 1) else Bursts(was, model)
    {
      ghost var before := model;
      Publish();
      ghost var handed := model;
      PublishesMore(was, before, handed);
      if served == ack {
        BurstEnds(was, before, handed, burst);
        return false;
      }
      AwaitAck();
      PublishesMore(was, handed, model);
      BurstOnce(was, before, handed, model, burst);
      more := served == ack;
    }

    method FoldDropCount()
      requires Valid() && model.core0.Running?
      modifies this`cmdDropSeen, this`flags, this`model, this`trace
      ensures Valid() && trace == old(trace) + [FoldDrops] && model == Next(old(model), FoldDrops)
    {
      Ring.FullIff(cmdSlots[..], cmdHead, cmdTail);
      if cmdDrop != cmdDropSeen {
        cmdDropSeen := cmdDrop;
        flags := flags.(cmdFull := true);
      }
      if cmdHead == cmdTail {
        flags := flags.(cmdFull := false);
      }
      Record(FoldDrops);
    }

    /** A bounded wait for the byte just handed out. */
    method AwaitAck()
      requires Valid() && model.core0.Running?
      modifies this`cmdHead, cmdSlots, this`cmdDrop, this`cmdEcho, this`ack, this`resetReq
      modifies this`terminal, this`lastPhase, this`lastCmd, this`model, this`trace
      ensures Valid() && old(trace) <= trace && Published(old(model), model) && model.fifo == old(model).fifo
      ensures model.served == old(model).served
    {
      var spins := 1;
      TerminalPublishes(old(model), model);
      while served != ack && spins < PUMP_ACK_SPIN
        invariant Valid() && old(trace) <= trace && Published(old(model), model) && model.fifo == old(model).fifo
        invariant model.served == old(model).served
        decreases PUMP_ACK_SPIN - spins
      {
        ghost var before := model;
        Bus();
        TerminalPublishes(before, model);
        PublishesMore(old(model), before, model);
        spins := spins + 1;
      }
    }
  }

  /**
   * A burst that starts with every byte acknowledged hands one out if there is any; it ends with a byte the
   * terminal has not acknowledged in time, with nothing left, or after 64 bytes, one of which may have been out
   * before.
   */
  predicate Bursts(was: State, now: State) {
    && (was.served == was.ack && was.fifo != [] ==> |now.fifo| < |was.fifo|)
    && (now.served == now.ack ==> now.fifo == [] || |was.fifo| >= |now.fifo| + 63)
  }

  /** Bytes handed out and acknowledged so far in a burst: one may have been out before. */
  predicate Bursting(was: State, now: State, burst: nat) {
    if burst == 0 then now == was
    else
      && now.served == now.ack && |was.fifo| >= |now.fifo| + burst - 1
      && (was.served == was.ack && was.fifo != [] ==> |was.fifo| > |now.fifo|)
  }

  lemma BurstOnce(was: State, before: State, handed: State, now: State, burst: nat)
    requires Bursting(was, before, burst) && burst < PUMP_BURST && PublishedOnce(before, handed)
    requires now.fifo == handed.fifo && now.served == handed.served && handed.served != handed.ack
    ensures now.served == now.ack ==> Bursting(was, now, burst + 1)
    ensures now.served != now.ack ==> Bursts(was, now)
  {
  }

  lemma BurstEnds(was: State, before: State, now: State, burst: nat)
    requires Bursting(was, before, burst) && burst < PUMP_BURST && PublishedOnce(before, now) && now.served == now.ack
    ensures Bursts(was, now)
  {
  }

  lemma BurstFull(was: State, now: State)
    requires Bursting(was, now, PUMP_BURST)
    ensures Bursts(was, now)
  {
  }

  lemma BurstsAround(was: State, folded: State, handed: State, now: State)
    requires Bursts(folded, handed)
    requires folded.fifo == was.fifo && folded.served == was.served && folded.ack == was.ack
    requires now.fifo == handed.fifo && now.served == handed.served && now.ack == handed.ack
    ensures Bursts(was, now)
  {
  }

  lemma Longer(a: seq<Step>, b: seq<Step>, c: seq<Step>)
    requires a <= b <= c
    ensures a <= c
  {
  }

  lemma Grows(first: seq<byte>, buf: seq<byte>, i: nat)
    requires i < |buf|
    ensures first + buf[..i] + [buf[i]] == first + buf[..i + 1]
  {
  }

  lemma Joins(first: seq<byte>, buf: seq<byte>, i: nat)
    requires i <= |buf|
    ensures first + buf[..i] + buf[i..] == first + buf
  {
  }

  lemma TerminalSkips(s: State)
    ensures ByTerminal(s, s)
  {
  }

  lemma OneByTerminal(s: State, capacity: nat, steps: seq<Step>, step: Step)
    requires Reaches(capacity, steps, s) && !ByCore0(step)
    ensures Enabled(s, step) ==> ByTerminal(s, Next(s, step))
  {
    Reached(capacity, steps, s);
    if Enabled(s, step) {
      if Writes(step) {
        TerminalWrites(s, step);
      } else {
        TerminalReads(s, step);
      }
    }
  }
}
