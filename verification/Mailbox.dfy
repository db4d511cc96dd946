/** The console mailbox as the two cores run it; its history is always a run of the protocol. */
module Mailbox {
  import opened Basics
  import opened MailboxProtocol
  import ImageCopy

  datatype Answer = NoResult | Answer(result: Result)

  /** How long core 0 waits, in milliseconds. */
  function Timeout(op: Op): nat {
    match op
    case Ping | Status | WifiGet | LsSd | Peek => 5000
    case LsFuji | Mount | Eject => 10000
    case WifiSet | Scan => 20000
    case Create => 60000
    case Copy => 300000
    case Rm | Unknown => 10000
  }

  /**
   * What an answered COPY has made of the card's files: good, the new target equals the source; bad, they are
   * as before or, if not even the target could be removed, a beginning of the source is left in it.
   */
  predicate Copied(r: Request, ok: bool, was: ImageCopy.Files, now: ImageCopy.Files) {
    if ok then r.arg1 in was && r.arg2 !in was && now == was[r.arg2 := was[r.arg1]]
    else
      || now == was
      || (&& r.arg1 in was && r.arg2 !in was && r.arg2 in now && now[r.arg2] <= was[r.arg1]
          && now == was[r.arg2 := now[r.arg2]])
  }

  /** The files at each point of a request, given those when it was posted. */
  predicate FilesOk(s: State, atPost: ImageCopy.Files, before: ImageCopy.Files, files: ImageCopy.Files) {
    if s.core1.Filled? || s.state.Done? then
      s.slot.op.Copy? ==> s.res.Result? && Copied(s.slot, s.res.ok, atPost, files)
    else s.state.Pending? ==> if s.copying then before == atPost else files == atPost
  }

  class ConsoleMailbox {
    const card: ImageCopy.Card
    var state: SlotState
    var slot: Request
    var res: Result
    var copying: bool
    // labels submissions, so that results can be told apart
    var serial: nat
    ghost var model: State
    ghost var trace: seq<Step>
    // the card's files when the request in the slot was posted
    ghost var atPost: ImageCopy.Files

    ghost predicate Valid()
      reads this, card
    {
      && Reaches(trace, model) && card.Valid()
      && model.state == state && model.slot == slot && model.res == res && model.serial == serial
      && model.copying == copying && model.active == card.active
      && (copying ==> card.source == slot.arg1 && card.target == slot.arg2)
      && FilesOk(model, atPost, card.before, card.files)
    }

    /** Core 1 is between passes and core 0 between submissions. */
    ghost predicate Resting()
      reads this
    {
      model.core1.Outside? && model.core0.Free?
    }

    constructor (card: ImageCopy.Card)
      requires card.Valid() && !card.active
      ensures Valid() && Resting() && this.card == card && model == PowerOn()
    {
      this.card := card;
      state, slot, res, copying, serial := Idle, NoRequest, Blank, false, 0;
      model, trace, atPost := PowerOn(), [], card.files;
    }

    ghost method Record(step: Step)
      requires Reaches(trace, model) && Enabled(model, step)
      modifies this`model, this`trace
      ensures Reaches(trace, model) && model == Next(old(model), step) && trace == old(trace) + [step]
    {
      ReachesNext(trace, model, step);
      model, trace := Next(model, step), trace + [step];
    }

    /** The card has a reason not to start the copy the slot asks for. */
    ghost predicate TurnedDown(faults: nat)
      reads this, card
    {
      exists error :: card.Refused(slot.arg1, slot.arg2, error, faults)
    }

    /**
     * One pass of core 1: nothing, one chunk of a copy, or a whole operation.  A request is then done, or it is
     * a copy that has come nearer its end; a COPY that is done has treated the files as its result says.
     */
    method Service()
      requires Valid() && model.core1.Outside?
      modifies this`state, this`res, this`copying, this`model, this`trace, card
      ensures Valid() && model.core1.Outside? && model.core0 == old(model).core0 && model.serial == old(model).serial
      ensures slot == old(slot)
      ensures old(state) != Pending ==> state == old(state) && res == old(res) && card.files == old(card.files)
      ensures old(state) == Pending ==> state == Done || (state == Pending && slot.op.Copy? && card.active)
      ensures old(state) == Pending && state == Done ==>
                res.Result? && res.of == slot && res.serial == serial && (slot.op.Unknown? ==> !res.ok)
      ensures old(state) == Pending && state == Done && slot.op.Copy? ==> Copied(slot, res.ok, atPost, card.files)
      ensures old(state) == Pending && state == Done && slot.op.Copy? && !res.ok ==>
                if old(card.active) then card.faults > old(card.faults) else TurnedDown(old(card.faults))
      ensures old(state) == Pending && old(card.active) && card.active ==> card.Remaining() < old(card.Remaining())
    {
      if state != Pending { return; }
      Record(Look);
      Reached(trace, model);
      if copying {
        ServiceCopy();
      } else {
        res := Blank;
        Record(Clear);
        if slot.op.Copy? {
          BeginCopyOp();
        } else {
          RunOperation();
        }
      }
    }

    /** Any operation but COPY: what it computes is arbitrary, an unknown one fails. */
    method RunOperation()
      requires Valid() && model.core1.Cleared? && !slot.op.Copy? && state == Pending && !copying && !card.active
      modifies this`state, this`res, this`model, this`trace, card`files
      ensures Valid() && model.core1.Outside? && model.core0 == old(model).core0 && serial == old(serial)
      ensures state == Done && res.Result? && res.of == slot && res.serial == serial && (slot.op.Unknown? ==> !res.ok)
    {
      card.OtherOperation();
      var ok: bool := *;
      res := Result(slot, serial, ok && !slot.op.Unknown?);
      Record(Run(ok));
      PublishResult();
    }

    /** A chunk of the running copy; the last one, good or bad, ends the request. */
    method ServiceCopy()
      requires Valid() && model.core1.Seen? && copying && card.active && state == Pending
      modifies this`state, this`res, this`copying, this`model, this`trace, card
      ensures Valid() && model.core1.Outside? && model.core0 == old(model).core0 && serial == old(serial)
      ensures copying == card.active && (copying ==> state == Pending && card.Remaining() < old(card.Remaining()))
      ensures !copying ==>
                && state == Done && res.Result? && res.of == slot && res.serial == serial
                && Copied(slot, res.ok, atPost, card.files) && (!res.ok ==> card.faults > old(card.faults))
    {
      Reached(trace, model);
      var step;
      ghost var removed;
      step, removed := card.CopyStep();
      if step.More? {
        Record(CopyChunk);
        return;
      }
      copying := false;
      res := Result(slot, serial, step.Complete?);
      Record(EndCopy(step.Complete?));
      PublishResult();
    }

    method BeginCopyOp()
      requires Valid() && model.core1.Cleared? && slot.op.Copy? && state == Pending && !copying
      modifies this`state, this`res, this`copying, this`model, this`trace, card
      ensures Valid() && model.core1.Outside? && model.core0 == old(model).core0 && serial == old(serial)
      ensures if copying then state == Pending && card.active else state == Done && res == Result(slot, serial, false)
      ensures !copying ==> card.files == atPost && TurnedDown(old(card.faults))
    {
      Reached(trace, model);
      var error := card.CopyBegin(slot.arg1, slot.arg2);
      if error == None {
        copying := true;
        Record(BeginCopy(true));
      } else {
        res := Result(slot, serial, false);
        Record(BeginCopy(false));
        PublishResult();
        assert card.Refused(slot.arg1, slot.arg2, error.value, old(card.faults));
      }
    }

    method PublishResult()
      requires Valid() && model.core1.Filled? && state == Pending
      modifies this`state, this`model, this`trace
      ensures Valid() && state == Done && model == old(model).(state := Done, core1 := Outside)
    {
      state := Done;
      Record(Publish);
    }

    /** Core 1 makes any number of passes. */
    method OtherCore()
      requires Valid() && model.core1.Outside?
      modifies this`state, this`res, this`copying, this`model, this`trace, card
      ensures Valid() && model.core1.Outside? && model.core0 == old(model).core0 && serial == old(serial)
      ensures slot == old(slot)
      ensures old(state) != Pending ==> state == old(state) && res == old(res) && card.files == old(card.files)
    {
      var passes: int := *;
      while passes > 0
        invariant Valid() && model.core1.Outside? && model.core0 == old(model).core0 && serial == old(serial)
        invariant slot == old(slot)
        invariant old(state) != Pending ==> state == old(state) && res == old(res) && card.files == old(card.files)
      {
        Service();
        passes := passes - 1;
      }
    }

    /**
     * Core 0 submits a request and waits.  An answer was computed from this request as it fits the slot, by
     * this very submission, and if it was a COPY its files are copied or not as the answer says; no answer
     * means that the slot was busy or the wait ran out.
     */
    method Submit(req: Request) returns (answer: Answer, ghost waited: nat)
      requires Valid() && Resting()
      modifies this, card
      ensures Valid() && Resting()
      ensures answer.Answer? ==>
                && answer.result.Result? && answer.result.of == Clipped(req)
                && answer.result.serial == serial == old(serial) + 1 && state == Idle
      ensures answer.Answer? && req.op.Copy? ==> Copied(Clipped(req), answer.result.ok, atPost, card.files)
      ensures answer.Answer? && old(state) != Pending ==> atPost == old(card.files)
      ensures answer.NoResult? ==>
                if serial == old(serial) then old(state) == Pending
                else serial == old(serial) + 1 && slot == Clipped(req) && waited == Timeout(req.op)
    {
      var free := Claim(req);
      if !free { return NoResult, 0; }
      StoreRequest(req);
      state, serial, atPost := Pending, serial + 1, card.files;
      Record(Post);
      answer, waited := AwaitAnswer(req);
    }

    /** Takes back a slot that was finished after a timeout, and looks whether it is free. */
    method Claim(req: Request) returns (free: bool)
      requires Valid() && Resting()
      modifies this`state, this`res, this`copying, this`model, this`trace, card
      ensures Valid() && model.core1.Outside? && serial == old(serial) && slot == old(slot)
      ensures if free then model.core0 == Writing(req, 0) && state == Idle
              else model.core0.Free? && old(state) == Pending
      ensures old(state) != Pending ==> card.files == old(card.files)
    {
      Record(Enter(req));
      OtherCore();
      TakeBack();
      OtherCore();
      free := state == Idle;
      Record(Check);
    }

    method TakeBack()
      requires Valid() && model.core1.Outside? && model.core0.Entered?
      modifies this`state, this`model, this`trace
      ensures Valid() && model.core1.Outside? && model.core0 == Checking(old(model).core0.req)
      ensures state == if old(state) == Done then Idle else old(state)
    {
      if state == Done { state := Idle; }
      Record(Reclaim);
    }

    method StoreRequest(req: Request)
      requires Valid() && model.core1.Outside? && model.core0 == Writing(req, 0) && state == Idle
      modifies this`slot, this`model, this`trace
      ensures Valid() && model.core1.Outside? && model.core0 == Writing(req, FIELDS) && state == Idle && !copying
      ensures slot == Clipped(req)
    {
      for k := 0 to FIELDS
        invariant Valid() && model.core1.Outside? && model.core0 == Writing(req, k) && state == Idle
      {
        Reached(trace, model);
        slot := MailboxProtocol.Store(slot, req, k);
        Record(WriteField);
      }
      Reached(trace, model);
      StoredAll(slot, req);
    }

    method AwaitAnswer(req: Request) returns (answer: Answer, ghost waited: nat)
      requires Valid() && model.core1.Outside? && model.core0 == Waiting(req)
      modifies this`state, this`res, this`copying, this`model, this`trace, card
      ensures Valid() && Resting() && serial == old(serial) && slot == old(slot) == Clipped(req)
      ensures answer.Answer? ==>
                && answer.result.Result? && answer.result.of == Clipped(req) && answer.result.serial == serial
                && state == Idle
      ensures answer.Answer? && req.op.Copy? ==> Copied(Clipped(req), answer.result.ok, atPost, card.files)
      ensures answer.NoResult? ==> waited == Timeout(req.op)
    {
      Reached(trace, model);
      var milliseconds := 0;
      waited := 0;
      var timeout := Timeout(req.op);
      while state != Done
        invariant Valid() && model.core1.Outside? && model.core0 == Waiting(req) && waited == milliseconds <= timeout
        invariant serial == old(serial) && slot == old(slot)
        decreases timeout - milliseconds
      {
        if milliseconds >= timeout {
          Record(TimeOut);
          return NoResult, waited;
        }
        OtherCore();
        milliseconds, waited := milliseconds + 1, waited + 1;
      }
      Reached(trace, model);
      answer := TakeAnswer(req);
    }

    /** The result is there: core 1 has nothing to do until the next request, and the slot is given back. */
    method TakeAnswer(req: Request) returns (answer: Answer)
      requires Valid() && model.core1.Outside? && model.core0 == Waiting(req) && state == Done
      modifies this`state, this`res, this`copying, this`model, this`trace, card
      ensures Valid() && Resting() && serial == old(serial) && slot == old(slot) && state == Idle
      ensures answer == Answer(old(res)) && card.files == old(card.files)
    {
      Record(SeeDone);
      OtherCore();
      state := Idle;
      Record(Take);
      answer := Answer(res);
      Record(Leave);
    }
  }

  lemma StoredAll(slot: Request, r: Request)
    requires Stored(slot, r, FIELDS)
    ensures slot == Clipped(r)
  {
  }

  lemma ReachesNext(steps: seq<Step>, s: State, step: Step)
    requires Reaches(steps, s) && Enabled(s, step)
    ensures Reaches(steps + [step], Next(s, step))
  {
    RunThen(PowerOn(), steps, step);
  }

  lemma {:induction false} RunThen(s: State, steps: seq<Step>, step: Step)
    requires Run?(s, steps) && Enabled(Final(s, steps), step)
    ensures Run?(s, steps + [step]) && Final(s, steps + [step]) == Next(Final(s, steps), step)
    decreases |steps|
  {
    if steps == [] {
      assert [step][1..] == [];
      assert steps + [step] == [step];
    } else {
      assert (steps + [step])[1..] == steps[1..] + [step];
      RunThen(Next(s, steps[0]), steps[1..], step);
    }
  }
}
