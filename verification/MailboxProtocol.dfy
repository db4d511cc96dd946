/**
 * The single-slot mailbox between core 0 (submits console operations) and core 1 (runs them), one shared
 * access at a time.  A chunked copy occupies core 1 over many passes.
 */
module MailboxProtocol {

  const ARG1_MAX: nat := 128
  const ARG2_MAX: nat := 80
  const FIELDS: nat := 6

  datatype Op =
    | Ping | LsSd | LsFuji | Mount | Eject | Peek | WifiGet | WifiSet | Scan | Status | Create | Copy | Rm | Unknown

  datatype Request = Request(op: Op, backend: nat, target: nat, lba: nat, arg1: string, arg2: string)

  /** What an operation reported, with the request and the submission it was computed from. */
  datatype Result = Blank | Result(of: Request, serial: nat, ok: bool)

  datatype SlotState = Idle | Pending | Done

  datatype Core0 =
    | Free
    | Entered(req: Request)
    | Checking(req: Request)
    | Writing(req: Request, field: nat)
    | Waiting(req: Request)
    | Taking(req: Request)
    | Holding(req: Request)

  datatype Core1 = Outside | Seen | Cleared | Filled

  /** `serial` counts submissions posted; `copying` is the flag of a chunked copy, `active` the copy itself. */
  datatype State = State(state: SlotState, slot: Request, res: Result, copying: bool, active: bool,
                         core0: Core0, core1: Core1, serial: nat)

  datatype Step =
    // core 0
    | Enter(req: Request) | Reclaim | Check | WriteField | Post | SeeDone | TimeOut | Take | Leave
    // core 1
    | Look | Clear | Run(ok: bool) | BeginCopy(ok: bool) | CopyChunk | EndCopy(ok: bool) | Publish

  predicate ByCore0(step: Step) {
    match step
    case Enter(_) | Reclaim | Check | WriteField | Post | SeeDone | TimeOut | Take | Leave => true
    case _ => false
  }

  /** Strings are cut to the slot's buffers. */
  function Clip(s: string, max: nat): (clipped: string)
    requires max > 0
    ensures clipped <= s && |clipped| == if |s| < max then |s| else max - 1
  {
    if |s| < max then s else s[..max - 1]
  }

  function Clipped(r: Request): Request {
    r.(arg1 := Clip(r.arg1, ARG1_MAX), arg2 := Clip(r.arg2, ARG2_MAX))
  }

  /** What the slot keeps of a request: 127 and 79 characters, and everything else. */
  lemma SlotKeeps(r: Request)
    ensures Clipped(r).arg1 == r.arg1[..if |r.arg1| < 127 then |r.arg1| else 127]
    ensures Clipped(r).arg2 == r.arg2[..if |r.arg2| < 79 then |r.arg2| else 79]
    ensures Clipped(r) == r.(arg1 := Clipped(r).arg1, arg2 := Clipped(r).arg2)
  {
  }

  /** The slot after field `k` of a request has been stored. */
  function Store(slot: Request, r: Request, k: nat): Request {
    if k == 0 then slot.(op := r.op)
    else if k == 1 then slot.(backend := r.backend)
    else if k == 2 then slot.(target := r.target)
    else if k == 3 then slot.(lba := r.lba)
    else if k == 4 then slot.(arg1 := Clip(r.arg1, ARG1_MAX))
    else slot.(arg2 := Clip(r.arg2, ARG2_MAX))
  }

  /** The first `k` fields of the slot are those of a request. */
  predicate Stored(slot: Request, r: Request, k: nat) {
    && (k > 0 ==> slot.op == r.op) && (k > 1 ==> slot.backend == r.backend) && (k > 2 ==> slot.target == r.target)
    && (k > 3 ==> slot.lba == r.lba) && (k > 4 ==> slot.arg1 == Clip(r.arg1, ARG1_MAX))
    && (k > 5 ==> slot.arg2 == Clip(r.arg2, ARG2_MAX))
  }

  predicate Enabled(s: State, step: Step) {
    match step
    case Enter(_) => s.core0.Free?
    case Reclaim => s.core0.Entered?
    case Check => s.core0.Checking?
    case WriteField => s.core0.Writing? && s.core0.field < FIELDS
    case Post => s.core0.Writing? && s.core0.field == FIELDS
    case SeeDone => s.core0.Waiting? && s.state.Done?
    case TimeOut => s.core0.Waiting? && !s.state.Done?
    case Take => s.core0.Taking?
    case Leave => s.core0.Holding?
    case Look => s.core1.Outside? && s.state.Pending?
    case Clear => s.core1.Seen? && !s.copying
    case Run(_) => s.core1.Cleared? && !s.slot.op.Copy?
    case BeginCopy(_) => s.core1.Cleared? && s.slot.op.Copy?
    case CopyChunk => s.core1.Seen? && s.copying
    case EndCopy(_) => s.core1.Seen? && s.copying
    case Publish => s.core1.Filled?
  }

  function Next(s: State, step: Step): State
    requires Enabled(s, step)
  {
    match step
    case Enter(req) => s.(core0 := Entered(req))
    case Reclaim => s.(state := if s.state.Done? then Idle else s.state, core0 := Checking(s.core0.req))
    case Check => s.(core0 := if s.state.Idle? then Writing(s.core0.req, 0) else Free)
    case WriteField =>
      s.(slot := Store(s.slot, s.core0.req, s.core0.field), core0 := Writing(s.core0.req, s.core0.field + 1))
    case Post => s.(state := Pending, core0 := Waiting(s.core0.req), serial := s.serial + 1)
    case SeeDone => s.(core0 := Taking(s.core0.req))
    case TimeOut => s.(core0 := Free)
    case Take => s.(state := Idle, core0 := Holding(s.core0.req))
    case Leave => s.(core0 := Free)
    case Look => s.(core1 := Seen)
    case Clear => s.(res := Blank, core1 := Cleared)
    case Run(ok) => s.(res := Result(s.slot, s.serial, ok && !s.slot.op.Unknown?), core1 := Filled)
    case BeginCopy(ok) =>
      if ok then s.(copying := true, active := true, core1 := Outside)
      else s.(res := Result(s.slot, s.serial, false), core1 := Filled)
    case CopyChunk => s.(core1 := Outside)
    case EndCopy(ok) => s.(copying := false, active := false, res := Result(s.slot, s.serial, ok), core1 := Filled)
    case Publish => s.(state := Done, core1 := Outside)
  }

  const NoRequest: Request := Request(Ping, 0, 0, 0, "", "")

  function PowerOn(): State {
    State(Idle, NoRequest, Blank, false, false, Free, Outside, 0)
  }

  predicate Run?(s: State, steps: seq<Step>)
    decreases |steps|
  {
    steps == [] || (Enabled(s, steps[0]) && Run?(Next(s, steps[0]), steps[1..]))
  }

  function Final(s: State, steps: seq<Step>): State
    requires Run?(s, steps)
    decreases |steps|
  {
    if steps == [] then s else Final(Next(s, steps[0]), steps[1..])
  }

  // ---------------------------------------------------------------- the invariant

  /** The result is of the request now in the slot, from its last posting. */
  predicate Answered(s: State) {
    s.res.Result? && s.res.of == s.slot && s.res.serial == s.serial
  }

  predicate SlotOk(s: State) {
    match s.state
    case Idle => s.core1.Outside? && !s.copying
    case Pending => s.core1.Filled? ==> Answered(s) && !s.copying
    case Done => s.core1.Outside? && !s.copying && Answered(s)
  }

  predicate Core0Ok(s: State) {
    match s.core0
    case Free => true
    case Entered(_) => true
    case Checking(_) => true
    case Writing(req, k) => s.state.Idle? && k <= FIELDS && Stored(s.slot, req, k)
    case Waiting(req) => !s.state.Idle? && s.slot == Clipped(req)
    case Taking(req) => s.state.Done? && s.slot == Clipped(req)
    case Holding(req) => s.state.Idle? && s.slot == Clipped(req) && Answered(s)
  }

  /** A copy that runs is the pending request, and its files are open. */
  predicate CopyOk(s: State) {
    && (s.copying <==> s.active)
    && (s.copying ==> s.state.Pending? && s.slot.op.Copy? && (s.core1.Outside? || s.core1.Seen?))
  }

  predicate Inv(s: State) {
    SlotOk(s) && Core0Ok(s) && CopyOk(s)
  }

  lemma StepKeeps(s: State, step: Step)
    requires Inv(s) && Enabled(s, step)
    ensures Inv(Next(s, step))
  {
    if step.WriteField? {
      FieldStored(s.slot, s.core0.req, s.core0.field);
    }
  }

  lemma FieldStored(slot: Request, r: Request, k: nat)
    requires Stored(slot, r, k) && k < FIELDS
    ensures Stored(Store(slot, r, k), r, k + 1)
    ensures k + 1 == FIELDS ==> Store(slot, r, k) == Clipped(r)
  {
  }

  lemma {:induction false} RunKeeps(s: State, steps: seq<Step>)
    requires Inv(s) && Run?(s, steps)
    ensures Inv(Final(s, steps))
    decreases |steps|
  {
    if steps != [] {
      StepKeeps(s, steps[0]);
      RunKeeps(Next(s, steps[0]), steps[1..]);
    }
  }

  /** `steps` is a run from power-up that ends in `s`. */
  ghost predicate Reaches(steps: seq<Step>, s: State) {
    Run?(PowerOn(), steps) && Final(PowerOn(), steps) == s
  }

  lemma Reached(steps: seq<Step>, s: State)
    requires Reaches(steps, s)
    ensures Inv(s)
  {
    RunKeeps(PowerOn(), steps);
  }

  // ---------------------------------------------------------------- what the mailbox promises

  /**
   * Each side keeps to its turn: core 0 stores the request only while the slot is idle, core 1 reads it and
   * touches the result and the state only while it is pending, and never stores the request.
   */
  lemma Ownership(steps: seq<Step>, s: State, step: Step)
    requires Reaches(steps, s) && Enabled(s, step)
    ensures Next(s, step).slot != s.slot ==> ByCore0(step) && s.state.Idle?
    ensures Next(s, step).res != s.res ==> !ByCore0(step) && s.state.Pending?
    ensures !ByCore0(step) ==> s.state.Pending?
    ensures ByCore0(step) ==> Next(s, step).copying == s.copying && Next(s, step).active == s.active
  {
    Reached(steps, s);
  }

  /**
   * A result handed to the caller was computed from exactly the arguments of this very submission, whatever
   * timed out before.
   */
  lemma ResultIsOurs(steps: seq<Step>, s: State)
    requires Reaches(steps, s) && s.core0.Holding?
    ensures s.res.Result? && s.res.of == Clipped(s.core0.req) && s.res.serial == s.serial
  {
    Reached(steps, s);
  }

  /** And it stays while the caller looks at it: core 1 can do nothing until the next request is posted. */
  lemma ResultHeld(steps: seq<Step>, s: State, step: Step)
    requires Reaches(steps, s) && s.core0.Holding?
    ensures Enabled(s, step) ==> ByCore0(step) && Next(s, step).res == s.res
  {
    Reached(steps, s);
  }

  /** A running copy means a pending COPY request whose files are open. */
  lemma RunningCopy(steps: seq<Step>, s: State)
    requires Reaches(steps, s) && s.copying
    ensures s.state.Pending? && s.slot.op.Copy? && s.active
  {
    Reached(steps, s);
  }

  /** A submission is refused exactly when an earlier one has not finished by the time the slot is looked at. */
  lemma RefusedIff(steps: seq<Step>, s: State)
    requires Reaches(steps, s) && s.core0.Checking?
    ensures Next(s, Check).core0.Free? <==> !s.state.Idle?
    ensures Next(s, Check).core0.Writing? ==> s.core1.Outside? && !s.copying
  {
    Reached(steps, s);
  }
}
