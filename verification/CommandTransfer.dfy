/**
 * From the register window down to memory and disk and up again: what a host that reads GOOD as its status
 * byte knows of the sectors it asked for.
 */
module CommandTransfer {
  import opened Basics
  import opened SasiBits
  import opened VictorMemory
  import opened DiskImage
  import opened DeferWorker
  import Window = RegisterProtocol
  import Rest = RegisterRest
  import Safety = RegisterSafety
  import Transfer = SasiTransfer

  /** The next thing the worker takes is the byte that completes the command `cdb`. */
  predicate Completes(s: Window.State, target: nat, cdb: seq<bv8>) {
    && Safety.Inv(s) && s.host.pc != Window.Resetting && s.todo == [] && s.queue != []
    && |cdb| == 6 && Window.NextView(s.base, s.queue[0]) == Window.Collecting(target, cdb)
  }

  /** The worker is on its way to, or at, the status phase with `v` posted, and nothing is queued. */
  predicate AnswerComing(s: Window.State, v: bv8) {
    Safety.Inv(s) && s.host.pc != Window.Resetting && s.base == Window.StatusPhase(v) && s.queue == []
  }

  /** Nothing is queued behind the byte, and the host waits for what comes of the command. */
  lemma CompletesAlone(s: Window.State, target: nat, cdb: seq<bv8>)
    requires Completes(s, target, cdb)
    ensures |s.queue| == 1 && s.host.pc == Window.AwaitResult
  {
    Safety.TakeSeen(s, Environment([], true, true));
  }

  /** The worker hands the command over and will end in the status phase. */
  lemma HandsOver(s: Window.State, target: nat, cdb: seq<bv8>, env: Environment, v: bv8)
    requires Completes(s, target, cdb) && HandlerVerdict(cdb, s.m.local.dmaEnabled, env) == Complete(v)
    ensures AnswerComing(Window.Take(s, env), v)
  {
    CompletesAlone(s, target, cdb);
    Safety.TakeKeeps(s, env);
    NextTakes(s, env);
  }

  /** Its stores are those of the handler with this command and, at the end, those of the status phase. */
  lemma StoresOfHandler(s: Window.State, target: nat, cdb: seq<bv8>, env: Environment, v: bv8)
    requires Completes(s, target, cdb) && HandlerVerdict(cdb, s.m.local.dmaEnabled, env) == Complete(v)
    ensures var l := Taken(s.m, s.queue[0].v).(cdb := []);
            Program(s.queue[0], s.m, env)
            == TakeByteOps(s.m, s.queue[0].v)
               + ([SetLocal(l)] + (Expand(HandlerWork(cdb, s.m.local.dmaEnabled, env)) + EnterStatus(l, v)))
  {
    assert Window.At(s.base, s.m);
  }

  // ---------------------------------------------------------------- the status byte on its way to the host

  predicate ResetOrCommit(step: Window.Step) {
    step.HostReset? || step.HostCommit?
  }

  /** Runs in which the host neither gives up the command nor acknowledges its status byte. */
  predicate BeforeCommit(steps: seq<Window.Step>) {
    forall i :: 0 <= i < |steps| ==> !ResetOrCommit(steps[i])
  }

  lemma AnswerStays(s: Window.State, v: bv8, step: Window.Step)
    requires AnswerComing(s, v) && Window.Enabled(s, step) && !ResetOrCommit(step)
    ensures AnswerComing(Window.Next(s, step), v)
  {
    Safety.StepKeeps(s, step);
  }

  lemma {:induction false} AnswerHeld(s: Window.State, v: bv8, steps: seq<Window.Step>)
    requires AnswerComing(s, v) && Window.Run?(s, steps) && BeforeCommit(steps)
    ensures AnswerComing(Window.Final(s, steps), v)
    decreases |steps|
  {
    if steps != [] {
      AnswerStays(s, v, steps[0]);
      AnswerHeld(Window.Next(s, steps[0]), v, steps[1..]);
    }
  }

  /** Whatever the host does short of that, a status byte it reads is `v`. */
  ghost predicate Answered(s: Window.State, v: bv8) {
    forall steps | Window.Run?(s, steps) && BeforeCommit(steps) ::
      Window.Final(s, steps).host.pc == Window.GotStatus ==> Window.Final(s, steps).host.byte == v
  }

  lemma AnswerIsRead(s: Window.State, v: bv8)
    requires AnswerComing(s, v)
    ensures Answered(s, v)
  {
    forall steps | Window.Run?(s, steps) && BeforeCommit(steps)
      ensures Window.Final(s, steps).host.pc == Window.GotStatus ==> Window.Final(s, steps).host.byte == v
    {
      AnswerHeld(s, v, steps);
    }
  }

  /** And read it can: the worker finishes its stores, the host looks at STATUS and reads. */
  lemma {:induction false} AnswerArrives(s: Window.State, v: bv8, env: Environment) returns (more: seq<Window.Step>)
    requires AnswerComing(s, v) && s.host.pc == Window.AwaitResult
    ensures Window.Run?(s, more) && BeforeCommit(more) && Window.Final(s, more).host.pc == Window.GotStatus
    decreases |s.todo|
  {
    if s.todo == [] {
      more := [Window.Poll, Window.HostPrefetch];
      assert Window.Next(s, Window.Poll).host.pc == Window.HaveStatus;
      assert more[1..] == [Window.HostPrefetch] && more[1..][1..] == [];
    } else {
      AnswerStays(s, v, Window.Worker(env));
      var rest := AnswerArrives(Window.Next(s, Window.Worker(env)), v, env);
      more := [Window.Worker(env)] + rest;
      assert more[1..] == rest;
    }
  }

  lemma NextTakes(s: Window.State, env: Environment)
    requires s.todo == [] && s.queue != []
    ensures Window.Next(s, Window.Worker(env)) == Window.Take(s, env) && Window.Take(s, env).host == s.host
  {
  }

  /** The outcome of a command in the window: the host can read its status, and reads nothing but `v`. */
  lemma CommandAnswered(s: Window.State, target: nat, cdb: seq<bv8>, env: Environment, v: bv8)
    returns (more: seq<Window.Step>)
    requires Completes(s, target, cdb) && HandlerVerdict(cdb, s.m.local.dmaEnabled, env) == Complete(v)
    ensures var next := Window.Next(s, Window.Worker(env));
            && Answered(next, v)
            && Window.Run?(next, more) && BeforeCommit(more) && Window.Final(next, more).host.pc == Window.GotStatus
  {
    var next := Window.Take(s, env);
    HandsOver(s, target, cdb, env, v);
    CompletesAlone(s, target, cdb);
    NextTakes(s, env);
    AnswerIsRead(next, v);
    more := AnswerArrives(next, v, env);
  }

  // ---------------------------------------------------------------- READ and WRITE

  function StatusOf(ok: bool): bv8 {
    if ok then 0x00 else 0x02
  }

  /** These commands behave alike whether or not the host has DMA switched on. */
  lemma TransferIgnoresDma(cdb: seq<bv8>, dmaEnabled: bool, env: Environment)
    requires |cdb| >= 6 && (dmaEnabled || cdb[0] != 0x0C)
    ensures HandlerWork(cdb, dmaEnabled, env) == HandlerWork(cdb, true, env)
    ensures HandlerVerdict(cdb, dmaEnabled, env) == HandlerVerdict(cdb, true, env)
  {
  }

  /** What memory holds at the place of the `i`-th sector of a run. */
  function SectorAt(ram: seq<byte>, start: nat, i: nat): Sector
    requires |ram| == SIZE
  {
    Slice(ram, At(start, i * SECTOR), SECTOR)
  }

  /** Every sector of the run is in memory. */
  ghost predicate InMemory(ram: seq<byte>, start: nat, live: map<nat, Sector>, lba: nat, n: nat) {
    |ram| == SIZE && forall s: nat | lba <= s < lba + n :: s in live && SectorAt(ram, start, s - lba) == live[s]
  }

  lemma FetchedInMemory(ram: seq<byte>, start: nat, live: map<nat, Sector>, lba: nat, n: nat)
    requires |ram| == SIZE && n <= 256 && Has(live, lba, n)
    ensures InMemory(Transfer.Fetched(ram, start, live, lba, n, []), start, live, lba, n)
  {
    var after := Transfer.Fetched(ram, start, live, lba, n, []);
    forall s: nat | lba <= s < lba + n
      ensures SectorAt(after, start, s - lba) == live[s]
    {
      forall j: nat | j < SECTOR
        ensures SectorAt(after, start, s - lba)[j] == live[s][j]
      {
        Transfer.FetchedBytes(ram, start, live, lba, n, [], s - lba, j);
        AtAdds(start, (s - lba) * SECTOR, j);
      }
    }
  }

  /** A sector of the run holds its share of memory, any other one what it held before. */
  predicate SectorHeld(now: map<nat, Sector>, was: map<nat, Sector>, lba: nat, n: nat, ram: seq<byte>, start: nat,
                       s: nat)
    requires |ram| == SIZE && s in was
  {
    s in now && now[s] == if lba <= s < lba + n then SectorAt(ram, start, s - lba) else was[s]
  }

  ghost predicate OnDisk(now: map<nat, Sector>, was: map<nat, Sector>, lba: nat, n: nat, ram: seq<byte>, start: nat) {
    |ram| == SIZE && forall s: nat | s in was :: SectorHeld(now, was, lba, n, ram, start, s)
  }

  lemma HoldsOnDisk(now: map<nat, Sector>, was: map<nat, Sector>, lba: nat, n: nat, ram: seq<byte>, start: nat)
    requires |ram| == SIZE && Has(was, lba, n) && Transfer.Holds(now, was, lba, ram, start, n, false)
    ensures OnDisk(now, was, lba, n, ram, start)
  {
    forall s: nat | s in was
      ensures SectorHeld(now, was, lba, n, ram, start, s)
    {
      Transfer.HoldsSectors(now, was, lba, ram, start, n, false, s);
    }
  }

  /** What a transfer leaves to be seen in the window, if it was not cut short by a RESET. */
  ghost predicate ToldInWindow(s: Window.State, cdb: seq<bv8>, env: Environment, work: seq<Work>, ok: bool)
    requires |cdb| >= 6
  {
    && s.queue != [] && s.todo == [] && work == HandlerWork(cdb, s.m.local.dmaEnabled, env)
    && Answered(Window.Next(s, Window.Worker(env)), StatusOf(ok))
  }

  lemma Told(s: Window.State, target: nat, cdb: seq<bv8>, env: Environment, ok: bool)
    requires Completes(s, target, cdb) && (s.m.local.dmaEnabled || cdb[0] != 0x0C)
    requires HandlerVerdict(cdb, true, env) == Complete(StatusOf(ok))
    ensures ToldInWindow(s, cdb, env, HandlerWork(cdb, true, env), ok)
  {
    TransferIgnoresDma(cdb, s.m.local.dmaEnabled, env);
    var _ := CommandAnswered(s, target, cdb, env, StatusOf(ok));
  }

  /**
   * READ(6) of `n` sectors from `lba` on, from the byte that completes it to the status byte the host reads: GOOD
   * exactly when every sector was fetched, and then memory holds them all.
   */
  method ReadCommand(card: Transfer.Card, cdb: seq<bv8>, ghost lba: nat, ghost n: nat, ghost s: Window.State)
    returns (ghost env: Environment, ghost ok: bool)
    requires card.Valid() && Completes(s, card.target, cdb) && Transfer.Asks(cdb, 0x08, lba, n)
    modifies card, card.master, card.master.ram, card.storage
    ensures card.Valid()
    ensures ok ==>
              && InMemory(card.master.ram[..], old(card.address), old(card.storage.disks)[card.target].live, lba, n)
              && (card.posted != old(card.posted) ==> card.address == At(old(card.address), n * SECTOR))
    ensures if card.posted == old(card.posted) then card.resetRequested else ToldInWindow(s, cdb, env, card.work, ok)
    ensures !ok && card.posted != old(card.posted) ==>
              card.Denied(old(card.storage.refusals)) || card.BusStuck(old(card.master.timeouts))
  {
    ghost var k, rest;
    env, k, rest := card.HandleRead(cdb, lba, n);
    ok := k == n;
    if ok {
      FetchedInMemory(old(card.master.ram[..]), old(card.address), old(card.storage.disks)[card.target].live, lba, n);
    }
    if card.posted != old(card.posted) {
      Told(s, card.target, cdb, env, ok);
    }
  }

  /**
   * WRITE(6) likewise: GOOD exactly when every sector was stored and synced, and then the disk holds the
   * memory, nothing else on it has changed, and all of it is on the medium.
   */
  method WriteCommand(card: Transfer.Card, cdb: seq<bv8>, ghost lba: nat, ghost n: nat, ghost s: Window.State)
    returns (ghost env: Environment, ghost ok: bool)
    requires card.Valid() && Completes(s, card.target, cdb) && Transfer.Asks(cdb, 0x0A, lba, n)
    modifies card, card.master, card.master.ram, card.storage
    ensures card.Valid() && card.master.ram[..] == old(card.master.ram[..])
    ensures ok && card.posted != old(card.posted) ==>
              var disk := card.storage.disks[card.target];
              && OnDisk(disk.live, old(card.storage.disks)[card.target].live, lba, n, card.master.ram[..],
                        old(card.address))
              && disk.stable == disk.live && card.address == At(old(card.address), n * SECTOR)
    ensures if card.posted == old(card.posted) then card.resetRequested else ToldInWindow(s, cdb, env, card.work, ok)
    ensures !ok && card.posted != old(card.posted) ==>
              card.Denied(old(card.storage.refusals)) || card.BusStuck(old(card.master.timeouts))
  {
    ghost var k, refused, synced;
    env, k, refused, synced := card.HandleWrite(cdb, lba, n);
    ok := k == n && synced;
    if k == n {
      HoldsOnDisk(card.storage.disks[card.target].live, old(card.storage.disks)[card.target].live, lba, n,
                  card.master.ram[..], old(card.address));
    }
    if card.posted != old(card.posted) {
      Told(s, card.target, cdb, env, ok);
    }
  }

  // ---------------------------------------------------------------- the other commands

  /** REQUEST SENSE: the host reads GOOD exactly when all the bytes went over. */
  method SenseCommand(card: Transfer.Card, cdb: seq<bv8>, ghost s: Window.State)
    returns (ghost env: Environment, ok: bool, ghost part: nat)
    requires card.Valid() && Completes(s, card.target, cdb) && cdb[0] == 0x03
    modifies card, card.master, card.master.ram
    ensures card.Valid() && part <= Transfer.SenseSize(cdb) && (ok ==> part == Transfer.SenseSize(cdb))
    ensures card.master.ram[..] == Blit(old(card.master.ram[..]), old(card.address), seq(part, _ => 0))
    ensures card.master.timeouts == old(card.master.timeouts) + if ok then 0 else 1
    ensures ToldInWindow(s, cdb, env, card.work, ok)
  {
    ghost var wrote;
    env, ok, part, wrote := card.HandleSense(cdb);
    Told(s, card.target, cdb, env, ok);
  }

  /** SET DRIVE PARAMETERS with DMA on: GOOD exactly when all eight bytes came. */
  method DriveCommand(card: Transfer.Card, cdb: seq<bv8>, ghost s: Window.State)
    returns (ghost env: Environment, ok: bool, ghost wrote: bool)
    requires card.Valid() && Completes(s, card.target, cdb) && cdb[0] == 0x0C && s.m.local.dmaEnabled
    modifies card, card.master, card.master.ram
    ensures card.Valid() && card.Fetches(8, ok, wrote) && ToldInWindow(s, cdb, env, card.work, ok)
  {
    env, ok, wrote := card.HandleDriveParameters(cdb);
    Told(s, card.target, cdb, env, ok);
  }

  /** MODE SELECT: GOOD exactly when as many bytes came as it names. */
  method ModeCommand(card: Transfer.Card, cdb: seq<bv8>, ghost s: Window.State)
    returns (ghost env: Environment, ok: bool, ghost wrote: bool)
    requires card.Valid() && Completes(s, card.target, cdb) && cdb[0] == 0x15
    modifies card, card.master, card.master.ram
    ensures card.Valid() && ToldInWindow(s, cdb, env, card.work, ok)
    ensures if cdb[4] == 0 then ok else card.Fetches(cdb[4] as nat, ok, wrote)
  {
    env, ok, wrote := card.HandleModeSelect(cdb);
    Told(s, card.target, cdb, env, ok);
  }

  /** Every other command moves no data: whatever happens, nothing is shown and the host reads GOOD. */
  lemma PlainCommand(s: Window.State, target: nat, cdb: seq<bv8>, env: Environment)
    requires Completes(s, target, cdb) && cdb[0] !in {0x03, 0x08, 0x0A, 0x0C, 0x15}
    ensures ToldInWindow(s, cdb, env, [], true)
  {
    Told(s, target, cdb, env, true);
  }

  // ---------------------------------------------------------------- drive parameters byte by byte

  /**
   * The host has been, or will be, asked for eight parameter bytes; a status can only follow the last.  `base` and
   * `queue` say where the worker stands.
   */
  predicate BytesOwed(h: Window.Host, base: Window.View, queue: seq<Entry>) {
    && (base.Parameters? || base == Window.StatusPhase(GOOD))
    && match h.pc
       case AwaitResult => base == Window.Parameters(0) && queue == []
       case AwaitParameters | HaveParameters => true
       case AwaitStatus | HaveStatus | GotStatus => h.parameters == 8
       case _ => false
  }

  predicate BytesDue(s: Window.State) {
    Safety.Inv(s) && BytesOwed(s.host, s.base, s.queue)
  }

  lemma AsksForBytes(s: Window.State, target: nat, cdb: seq<bv8>, env: Environment)
    requires Completes(s, target, cdb) && cdb[0] == 0x0C && !s.m.local.dmaEnabled
    ensures BytesDue(Window.Take(s, env)) && Window.Take(s, env).host == s.host
  {
    CompletesAlone(s, target, cdb);
    Safety.TakeKeeps(s, env);
    NextTakes(s, env);
  }

  /** Only parameter bytes lead on from parameter bytes. */
  lemma {:induction false} OnlyFromParameters(view: Window.View, queue: seq<Entry>)
    requires Window.Drain(view, queue).Parameters?
    ensures view.Parameters?
    decreases |queue|
  {
    if queue != [] {
      OnlyFromParameters(Window.NextView(view, queue[0]), queue[1..]);
    }
  }

  lemma TakingParameter(s: Window.State, env: Environment)
    requires BytesDue(s) && s.todo == [] && s.queue != []
    ensures BytesOwed(s.host, Window.Take(s, env).base, Window.Take(s, env).queue)
  {
    Rest.DrainBehind(s.base, s.queue);
    OnlyFromParameters(s.base, s.queue);
    Safety.TakeSeen(s, env);
  }

  lemma PollingParameters(s: Window.State)
    requires BytesDue(s)
    ensures BytesOwed(Window.PollHost(s.host, s.m.cells.c20), s.base, s.queue)
  {
    if s.host.pc == Window.AwaitResult {
      ParametersShown(s);
    }
  }

  lemma ParametersShown(s: Window.State)
    requires BytesDue(s) && s.host.pc == Window.AwaitResult
    ensures s.m.cells.c20 != PHASE_STATUS
  {
  }

  lemma StaysOwed(s: Window.State, step: Window.Step)
    requires BytesDue(s) && Window.Enabled(s, step) && !ResetOrCommit(step)
    ensures BytesOwed(Window.Next(s, step).host, Window.Next(s, step).base, Window.Next(s, step).queue)
  {
    if step.Poll? {
      PollingParameters(s);
    } else if step.Worker? && s.todo == [] {
      TakingParameter(s, step.env);
    }
  }

  lemma BytesStayDue(s: Window.State, step: Window.Step)
    requires BytesDue(s) && Window.Enabled(s, step) && !ResetOrCommit(step)
    ensures BytesDue(Window.Next(s, step))
  {
    Safety.StepKeeps(s, step);
    StaysOwed(s, step);
  }

  lemma {:induction false} BytesHeld(s: Window.State, steps: seq<Window.Step>)
    requires BytesDue(s) && Window.Run?(s, steps) && BeforeCommit(steps)
    ensures BytesDue(Window.Final(s, steps))
    decreases |steps|
  {
    if steps != [] {
      BytesStayDue(s, steps[0]);
      BytesHeld(Window.Next(s, steps[0]), steps[1..]);
    }
  }

  lemma LastByteGood(s: Window.State)
    requires BytesDue(s) && s.host.pc == Window.GotStatus
    ensures s.host.parameters == 8 && s.host.byte == GOOD
  {
    if s.queue != [] {
      Rest.DrainBehind(s.base, s.queue);
    }
  }

  /**
   * SET DRIVE PARAMETERS with DMA off: the host reads no status before it has sent eight parameter bytes, and
   * then it reads GOOD.
   */
  lemma ParametersByHand(s: Window.State, target: nat, cdb: seq<bv8>, env: Environment, steps: seq<Window.Step>)
    requires Completes(s, target, cdb) && cdb[0] == 0x0C && !s.m.local.dmaEnabled
    requires Window.Run?(Window.Next(s, Window.Worker(env)), steps) && BeforeCommit(steps)
    ensures var t := Window.Final(Window.Next(s, Window.Worker(env)), steps);
            t.host.pc == Window.GotStatus ==> t.host.parameters == 8 && t.host.byte == 0x00
  {
    var t := Window.Final(Window.Next(s, Window.Worker(env)), steps);
    AsksForBytes(s, target, cdb, env);
    NextTakes(s, env);
    BytesHeld(Window.Next(s, Window.Worker(env)), steps);
    if t.host.pc == Window.GotStatus {
      LastByteGood(t);
    }
  }

  /** And it gets there: worker, polls and parameter bytes lead to the status byte. */
  lemma ParametersCanBeSent(s: Window.State, target: nat, cdb: seq<bv8>, env: Environment)
    returns (more: seq<Window.Step>)
    requires Completes(s, target, cdb) && cdb[0] == 0x0C && !s.m.local.dmaEnabled
    ensures var next := Window.Next(s, Window.Worker(env));
            Window.Run?(next, more) && BeforeCommit(more) && Window.Final(next, more).host.pc == Window.GotStatus
  {
    AsksForBytes(s, target, cdb, env);
    NextTakes(s, env);
    more := ParametersArrive(Window.Take(s, env), env);
  }

  lemma {:induction false} ParametersArrive(s: Window.State, env: Environment) returns (more: seq<Window.Step>)
    requires BytesDue(s)
    ensures Window.Run?(s, more) && BeforeCommit(more) && Window.Final(s, more).host.pc == Window.GotStatus
    decreases Ahead(s), |s.queue|, |s.todo|
  {
    if s.host.pc == Window.GotStatus {
      more := [];
    } else {
      var step := NextStep(s, env);
      BytesStayDue(s, step);
      StepsAhead(s, env);
      var rest := ParametersArrive(Window.Next(s, step), env);
      more := [step] + rest;
      assert more[1..] == rest;
    }
  }

  /** The worker first, then the host. */
  function NextStep(s: Window.State, env: Environment): (step: Window.Step)
    requires BytesDue(s) && s.host.pc != Window.GotStatus
    ensures Window.Enabled(s, step) && !ResetOrCommit(step)
  {
    if s.todo != [] || s.queue != [] then Window.Worker(env)
    else if s.host.pc == Window.HaveStatus then Window.HostPrefetch
    else if s.host.pc == Window.HaveParameters then Window.HostData(0)
    else Window.Poll
  }

  /** How many steps the host has ahead of it. */
  function Ahead(s: Window.State): nat {
    match s.host.pc
    case AwaitResult => 20
    case AwaitParameters => if s.host.parameters <= 8 then 19 - 2 * s.host.parameters else 0
    case HaveParameters => if s.host.parameters <= 8 then 18 - 2 * s.host.parameters else 0
    case AwaitStatus => 2
    case HaveStatus => 1
    case _ => 0
  }

  lemma StepsAhead(s: Window.State, env: Environment)
    requires BytesDue(s) && s.host.pc != Window.GotStatus
    ensures var t := Window.Next(s, NextStep(s, env));
            || Ahead(t) < Ahead(s)
            || (Ahead(t) == Ahead(s) && (|t.queue| < |s.queue| || (t.queue == s.queue && |t.todo| < |s.todo|)))
  {
  }
}
