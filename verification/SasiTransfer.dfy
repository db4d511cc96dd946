/**
 * The sector loops of READ(6) and WRITE(6), and REQUEST SENSE: storage on one side, Victor RAM on the
 * other, with retries, host resets and host writes to the address registers in between.
 */
module SasiTransfer {
  import opened SasiBits
  import opened Basics
  import opened VictorMemory
  import opened DiskImage
  import opened DeferWorker
  import DmaMaster

  const RETRIES: nat := 8

  function Value(b: bv8): (v: nat)
    ensures v < 0x100
  {
    b as nat
  }

  /** The unit stands in the upper three bits, the rest is the top of the sector number. */
  function Top(b: bv8): (v: nat)
    ensures v < 0x20
  {
    (b & 0x1F) as nat
  }

  function Number(high: nat, mid: nat, low: nat): nat {
    high * 0x1_0000 + mid * 0x100 + low
  }

  function Lba(cdb: seq<bv8>): nat
    requires |cdb| >= 6
  {
    Number(Top(cdb[1]), Value(cdb[2]), Value(cdb[3]))
  }

  /**
   * How a host asks for `n` sectors from `lba` on: the sector number in 21 bits, most significant first, and the
   * count in a byte in which 256 is 0.
   */
  predicate Asks(cdb: seq<bv8>, opcode: bv8, lba: nat, n: nat) {
    && |cdb| >= 6 && cdb[0] == opcode
    && lba < 0x20_0000 && 1 <= n <= 256
    && Top(cdb[1]) == lba / 0x1_0000
    && Value(cdb[2]) == lba / 0x100 % 0x100
    && Value(cdb[3]) == lba % 0x100
    && Value(cdb[4]) == n % 256
  }

  /** The card finds the sector and the count the host meant. */
  lemma Understood(cdb: seq<bv8>, opcode: bv8, lba: nat, n: nat)
    requires Asks(cdb, opcode, lba, n)
    ensures Lba(cdb) == lba && Blocks(cdb) == n
  {
    NumberOfDigits(lba);
    CountOf(cdb[4], n);
  }

  lemma NumberOfDigits(lba: nat)
    ensures Number(lba / 0x1_0000, lba / 0x100 % 0x100, lba % 0x100) == lba
  {
    var q := lba / 0x100;
    assert lba == q * 0x100 + lba % 0x100;
    assert q == q / 0x100 * 0x100 + q % 0x100;
    assert q / 0x100 == lba / 0x1_0000;
  }

  lemma CountOf(count: bv8, n: nat)
    requires 1 <= n <= 256 && Value(count) == n % 256
    ensures n == if count == 0 then 256 else count as nat
  {
  }

  /** Every six bytes ask for some run of sectors, and so for just one. */
  lemma AsksForSome(cdb: seq<bv8>)
    requires |cdb| >= 6
    ensures Asks(cdb, cdb[0], Lba(cdb), Blocks(cdb))
  {
    DigitsOfNumber(Top(cdb[1]), Value(cdb[2]), Value(cdb[3]));
    CountFits(cdb[4]);
  }

  lemma CountFits(count: bv8)
    ensures var n := if count == 0 then 256 else count as nat; 1 <= n <= 256 && Value(count) == n % 256
  {
  }

  lemma DigitsOfNumber(high: nat, mid: nat, low: nat)
    requires high < 0x20 && mid < 0x100 && low < 0x100
    ensures var n := Number(high, mid, low);
            n < 0x20_0000 && n / 0x1_0000 == high && n / 0x100 % 0x100 == mid && n % 0x100 == low
  {
    var n := Number(high, mid, low);
    assert n == (high * 0x100 + mid) * 0x100 + low;
    assert n / 0x100 == high * 0x100 + mid;
    assert n / 0x1_0000 == n / 0x100 / 0x100;
  }

  /** The reads of the boot sequence. */
  lemma BootReads()
    ensures Asks([0x08, 0x00, 0x00, 0x00, 0x02, 0x00], 0x08, 0, 2)
    ensures Asks([0x08, 0x00, 0x00, 0x44, 0x98, 0x07], 0x08, 0x44, 152)
    ensures Asks([0x08, 0x00, 0x00, 0xDC, 0x01, 0x07], 0x08, 0x44 + 152, 1)
  {
  }

  /** What the boot-sequence host expects the address register to advance by after a GOOD status. */
  function ExpectedDelta(cdb: seq<bv8>): nat
    requires |cdb| >= 6
  {
    if cdb[0] == 0x08 || cdb[0] == 0x0A then Blocks(cdb) * SECTOR
    else if cdb[0] == 0x03 then SenseSize(cdb)
    else if cdb[0] == 0x0C then 8
    else 0
  }

  function SenseSize(cdb: seq<bv8>): (n: nat)
    requires |cdb| >= 6
    ensures if 1 <= cdb[4] <= 4 then n == cdb[4] as nat else n == 4
  {
    if cdb[4] == 0 || cdb[4] > 4 then 4 else cdb[4] as nat
  }

  // ---------------------------------------------------------------- the phases a sector loop shows

  /** Bus changes and looks for a reset up to the end of sector `i`, when all of them succeed. */
  function Shown(reading: bool, i: nat, blocks: nat): seq<Work>
    requires i <= blocks
  {
    if i == 0 then [CommandBusy, CommandBusy]
    else
      Shown(reading, i - 1, blocks) + GoodSector(reading, i < blocks)
  }

  function GoodSector(reading: bool, more: bool): seq<Work> {
    [LookForReset, DataPhase(reading)] + if more then [CommandBusy] else []
  }

  function DataPhase(reading: bool): Work {
    if reading then ReadDataIn else DataOutBusy
  }

  predicate DoneUpTo(env: Environment, i: nat) {
    forall k: nat | k < i :: Outcome(env, k) == Done
  }

  /** The loop of the register-window model is the same loop, cut after any number of good sectors. */
  lemma {:induction false} SectorWorkSplits(env: Environment, reading: bool, i: nat, blocks: nat)
    requires i <= blocks && DoneUpTo(env, i)
    ensures [CommandBusy, CommandBusy] + SectorWork(env, reading, 0, blocks)
            == Shown(reading, i, blocks) + SectorWork(env, reading, i, blocks)
  {
    if i > 0 {
      SectorWorkSplits(env, reading, i - 1, blocks);
      assert Outcome(env, i - 1) == Done;
      var before, sector := Shown(reading, i - 1, blocks), GoodSector(reading, i < blocks);
      var rest := SectorWork(env, reading, i, blocks);
      assert SectorWork(env, reading, i - 1, blocks) == sector + rest;
      Regroup(before, sector, rest);
    }
  }

  lemma Regroup(a: seq<Work>, b: seq<Work>, c: seq<Work>)
    ensures a + (b + c) == a + b + c
  {
  }

  /** Outcomes of a loop that stopped after `k` good sectors, for the reason given unless all were good. */
  function Stopped(k: nat, blocks: nat, why: SectorResult, synced: bool): Environment {
    Environment(seq(blocks, i => if i == k then why else Done), true, synced)
  }

  /** How a sector loop ends. */
  datatype Ending = Finished | Aborted | Failed(why: SectorResult)

  /** What the loop shows after its last good sector. */
  function EndingWork(ending: Ending, reading: bool): seq<Work> {
    match ending
    case Finished => []
    case Aborted => [LookForReset]
    case Failed(why) =>
      if why == FailedEarly then [LookForReset] else [LookForReset, DataPhase(reading)]
  }

  predicate EndsAt(ending: Ending, reading: bool, k: nat, blocks: nat) {
    && k <= blocks && (ending.Finished? <==> k == blocks)
    && (ending.Failed? ==> ending.why != Done && (!reading ==> ending.why == FailedLate))
  }

  function EnvironmentOf(ending: Ending, k: nat, blocks: nat, synced: bool): Environment {
    Stopped(k, blocks, if ending.Failed? then ending.why else Done, synced)
  }

  /** What READ(6) or WRITE(6) has shown when its loop ends, short of the last look for a reset. */
  function ShownInAll(cdb: seq<bv8>, ending: Ending, k: nat): seq<Work>
    requires |cdb| >= 6 && k <= Blocks(cdb)
  {
    Shown(cdb[0] == 0x08, k, Blocks(cdb)) + EndingWork(ending, cdb[0] == 0x08)
  }

  /** It is what the register-window model shows, to the end unless the host reset the card; and so is the verdict. */
  lemma HandlerShown(cdb: seq<bv8>, ending: Ending, k: nat, synced: bool)
    requires |cdb| >= 6 && (cdb[0] == 0x08 || cdb[0] == 0x0A) && EndsAt(ending, cdb[0] == 0x08, k, Blocks(cdb))
    ensures var env := EnvironmentOf(ending, k, Blocks(cdb), synced);
            && ShownInAll(cdb, ending, k) <= HandlerWork(cdb, true, env)
            && (!ending.Aborted? ==>
                  && ShownInAll(cdb, ending, k) + [LookForReset] == HandlerWork(cdb, true, env)
                  && HandlerVerdict(cdb, true, env) == Judge(ending.Finished? && (cdb[0] == 0x0A ==> synced)))
  {
    var reading, blocks := cdb[0] == 0x08, Blocks(cdb);
    var env := EnvironmentOf(ending, k, blocks, synced);
    assert DoneUpTo(env, k);
    SectorWorkSplits(env, reading, k, blocks);
    if ending.Failed? {
      assert Outcome(env, k) == ending.why != Done;
    }
  }

  /** Victor RAM with `k` sectors from `lba` on and then `rest` laid down from `start`. */
  function Fetched(ram: seq<byte>, start: nat, live: map<nat, Sector>, lba: nat, k: nat, rest: seq<byte>): seq<byte>
    requires |ram| == SIZE && k <= 256 && Has(live, lba, k) && |rest| <= SECTOR
  {
    Blit(ram, start, Image(live, lba, k) + rest)
  }

  lemma FetchedNone(ram: seq<byte>, start: nat, live: map<nat, Sector>, lba: nat)
    requires |ram| == SIZE
    ensures Fetched(ram, start, live, lba, 0, []) == ram
  {
  }

  lemma FetchedPart(ram: seq<byte>, start: nat, live: map<nat, Sector>, lba: nat, k: nat, rest: seq<byte>)
    requires |ram| == SIZE && k < 256 && Has(live, lba, k) && |rest| <= SECTOR
    ensures Blit(Fetched(ram, start, live, lba, k, []), At(start, k * SECTOR), rest)
            == Fetched(ram, start, live, lba, k, rest)
  {
    var image := Image(live, lba, k);
    assert image + [] == image;
    BlitWraps(Blit(ram, start, image), start + k * SECTOR, rest);
    BlitAppend(ram, start, image, rest);
  }

  lemma FetchedNext(ram: seq<byte>, start: nat, live: map<nat, Sector>, lba: nat, k: nat)
    requires |ram| == SIZE && k < 256 && Has(live, lba, k + 1)
    ensures Fetched(ram, start, live, lba, k, live[lba + k]) == Fetched(ram, start, live, lba, k + 1, [])
    ensures At(At(start, k * SECTOR), SECTOR) == At(start, (k + 1) * SECTOR)
  {
    assert Image(live, lba, k) + live[lba + k] == Image(live, lba, k + 1) + [];
    AtAdds(start, k * SECTOR, SECTOR);
  }

  class Card {
    const master: DmaMaster.Master
    const storage: Storage
    const target: nat
    // the address register and the three cells a host reads it from
    var address: nat
    var low: byte
    var mid: byte
    var high: byte
    var bus: bv8
    var resetRequested: bool
    // the bus changes and looks for a reset of the command at hand, and the status bytes of all
    ghost var work: seq<Work>
    ghost var posted: seq<bv8>

    ghost predicate Valid()
      reads this, master, storage
    {
      && master.Valid() && master.Idle() && storage.Valid() && target < 8 && address < SIZE
    }

    /** The target is off line, or storage has failed since. */
    ghost predicate Denied(refusals: nat)
      requires Valid()
      reads this, master, storage
    {
      !storage.disks[target].mounted || storage.refusals > refusals
    }

    /** Eight tries for a sector have run out since. */
    ghost predicate BusStuck(timeouts: nat)
      reads master
    {
      master.timeouts >= timeouts + 8
    }

    /** What the host reads back in the three address registers. */
    predicate AddressShown()
      reads this
    {
      address == low + 0x100 * mid + 0x1_0000 * high
    }

    constructor (master: DmaMaster.Master, storage: Storage, target: nat)
      requires master.Valid() && master.Idle() && storage.Valid() && target < 8
      ensures Valid() && AddressShown() && this.master == master && this.storage == storage && this.target == target
      ensures work == [] && posted == []
    {
      this.master, this.storage, this.target := master, storage, target;
      address, low, mid, high, bus, resetRequested := 0, 0, 0, 0, 0, false;
      work, posted := [], [];
    }

    /**
     * The host may write address bytes and CONTROL resets at any time; the ISR stores them at once.  `wrote`
     * says whether address bytes were among it.
     */
    method HostWrites() returns (ghost wrote: bool)
      requires address < SIZE
      modifies this`address, this`low, this`mid, this`high, this`resetRequested
      ensures address < SIZE && (old(resetRequested) ==> resetRequested)
      ensures wrote ==> AddressShown()
      ensures !wrote ==> address == old(address) && low == old(low) && mid == old(mid) && high == old(high)
    {
      var bytes: int := *;
      var reset: bool := *;
      wrote := 0 <= bytes < SIZE;
      if 0 <= bytes < SIZE {
        address, low, mid, high := bytes, bytes % 0x100, bytes / 0x100 % 0x100, bytes / 0x1_0000;
      }
      resetRequested := resetRequested || reset;
    }

    /** The command delay and the start of execution, with the address register read once. */
    method Begin() returns (start: nat)
      requires Valid()
      modifies this`work, this`bus, this`address, this`low, this`mid, this`high, this`resetRequested
      ensures Valid() && work == [CommandBusy, CommandBusy] && start == old(address)
      ensures old(resetRequested) ==> resetRequested
    {
      work := [];
      ShowPhase(CommandBusy);
      ShowPhase(CommandBusy);
      start := address;
      var _ := HostWrites();
    }

    method ShowPhase(w: Work)
      requires w.Show?
      modifies this`bus, this`work
      ensures bus == Drive(old(bus), w.clear, w.put) && work == old(work) + [w]
    {
      bus := Drive(bus, w.clear, w.put);
      work := work + [w];
    }

    method LookAtReset() returns (pending: bool)
      modifies this`work
      ensures work == old(work) + [LookForReset] && pending == resetRequested
    {
      work := work + [LookForReset];
      pending := resetRequested;
    }

    /** The last act of a command: the address register is put back and shown, then the status. */
    method Finish(end: nat, status: bv8)
      requires end < SIZE
      modifies this`address, this`low, this`mid, this`high, this`bus, this`posted
      ensures address == end && AddressShown() && posted == old(posted) + [status]
      ensures Phase(bus) == PHASE_STATUS
    {
      address := end;
      low, mid, high := address % 0x100, address / 0x100 % 0x100, address / 0x1_0000;
      EnterStatusPhase(status);
    }

    method EnterStatusPhase(status: bv8)
      modifies this`bus, this`posted
      ensures posted == old(posted) + [status] && Phase(bus) == PHASE_STATUS
    {
      posted := posted + [status];
      bus := Drive(bus, ACK | MSG, BSY | REQ | CTL | INP);
    }

    /** Up to eight tries to put one sector into Victor RAM; tries that fail leave a prefix of it at most. */
    method SectorToVictor(buf: array<byte>, start: nat) returns (ok: bool, ghost part: nat)
      requires Valid() && buf.Length == SECTOR && buf != master.ram
      modifies master, master.ram, this`address, this`low, this`mid, this`high, this`resetRequested
      ensures Valid() && (old(resetRequested) ==> resetRequested) && part <= SECTOR && (ok ==> part == SECTOR)
      ensures old(master.timeouts) <= master.timeouts <= old(master.timeouts) + 8
      ensures !ok <==> master.timeouts == old(master.timeouts) + 8
      ensures master.ram[..] == Blit(old(master.ram[..]), start, buf[..part])
    {
      ok, part := false, 0;
      var attempt := 0;
      assert Blit(master.ram[..], start, []) == master.ram[..];
      while attempt < RETRIES && !ok
        invariant attempt <= RETRIES && Valid() && (old(resetRequested) ==> resetRequested)
        invariant part <= SECTOR && (ok ==> part == SECTOR) && buf[..] == old(buf[..])
        invariant (ok ==> attempt > 0) && master.timeouts == old(master.timeouts) + attempt - (if ok then 1 else 0)
        invariant master.ram[..] == Blit(old(master.ram[..]), start, buf[..part])
        decreases RETRIES - attempt, !ok
      {
        ok := master.WriteToVictor(buf, SECTOR, start);
        BlitPartials(old(master.ram[..]), start, buf[..], part, master.done);
        part := if part < master.done then master.done else part;
        var _ := HostWrites();
        attempt := attempt + 1;
      }
    }

    /** One sector of a READ. */
    method ReadOne(lba: nat, at: nat, buf: array<byte>) returns (result: SectorResult, ghost part: nat)
      requires Valid() && buf.Length == SECTOR && buf != master.ram
      modifies master, master.ram, storage, buf, this`bus, this`work
      modifies this`address, this`low, this`mid, this`high, this`resetRequested
      ensures Valid() && storage.Untouched(target) && (old(resetRequested) ==> resetRequested) && part <= SECTOR
      ensures result == FailedEarly ==> work == old(work) && master.ram[..] == old(master.ram[..])
      ensures result != FailedEarly ==>
                && work == old(work) + [ReadDataIn] && lba in storage.disks[target].live
                && master.ram[..] == Blit(old(master.ram[..]), at, storage.disks[target].live[lba][..part])
      ensures result == Done ==> part == SECTOR
      ensures result == FailedEarly ==> Denied(old(storage.refusals))
      ensures result == FailedLate ==> BusStuck(old(master.timeouts))
      ensures storage.refusals >= old(storage.refusals) && master.timeouts >= old(master.timeouts)
    {
      part := 0;
      var ok := false;
      if storage.disks[target].mounted {
        ok := storage.ReadSector(target, lba, buf);
      }
      var _ := HostWrites();
      if !ok { return FailedEarly, 0; }
      ShowPhase(ReadDataIn);
      ok, part := SectorToVictor(buf, at);
      result := if ok then Done else FailedLate;
    }

    /** The sector loop of READ. */
    method ReadLoop(lba: nat, blocks: nat, start: nat)
      returns (ending: Ending, end: nat, ghost k: nat, ghost rest: seq<byte>)
      requires Valid() && blocks <= 256 && start < SIZE && work == [CommandBusy, CommandBusy]
      modifies master, master.ram, storage, this`bus, this`work
      modifies this`address, this`low, this`mid, this`high, this`resetRequested
      ensures Valid() && storage.Untouched(target) && EndsAt(ending, true, k, blocks) && |rest| <= SECTOR
      ensures Partial(old(storage.disks)[target].live, lba, k, rest) && (rest != [] ==> !ending.Finished?)
      ensures Has(old(storage.disks)[target].live, lba, k) && end == At(start, k * SECTOR)
      ensures master.ram[..] == Fetched(old(master.ram[..]), start, old(storage.disks)[target].live, lba, k, rest)
      ensures work == Shown(true, k, blocks) + EndingWork(ending, true)
      ensures ending.Aborted? || old(resetRequested) ==> resetRequested
      ensures ending.Failed? ==> Denied(old(storage.refusals)) || BusStuck(old(master.timeouts))
    {
      ghost var live, ram0 := storage.disks[target].live, master.ram[..];
      var buf := new byte[SECTOR];
      var i := 0;
      end, k, rest := start, 0, [];
      FetchedNone(ram0, start, live, lba);
      while i < blocks
        invariant i == k <= blocks && Valid() && storage.Untouched(target) && fresh(buf) && rest == []
        invariant end == At(start, k * SECTOR) && Has(live, lba, k)
        invariant master.ram[..] == Fetched(ram0, start, live, lba, k, [])
        invariant work == Shown(true, k, blocks) && (old(resetRequested) ==> resetRequested)
        invariant storage.refusals >= old(storage.refusals) && master.timeouts >= old(master.timeouts)
        decreases blocks - i
      {
        var aborted := LookAtReset();
        if aborted { return Aborted, end, k, []; }
        ghost var part;
        var result;
        result, part := ReadOne(lba + i, end, buf);
        if result == FailedEarly { return Failed(result), end, k, []; }
        assert live[lba + k][..part] <= live[lba + k] && (part == SECTOR ==> live[lba + k][..part] == live[lba + k]);
        FetchedPart(ram0, start, live, lba, k, live[lba + k][..part]);
        assert work == Shown(true, k, blocks) + ([LookForReset, DataPhase(true)]);
        if result != Done { return Failed(result), end, k, live[lba + k][..part]; }
        FetchedNext(ram0, start, live, lba, k);
        end := (end + SECTOR) % SIZE;
        i, k := i + 1, k + 1;
        if i < blocks {
          ShowPhase(CommandBusy);
        }
        assert work == Shown(true, k - 1, blocks) + GoodSector(true, k < blocks);
        var _ := HostWrites();
      }
      ending := Finished;
    }

    /**
     * READ(6) of `n` sectors from `lba` on.  `k` of them went over completely, `rest` is what arrived of the
     * next.  Unless the host reset the card, it is told GOOD exactly when those are all, and the address register
     * has moved by `k` sectors whatever was written to it meanwhile.  It falls short only for cause.
     */
    method HandleRead(cdb: seq<bv8>, ghost lba: nat, ghost n: nat)
      returns (ghost env: Environment, ghost k: nat, ghost rest: seq<byte>)
      requires Valid() && Asks(cdb, 0x08, lba, n)
      modifies this, master, master.ram, storage
      ensures Valid() && storage.Untouched(target)
      ensures k <= n && |rest| <= SECTOR && (k == n ==> rest == [])
      ensures Has(old(storage.disks)[target].live, lba, k)
      ensures Partial(old(storage.disks)[target].live, lba, k, rest)
      ensures master.ram[..]
              == Fetched(old(master.ram[..]), old(address), old(storage.disks)[target].live, lba, k, rest)
      ensures Reported(old(posted), cdb, env, k == n, At(old(address), k * SECTOR))
      ensures k < n && posted != old(posted) ==> Denied(old(storage.refusals)) || BusStuck(old(master.timeouts))
    {
      Understood(cdb, 0x08, lba, n);
      env, k, rest := ReadBlocks(cdb, Lba(cdb), Blocks(cdb));
    }

    method ReadBlocks(cdb: seq<bv8>, lba: nat, blocks: nat)
      returns (ghost env: Environment, ghost k: nat, ghost rest: seq<byte>)
      requires Valid() && |cdb| >= 6 && cdb[0] == 0x08 && blocks == Blocks(cdb)
      modifies this, master, master.ram, storage
      ensures Valid() && storage.Untouched(target)
      ensures k <= blocks && |rest| <= SECTOR && (k == blocks ==> rest == [])
      ensures Has(old(storage.disks)[target].live, lba, k)
      ensures Partial(old(storage.disks)[target].live, lba, k, rest)
      ensures master.ram[..]
              == Fetched(old(master.ram[..]), old(address), old(storage.disks)[target].live, lba, k, rest)
      ensures Reported(old(posted), cdb, env, k == blocks, At(old(address), k * SECTOR))
      ensures k < blocks && posted != old(posted) ==> Denied(old(storage.refusals)) || BusStuck(old(master.timeouts))
    {
      var start := Begin();
      var ending, end;
      ending, end, k, rest := ReadLoop(lba, blocks, start);
      env := ReportRead(cdb, ending, k, end);
    }

    /** The end of a READ: no status if the host reset the card. */
    method ReportRead(cdb: seq<bv8>, ending: Ending, ghost k: nat, end: nat) returns (ghost env: Environment)
      requires |cdb| >= 6 && cdb[0] == 0x08 && EndsAt(ending, true, k, Blocks(cdb))
      requires address < SIZE && end < SIZE && (ending.Aborted? ==> resetRequested)
      requires work == ShownInAll(cdb, ending, k)
      modifies this`work, this`address, this`low, this`mid, this`high, this`bus, this`posted
      ensures address < SIZE && Reported(old(posted), cdb, env, k == Blocks(cdb), end)
      ensures ending.Aborted? ==> posted == old(posted)
    {
      env := EnvironmentOf(ending, k, Blocks(cdb), true);
      HandlerShown(cdb, ending, k, true);
      if ending.Aborted? { return; }
      var pending := LookAtReset();
      if pending { return; }
      Finish(end, if ending.Finished? then GOOD else CHECK_CONDITION);
    }

    /** Up to eight tries to fetch one sector from Victor RAM. */
    method SectorFromVictor(buf: array<byte>, start: nat) returns (ok: bool)
      requires Valid() && buf.Length == SECTOR && buf != master.ram
      modifies master, master.ram, buf, this`address, this`low, this`mid, this`high, this`resetRequested
      ensures Valid() && (old(resetRequested) ==> resetRequested) && master.ram[..] == old(master.ram[..])
      ensures ok ==> buf[..] == Slice(master.ram[..], start, SECTOR)
      ensures old(master.timeouts) <= master.timeouts <= old(master.timeouts) + 8
      ensures !ok <==> master.timeouts == old(master.timeouts) + 8
    {
      ok := false;
      var attempt := 0;
      while attempt < RETRIES && !ok
        invariant attempt <= RETRIES && Valid() && (old(resetRequested) ==> resetRequested)
        invariant master.ram[..] == old(master.ram[..])
        invariant (ok ==> attempt > 0) && master.timeouts == old(master.timeouts) + attempt - (if ok then 1 else 0)
        invariant ok ==> buf[..] == Slice(master.ram[..], start, SECTOR)
        decreases RETRIES - attempt, !ok
      {
        ok := master.ReadFromVictor(buf, SECTOR, start);
        assert buf[..SECTOR] == buf[..];
        var _ := HostWrites();
        attempt := attempt + 1;
      }
    }

    /**
     * One sector of a WRITE: only a complete one counts, and it needs a target that is on line.  `refused` says
     * that storage was asked to write and failed; short of that a failure leaves every disk as it was.
     */
    method WriteOne(lba: nat, at: nat, buf: array<byte>) returns (result: SectorResult, ghost refused: bool)
      requires Valid() && buf.Length == SECTOR && buf != master.ram
      modifies master, master.ram, storage, buf, this`bus, this`work
      modifies this`address, this`low, this`mid, this`high, this`resetRequested
      ensures Valid() && (old(resetRequested) ==> resetRequested) && master.ram[..] == old(master.ram[..])
      ensures work == old(work) + [DataOutBusy] && storage.OthersUntouched(target) && result != FailedEarly
      ensures storage.disks[target].stable == old(storage.disks)[target].stable
      ensures result == Done ==>
                && !refused && lba in old(storage.disks)[target].live && storage.disks[target].mounted
                && storage.disks[target].live
                   == old(storage.disks)[target].live[lba := Slice(master.ram[..], at, SECTOR)]
      ensures refused ==> AgreesBut(storage.disks[target].live, old(storage.disks)[target].live, lba)
      ensures result != Done ==> Denied(old(storage.refusals)) || BusStuck(old(master.timeouts))
      ensures result == Done ==> storage.refusals == old(storage.refusals)
      ensures storage.refusals >= old(storage.refusals) && master.timeouts >= old(master.timeouts)
      ensures result != Done && !refused ==> storage.disks == old(storage.disks)
    {
      refused := false;
      ShowPhase(DataOutBusy);
      var ok := SectorFromVictor(buf, at);
      if !ok { return FailedLate, false; }
      if !storage.disks[target].mounted { return FailedLate, false; }
      ok := storage.WriteSector(target, lba, buf);
      refused := !ok;
      var _ := HostWrites();
      result := if ok then Done else FailedLate;
    }

    /** The sector loop of WRITE. */
    method WriteLoop(lba: nat, blocks: nat, start: nat)
      returns (ending: Ending, end: nat, ghost k: nat, ghost refused: bool)
      requires Valid() && blocks <= 256 && start < SIZE && work == [CommandBusy, CommandBusy]
      modifies master, master.ram, storage, this`bus, this`work
      modifies this`address, this`low, this`mid, this`high, this`resetRequested
      ensures Valid() && storage.OthersUntouched(target) && EndsAt(ending, false, k, blocks)
      ensures Has(old(storage.disks)[target].live, lba, k) && end == At(start, k * SECTOR)
      ensures master.ram[..] == old(master.ram[..]) && (refused ==> ending.Failed?)
      ensures Holds(storage.disks[target].live, old(storage.disks)[target].live, lba, old(master.ram[..]), start, k,
                    refused)
      ensures storage.disks[target].stable == old(storage.disks)[target].stable
      ensures k > 0 && ending.Finished? ==> storage.disks[target].mounted
      ensures work == Shown(false, k, blocks) + EndingWork(ending, false)
      ensures ending.Aborted? || old(resetRequested) ==> resetRequested
      ensures ending.Failed? ==> Denied(old(storage.refusals)) || BusStuck(old(master.timeouts))
      ensures ending.Finished? ==> storage.refusals == old(storage.refusals)
    {
      ghost var live, ram := storage.disks[target].live, master.ram[..];
      var buf := new byte[SECTOR];
      var i := 0;
      end, k, refused := start, 0, false;
      while i < blocks
        invariant i == k <= blocks && Valid() && storage.OthersUntouched(target) && fresh(buf) && !refused
        invariant end == At(start, k * SECTOR) && Has(live, lba, k) && master.ram[..] == ram
        invariant Holds(storage.disks[target].live, live, lba, ram, start, k, false)
        invariant storage.disks[target].stable == old(storage.disks)[target].stable
        invariant work == Shown(false, k, blocks) && (old(resetRequested) ==> resetRequested)
        invariant storage.refusals == old(storage.refusals) && master.timeouts >= old(master.timeouts)
        invariant k > 0 ==> storage.disks[target].mounted
        decreases blocks - i
      {
        var aborted := LookAtReset();
        if aborted { return Aborted, end, k, false; }
        ghost var before := storage.disks[target].live;
        var result;
        result, refused := WriteOne(lba + i, end, buf);
        assert work == Shown(false, k, blocks) + ([LookForReset, DataPhase(false)]);
        if result != Done {
          if refused {
            HoldsTorn(storage.disks[target].live, before, live, lba, ram, start, k);
          }
          return Failed(result), end, k, refused;
        }
        StoredAt(live, lba, Slice(ram, start, k * SECTOR), k, lba + k);
        HoldsNext(before, live, lba, ram, start, k);
        end := (end + SECTOR) % SIZE;
        i, k := i + 1, k + 1;
        if i < blocks {
          ShowPhase(CommandBusy);
        }
        assert work == Shown(false, k - 1, blocks) + GoodSector(false, k < blocks);
        var _ := HostWrites();
      }
      ending := Finished;
    }

    /**
     * WRITE(6) of `n` sectors from `lba` on.  Memory is only read; exactly `k` sectors of it are on the disk, no
     * other sector and no other disk has changed, unless storage itself refused the next sector, which it may then
     * have torn.  GOOD says that all are there and on the medium; `synced` is what storage said to the sync.
     */
    method HandleWrite(cdb: seq<bv8>, ghost lba: nat, ghost n: nat)
      returns (ghost env: Environment, ghost k: nat, ghost refused: bool, ghost synced: bool)
      requires Valid() && Asks(cdb, 0x0A, lba, n)
      modifies this, master, master.ram, storage
      ensures Valid() && storage.OthersUntouched(target) && master.ram[..] == old(master.ram[..])
      ensures k <= n && Has(old(storage.disks)[target].live, lba, k)
      ensures Holds(storage.disks[target].live, old(storage.disks)[target].live, lba, old(master.ram[..]),
                    old(address), k, refused)
      ensures refused ==> k < n
      ensures k < n ==> storage.disks[target].stable == old(storage.disks)[target].stable
      ensures posted != old(posted) && k == n && synced ==>
                storage.disks[target].stable == storage.disks[target].live
      ensures Reported(old(posted), cdb, env, k == n && synced, At(old(address), k * SECTOR))
      ensures k < n && posted != old(posted) ==> Denied(old(storage.refusals)) || BusStuck(old(master.timeouts))
      ensures k == n ==> storage.refusals == old(storage.refusals) + (if synced then 0 else 1)
    {
      Understood(cdb, 0x0A, lba, n);
      env, k, refused, synced := WriteBlocks(cdb, Lba(cdb), Blocks(cdb));
    }

    method WriteBlocks(cdb: seq<bv8>, lba: nat, blocks: nat)
      returns (ghost env: Environment, ghost k: nat, ghost refused: bool, ghost synced: bool)
      requires Valid() && |cdb| >= 6 && cdb[0] == 0x0A && blocks == Blocks(cdb)
      modifies this, master, master.ram, storage
      ensures Valid() && storage.OthersUntouched(target) && master.ram[..] == old(master.ram[..])
      ensures k <= blocks && Has(old(storage.disks)[target].live, lba, k)
      ensures Holds(storage.disks[target].live, old(storage.disks)[target].live, lba, old(master.ram[..]),
                    old(address), k, refused)
      ensures refused ==> k < blocks
      ensures k < blocks ==> storage.disks[target].stable == old(storage.disks)[target].stable
      ensures posted != old(posted) && k == blocks && synced ==>
                storage.disks[target].stable == storage.disks[target].live
      ensures Reported(old(posted), cdb, env, k == blocks && synced, At(old(address), k * SECTOR))
      ensures k < blocks && posted != old(posted) ==> Denied(old(storage.refusals)) || BusStuck(old(master.timeouts))
      ensures k == blocks ==> storage.refusals == old(storage.refusals) + (if synced then 0 else 1)
    {
      var start := Begin();
      var ending, end;
      ending, end, k, refused := WriteLoop(lba, blocks, start);
      env, synced := ReportWrite(cdb, ending, k, end);
    }

    /** The end of a WRITE: the sync comes before the status, which is withheld if the host reset the card. */
    method ReportWrite(cdb: seq<bv8>, ending: Ending, ghost k: nat, end: nat)
      returns (ghost env: Environment, ghost synced: bool)
      requires Valid() && |cdb| >= 6 && cdb[0] == 0x0A && EndsAt(ending, false, k, Blocks(cdb))
      requires end < SIZE && (ending.Aborted? ==> resetRequested)
      requires ending.Finished? ==> storage.disks[target].mounted
      requires work == ShownInAll(cdb, ending, k)
      modifies storage, this`work, this`address, this`low, this`mid, this`high, this`bus, this`posted
      ensures Valid() && storage.OthersUntouched(target)
      ensures storage.disks[target].live == old(storage.disks)[target].live
      ensures k < Blocks(cdb) ==> storage.disks[target].stable == old(storage.disks)[target].stable
      ensures posted != old(posted) && k == Blocks(cdb) && synced ==>
                storage.disks[target].stable == storage.disks[target].live
      ensures Reported(old(posted), cdb, env, k == Blocks(cdb) && synced, end)
      ensures ending.Aborted? ==> posted == old(posted)
      ensures storage.refusals == old(storage.refusals) + (if synced then 0 else 1)
      ensures k < Blocks(cdb) ==> storage.disks[target].mounted == old(storage.disks)[target].mounted
    {
      synced := true;
      env := EnvironmentOf(ending, k, Blocks(cdb), synced);
      HandlerShown(cdb, ending, k, true);
      HandlerShown(cdb, ending, k, false);
      if ending.Aborted? { return; }
      var pending := LookAtReset();
      if pending { return; }
      var ok := ending.Finished?;
      if ok && storage.disks[target].mounted {
        ok := storage.Sync(target);
        synced := ok;
        env := EnvironmentOf(ending, k, Blocks(cdb), synced);
      }
      Finish(end, if ok then GOOD else CHECK_CONDITION);
    }

    /**
     * REQUEST SENSE: up to four zero bytes.  The address register moves, and the host is told GOOD, exactly if
     * they all went over.
     */
    method HandleSense(cdb: seq<bv8>) returns (ghost env: Environment, ok: bool, ghost part: nat, ghost wrote: bool)
      requires Valid() && |cdb| >= 6 && cdb[0] == 0x03
      modifies this, master, master.ram
      ensures Valid() && part <= SenseSize(cdb) && (ok ==> part == SenseSize(cdb))
      ensures master.ram[..] == Blit(old(master.ram[..]), old(address), seq(part, _ => 0))
      ensures Completed(old(posted), cdb, env, ok) && work == [SenseDataIn]
      ensures master.timeouts == old(master.timeouts) + if ok then 0 else 1
      ensures ok ==> address == At(old(address), ExpectedDelta(cdb)) && AddressShown()
      ensures !ok && !wrote ==>
                address == old(address) && low == old(low) && mid == old(mid) && high == old(high)
      ensures !ok && wrote ==> AddressShown()
      ensures old(resetRequested) ==> resetRequested
    {
      var size := SenseSize(cdb);
      var sense := new byte[4](_ => 0);
      work := [];
      ShowPhase(SenseDataIn);
      var start := address;
      ok := master.WriteToVictor(sense, size, start);
      part := master.done;
      assert forall j :: 0 <= j < part ==> sense[..size][..part][j] == 0;
      assert sense[..size][..part] == seq(part, _ => 0);
      wrote := HostWrites();
      env := Environment([], ok, true);
      if ok {
        Finish(At(start, size), GOOD);
      } else {
        EnterStatusPhase(CHECK_CONDITION);
      }
    }

    /** SET DRIVE PARAMETERS with DMA on: eight bytes of memory, which are not looked at. */
    method HandleDriveParameters(cdb: seq<bv8>) returns (ghost env: Environment, ok: bool, ghost wrote: bool)
      requires Valid() && |cdb| >= 6 && cdb[0] == 0x0C
      modifies this, master, master.ram
      ensures Valid() && Completed(old(posted), cdb, env, ok) && work == [DataOutBusy]
      ensures Fetches(ExpectedDelta(cdb), ok, wrote)
    {
      work := [];
      ShowPhase(DataOutBusy);
      ok, wrote := FetchParameters(8);
      env := Environment([], ok, true);
    }

    /** MODE SELECT: as many bytes of memory as the command says; none makes it GOOD at once. */
    method HandleModeSelect(cdb: seq<bv8>) returns (ghost env: Environment, ok: bool, ghost wrote: bool)
      requires Valid() && |cdb| >= 6 && cdb[0] == 0x15
      modifies this, master, master.ram
      ensures Valid() && Completed(old(posted), cdb, env, ok)
      ensures if cdb[4] == 0 then
                && ok && work == [] && address == old(address) && master.timeouts == old(master.timeouts)
                && master.ram[..] == old(master.ram[..])
              else work == [ModeDataOut] && Fetches(cdb[4] as nat, ok, wrote)
    {
      work := [];
      ok, wrote := true, false;
      if cdb[4] != 0 {
        ShowPhase(ModeDataOut);
        ok, wrote := FetchParameters(cdb[4] as nat);
      } else {
        EnterStatusPhase(GOOD);
      }
      env := Environment([], ok, true);
    }

    /** Parameter bytes from memory, and the status that says whether they came. */
    method FetchParameters(n: nat) returns (ok: bool, ghost wrote: bool)
      requires Valid() && n <= 256
      modifies this`address, this`low, this`mid, this`high, this`resetRequested, this`bus, this`posted
      modifies master, master.ram
      ensures Valid() && Fetches(n, ok, wrote)
      ensures posted == old(posted) + [if ok then GOOD else CHECK_CONDITION] && Phase(bus) == PHASE_STATUS
    {
      var params := new byte[256];
      var start := address;
      ok := master.ReadFromVictor(params, n, start);
      wrote := HostWrites();
      if ok {
        Finish(At(start, n), GOOD);
      } else {
        EnterStatusPhase(CHECK_CONDITION);
      }
    }

    /** Memory is as before; the address register moves by `n` exactly if no wait ran out. */
    twostate predicate Fetches(n: nat, ok: bool, wrote: bool)
      reads this, master, master.ram
    {
      && master.ram[..] == old(master.ram[..])
      && master.timeouts == old(master.timeouts) + (if ok then 0 else 1)
      && (ok ==> address == At(old(address), n) && AddressShown())
      && (!ok && !wrote ==> address == old(address) && low == old(low) && mid == old(mid) && high == old(high))
      && (!ok && wrote ==> AddressShown())
      && (old(resetRequested) ==> resetRequested)
    }

    /** How a command that does not look for a reset is reported. */
    ghost predicate Completed(before: seq<bv8>, cdb: seq<bv8>, env: Environment, ok: bool)
      requires |cdb| >= 6
      reads this
    {
      var status := if ok then GOOD else CHECK_CONDITION;
      && posted == before + [status] && HandlerVerdict(cdb, true, env) == Complete(status)
      && work == HandlerWork(cdb, true, env) && Phase(bus) == PHASE_STATUS
    }

    /** How a transfer is reported: by status and address, or not at all because the host reset the card. */
    ghost predicate Reported(before: seq<bv8>, cdb: seq<bv8>, env: Environment, ok: bool, end: nat)
      requires |cdb| >= 6
      reads this
    {
      var status := if ok then GOOD else CHECK_CONDITION;
      && work <= HandlerWork(cdb, true, env)
      && if posted == before then resetRequested
         else
           && posted == before + [status] && HandlerVerdict(cdb, true, env) == Complete(status)
           && work == HandlerWork(cdb, true, env)
           && address == end && AddressShown() && Phase(bus) == PHASE_STATUS
    }
  }

  /** Two states of a disk differ in one sector at most. */
  predicate AgreesBut(now: map<nat, Sector>, was: map<nat, Sector>, lba: nat) {
    now.Keys == was.Keys && forall s | s in was && s != lba :: now[s] == was[s]
  }

  /** The first `k` sectors of a run hold memory from `start` on; `torn` allows for one bad sector after them. */
  ghost predicate Holds(now: map<nat, Sector>, was: map<nat, Sector>, lba: nat, ram: seq<byte>, start: nat, k: nat,
                        torn: bool)
    requires |ram| == SIZE && Has(was, lba, k)
  {
    var stored := Stored(was, lba, Slice(ram, start, k * SECTOR), k);
    if torn then AgreesBut(now, stored, lba + k) else now == stored
  }

  lemma HoldsNext(now: map<nat, Sector>, was: map<nat, Sector>, lba: nat, ram: seq<byte>, start: nat, k: nat)
    requires |ram| == SIZE && Has(was, lba, k + 1) && Holds(now, was, lba, ram, start, k, false)
    ensures Holds(now[lba + k := Slice(ram, At(start, k * SECTOR), SECTOR)], was, lba, ram, start, k + 1, false)
    ensures At(At(start, k * SECTOR), SECTOR) == At(start, (k + 1) * SECTOR)
  {
    var first, next := Slice(ram, start, k * SECTOR), Slice(ram, At(start, k * SECTOR), SECTOR);
    SliceAppend(ram, start, k * SECTOR, SECTOR);
    SliceWraps(ram, start + k * SECTOR, SECTOR);
    AtAdds(start, k * SECTOR, SECTOR);
    StoredPrefix(was, lba, first, next, k);
    assert SectorOf(first + next, k) == next;
  }

  lemma HoldsTorn(now: map<nat, Sector>, before: map<nat, Sector>, was: map<nat, Sector>, lba: nat, ram: seq<byte>,
                  start: nat, k: nat)
    requires |ram| == SIZE && Has(was, lba, k)
    requires Holds(before, was, lba, ram, start, k, false) && AgreesBut(now, before, lba + k)
    ensures Holds(now, was, lba, ram, start, k, true)
  {
  }

  /** `rest` is the beginning of the sector `k` places on, which the disk has. */
  predicate Partial(live: map<nat, Sector>, lba: nat, k: nat, rest: seq<byte>) {
    rest != [] ==> lba + k in live && rest <= live[lba + k]
  }

  // ---------------------------------------------------------------- what the host finds

  /** Byte `j` of the `i`-th sector is 512 i + j places after the start address. */
  lemma FetchedBytes(ram: seq<byte>, start: nat, live: map<nat, Sector>, lba: nat, k: nat, rest: seq<byte>, i: nat,
                     j: nat)
    requires |ram| == SIZE && k <= 256 && Has(live, lba, k) && |rest| <= SECTOR && i < k && j < SECTOR
    ensures Fetched(ram, start, live, lba, k, rest)[At(start, i * SECTOR + j)] == live[lba + i][j]
  {
    ImageAt(live, lba, k, i, j);
    OffsetOf(start, i * SECTOR + j);
  }

  /** Nothing else in memory has changed. */
  lemma FetchedElsewhere(ram: seq<byte>, start: nat, live: map<nat, Sector>, lba: nat, k: nat, rest: seq<byte>, a: nat)
    requires |ram| == SIZE && k <= 256 && Has(live, lba, k) && |rest| <= SECTOR
    requires a < SIZE && Offset(a, start) >= k * SECTOR + |rest|
    ensures k * SECTOR + |rest| <= SIZE && Fetched(ram, start, live, lba, k, rest)[a] == ram[a]
  {
  }

  /** A sector of a WRITE holds the memory it was told to, and all but a torn one are as before outside the run. */
  lemma HoldsSectors(now: map<nat, Sector>, was: map<nat, Sector>, lba: nat, ram: seq<byte>, start: nat, k: nat,
                     torn: bool, s: nat)
    requires |ram| == SIZE && Has(was, lba, k) && s in was && Holds(now, was, lba, ram, start, k, torn)
    requires torn ==> s != lba + k
    ensures s in now
    ensures lba <= s < lba + k ==> now[s] == Slice(ram, At(start, (s - lba) * SECTOR), SECTOR)
    ensures !(lba <= s < lba + k) ==> now[s] == was[s]
  {
    var bytes := Slice(ram, start, k * SECTOR);
    StoredAt(was, lba, bytes, k, s);
    if lba <= s < lba + k {
      var i := s - lba;
      SliceWraps(ram, start + i * SECTOR, SECTOR);
      SliceAppend(ram, start, i * SECTOR, SECTOR);
      SliceAppend(ram, start, (i + 1) * SECTOR, (k - i - 1) * SECTOR);
      assert (i + 1) * SECTOR + (k - i - 1) * SECTOR == k * SECTOR;
      assert SectorOf(bytes, i) == Slice(ram, start + i * SECTOR, SECTOR);
    }
  }

  /** A WRITE from one address and a READ to another, both GOOD, copy the memory byte for byte. */
  lemma WriteReadRoundTrip(was: map<nat, Sector>, now: map<nat, Sector>, lba: nat, n: nat,
                           ram1: seq<byte>, start1: nat, ram2: seq<byte>, start2: nat)
    requires |ram1| == SIZE && |ram2| == SIZE && n <= 256 && Has(was, lba, n)
    requires Holds(now, was, lba, ram1, start1, n, false)
    ensures Has(now, lba, n)
    ensures Slice(Fetched(ram2, start2, now, lba, n, []), start2, n * SECTOR) == Slice(ram1, start1, n * SECTOR)
  {
    var bytes := Slice(ram1, start1, n * SECTOR);
    ImageOfStored(was, lba, bytes, n, n);
    assert Image(now, lba, n) + [] == Image(now, lba, n) == bytes;
    SliceBlit(ram2, start2, bytes);
  }

  /** Where a GOOD transfer of `n` sectors leaves the address register is where the boot-sequence host expects it. */
  lemma DeltaAsExpected(cdb: seq<bv8>, lba: nat, n: nat, start: nat, k: nat)
    requires (Asks(cdb, 0x08, lba, n) || Asks(cdb, 0x0A, lba, n)) && k <= n && start < SIZE
    ensures ExpectedDelta(cdb) == n * 512
    ensures At(start, k * SECTOR) == At(start, ExpectedDelta(cdb)) <==> k == n
  {
    Understood(cdb, cdb[0], lba, n);
    MovedBy(start, n, k);
  }

  lemma MovedBy(start: nat, n: nat, k: nat)
    requires k <= n <= 256 && start < SIZE
    ensures At(start, k * SECTOR) == At(start, n * SECTOR) <==> k == n
  {
    var d := n * SECTOR - k * SECTOR;
    assert 0 <= d < SIZE;
    if At(start, k * SECTOR) == At(start, n * SECTOR) && d > 0 {
      OffsetOf(start, k * SECTOR);
      OffsetOf(start, n * SECTOR);
    }
  }
}
