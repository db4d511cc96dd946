/**
 * Bus mastering: a transfer asks for the bus in batches of 128 bytes, feeds two words per byte to the bus
 * state machine and gives the bus back to the register window whatever happens.
 */
module DmaMaster {
  import opened Basics
  import opened VictorMemory

  const BATCH: nat := 128
  const FIFO_DEPTH: nat := 4
  const READ_HOLD: nat := 0xFFF00

  /** What the bus does for a pair of words. */
  datatype Cycle = Store(a: nat, b: byte) | Fetch(a: nat) | Garbled

  function StoreWord1(a: nat): nat {
    a % SIZE * 2 + 1
  }

  function StoreWord2(a: nat, b: byte): nat {
    a % SIZE / 256 * 256 + b
  }

  function FetchWord1(a: nat): nat {
    a % SIZE * 2
  }

  /**
   * Bit 0 of the first word selects a write; its address is latched.  During a write the second word must
   * keep A8 to A19 as latched, beside the data; during a read it must release just the eight data lines.
   */
  function Meaning(word1: nat, word2: nat): Cycle {
    var a := word1 / 2;
    if a >= SIZE then Garbled
    else if word1 % 2 == 1 then
      if word2 / 256 == a / 256 then Store(a, word2 % 256) else Garbled
    else if word2 == 0xFFF00 then Fetch(a) else Garbled
  }

  lemma StoreMeaning(a: nat, b: byte)
    ensures Meaning(StoreWord1(a), StoreWord2(a, b)) == Store(a % SIZE, b)
  {
    var w := a % SIZE;
    assert (w / 256 * 256 + b) / 256 == w / 256 && (w / 256 * 256 + b) % 256 == b;
  }

  lemma FetchMeaning(a: nat)
    ensures Meaning(FetchWord1(a), READ_HOLD) == Fetch(a % SIZE)
  {
  }

  /** A transfer: bytes for memory, or a count of bytes from it. */
  datatype Job = Put(start: nat, data: seq<byte>) | Get(start: nat, n: nat)

  function Size(job: Job): nat {
    if job.Put? then |job.data| else job.n
  }

  /** Word `j` of a transfer: two words for each byte, in address order. */
  function Word(job: Job, j: nat): nat
    requires j < 2 * Size(job)
  {
    var a := At(job.start, j / 2);
    match job
    case Put(_, data) => if j % 2 == 0 then StoreWord1(a) else StoreWord2(a, data[j / 2])
    case Get(_, _) => if j % 2 == 0 then FetchWord1(a) else READ_HOLD
  }

  /** The words of a transfer mean: store or fetch each byte of the run once, in order. */
  lemma WordsMean(job: Job, i: nat)
    requires i < Size(job)
    ensures Meaning(Word(job, 2 * i), Word(job, 2 * i + 1))
            == if job.Put? then Store(At(job.start, i), job.data[i]) else Fetch(At(job.start, i))
  {
    Halves(i);
    var a := At(job.start, i);
    assert a % SIZE == a;
    if job.Put? {
      StoreMeaning(a, job.data[i]);
    } else {
      FetchMeaning(a);
    }
  }

  lemma Halves(i: nat)
    ensures 2 * i / 2 == i && (2 * i + 1) / 2 == i && 2 * i % 2 == 0 && (2 * i + 1) % 2 == 1
  {
  }

  /** Memory when the first `k` cycles of a transfer have happened. */
  function MemoryAfter(mem: seq<byte>, job: Job, k: nat): (after: seq<byte>)
    requires |mem| == SIZE && k <= Size(job)
    ensures |after| == SIZE
  {
    if job.Put? then Blit(mem, job.start, job.data[..k]) else mem
  }

  lemma NextStore(mem: seq<byte>, job: Job, k: nat)
    requires |mem| == SIZE && job.Put? && k < Size(job)
    ensures MemoryAfter(mem, job, k)[At(job.start, k) := job.data[k]] == MemoryAfter(mem, job, k + 1)
  {
    assert job.data[..k + 1] == job.data[..k] + [job.data[k]];
    BlitOneMore(mem, job.start, job.data[..k], job.data[k]);
  }

  /** The two oldest words of those still in the FIFO, and what is left behind them. */
  lemma OldestMeans(job: Job, emitted: seq<nat>, done: nat, tx: seq<nat>)
    requires |emitted| <= 2 * Size(job) && 2 * done <= |emitted| && tx == emitted[2 * done..] && |tx| >= 2
    requires forall j :: 0 <= j < |emitted| ==> emitted[j] == Word(job, j)
    ensures Meaning(tx[0], tx[1])
            == if job.Put? then Store(At(job.start, done), job.data[done]) else Fetch(At(job.start, done))
    ensures tx[2..] == emitted[2 * (done + 1)..]
  {
    WordsMean(job, done);
    assert tx[0] == Word(job, 2 * done) && tx[1] == Word(job, 2 * done + 1);
  }

  class Master {
    const ram: array<byte>
    var hold: bool
    var registerSm: bool
    var dmaSm: bool
    var tx: seq<nat>
    var rx: seq<byte>

    // the transfer under way: memory when it began, words sent, cycles done and bytes fetched so far
    ghost var base: seq<byte>
    ghost var sent: nat
    ghost var done: nat
    ghost var taken: nat
    // the words of this transfer so far, and the bytes moved under the present hold of the bus
    ghost var emitted: seq<nat>
    ghost var held: nat
    // the waits that ran out so far, for the clock, for the bus, for room or for a byte
    ghost var timeouts: nat

    /** The Victor has its bus, the register window listens and the bus state machine is off. */
    predicate Idle()
      reads this
    {
      !hold && registerSm && !dmaSm && tx == [] && rx == []
    }

    predicate Mastering()
      reads this
    {
      hold && !registerSm && dmaSm
    }

    ghost predicate Valid()
      reads this
    {
      ram.Length == SIZE && held <= 128
    }

    /** Exactly the first `sent` words of the transfer have gone out. */
    ghost predicate Emitted(job: Job)
      reads this
    {
      sent <= 2 * Size(job) && |emitted| == sent && forall j :: 0 <= j < sent ==> emitted[j] == Word(job, j)
    }

    /** Everything sent is either done, in order, or still in the FIFO; nothing else happened to memory. */
    ghost predicate Underway(job: Job)
      reads this, ram
    {
      && Valid() && |base| == SIZE && Emitted(job)
      && taken <= done && 2 * done <= sent
      && tx == emitted[2 * done..]
      && ram[..] == MemoryAfter(base, job, done)
      && (if job.Put? then rx == []
          else |rx| == done - taken && forall k :: 0 <= k < |rx| ==> rx[k] == base[At(job.start, taken + k)])
    }

    constructor ()
      ensures Valid() && Idle() && fresh(ram)
    {
      ram := new byte[SIZE];
      hold, registerSm, dmaSm := false, true, false;
      tx, rx := [], [];
      base, sent, done, taken, emitted, held, timeouts := [], 0, 0, 0, [], 0, 0;
    }

    /** The state machine carries out the two oldest words, or is not there yet. */
    method Advance(ghost job: Job)
      requires Underway(job)
      modifies this`tx, this`rx, ram, this`done
      ensures Underway(job) && done >= old(done) && |tx| <= |old(tx)|
    {
      var ready: bool := *;
      if !ready || |tx| < 2 { return; }
      OldestMeans(job, emitted, done, tx);
      var cycle := Meaning(tx[0], tx[1]);
      match cycle {
        case Store(a, b) =>
          NextStore(base, job, done);
          ram[a] := b;
        case Fetch(a) =>
          rx := rx + [ram[a]];
        case Garbled =>
          assert false;
      }
      tx := tx[2..];
      done := done + 1;
    }

    /** Queues a word, or gives up on a FIFO that stays full. */
    method PutWord(ghost job: Job, word: nat) returns (ok: bool)
      requires Underway(job) && sent < 2 * Size(job) && word == Word(job, sent)
      modifies this`tx, this`rx, ram, this`done, this`sent, this`emitted, this`timeouts
      ensures Underway(job) && sent == old(sent) + if ok then 1 else 0
      ensures timeouts == old(timeouts) + (if ok then 0 else 1)
      ensures !ok ==> |tx| >= 4
    {
      var patience: nat := Patience();
      while |tx| >= FIFO_DEPTH
        invariant Underway(job) && sent == old(sent) && timeouts == old(timeouts)
        decreases patience
      {
        if patience == 0 {
          timeouts := timeouts + 1;
          return false;
        }
        Advance(job);
        patience := patience - 1;
      }
      assert tx + [word] == (emitted + [word])[2 * done..];
      tx, emitted, sent := tx + [word], emitted + [word], sent + 1;
      ok := true;
    }

    /** How often the clock lets a wait look again. */
    method Patience() returns (looks: nat)
    {
      var n: int := *;
      looks := if n < 0 then 0 else n;
    }

    /** Takes the next byte the bus brought in, or gives up. */
    method GetByte(ghost job: Job) returns (ok: bool, b: byte)
      requires Underway(job) && job.Get? && taken < Size(job)
      modifies this`tx, this`rx, ram, this`done, this`taken, this`timeouts
      ensures Underway(job) && taken == old(taken) + (if ok then 1 else 0)
      ensures timeouts == old(timeouts) + (if ok then 0 else 1)
      ensures if ok then b == base[At(job.start, old(taken))] else rx == []
    {
      b := 0;
      var patience: nat := Patience();
      while rx == []
        invariant Underway(job) && taken == old(taken) && timeouts == old(timeouts)
        decreases patience
      {
        if patience == 0 {
          timeouts := timeouts + 1;
          return false, 0;
        }
        Advance(job);
        patience := patience - 1;
      }
      b := rx[0];
      rx := rx[1..];
      taken := taken + 1;
      ok := true;
    }

    /** Waits until every queued word is used up. */
    method DrainTx(ghost job: Job) returns (ok: bool)
      requires Underway(job)
      modifies this`tx, this`rx, ram, this`done, this`timeouts
      ensures Underway(job) && (if ok then 2 * done == sent && tx == [] else tx != [])
      ensures timeouts == old(timeouts) + (if ok then 0 else 1)
    {
      var patience: nat := Patience();
      while |tx| > 0
        invariant Underway(job) && timeouts == old(timeouts)
        decreases patience
      {
        if patience == 0 {
          timeouts := timeouts + 1;
          return false;
        }
        Advance(job);
        patience := patience - 1;
      }
      ok := true;
    }

    /** Waits until no byte brought in is left over. */
    method DrainRx(ghost job: Job) returns (ok: bool)
      requires Underway(job)
      modifies this`tx, this`rx, ram, this`done, this`timeouts
      ensures Underway(job) && (ok <==> rx == [])
      ensures timeouts == old(timeouts) + (if ok then 0 else 1)
    {
      var patience: nat := Patience();
      while |rx| > 0
        invariant Underway(job) && timeouts == old(timeouts)
        decreases patience
      {
        if patience == 0 {
          timeouts := timeouts + 1;
          return false;
        }
        Advance(job);
        patience := patience - 1;
      }
      ok := true;
    }

    /** Asks for the bus; the register window is only silenced once the bus is granted. */
    method StartControl() returns (granted: bool)
      requires Valid() && Idle()
      modifies this`hold, this`registerSm, this`dmaSm, this`tx, this`rx, this`held, this`timeouts
      ensures Valid() && (if granted then Mastering() && tx == [] && rx == [] && held == 0 else Idle())
      ensures timeouts == old(timeouts) + (if granted then 0 else 1)
    {
      var clock: bool := *;
      if !clock {
        timeouts := timeouts + 1;
        return false;
      }
      hold := true;
      var acknowledged: bool := *;
      if !acknowledged {
        hold := false;
        timeouts := timeouts + 1;
        return false;
      }
      registerSm := false;
      tx, rx := [], [];
      held := 0;
      dmaSm := true;
      granted := true;
    }

    /** The one way off the bus, for a release and for an abort alike. */
    method RestoreRegisterBus()
      requires Valid()
      modifies this`hold, this`registerSm, this`dmaSm, this`tx, this`rx
      ensures Valid() && Idle()
    {
      dmaSm := false;
      tx, rx := [], [];
      registerSm := true;
      hold := false;
    }

    ghost method Begin(job: Job)
      requires Valid()
      modifies this`base, this`sent, this`done, this`taken, this`emitted
      ensures base == ram[..] && sent == done == taken == 0 && Emitted(job) && ram[..] == MemoryAfter(base, job, 0)
    {
      base, sent, done, taken, emitted := ram[..], 0, 0, 0, [];
      assert job.Put? ==> Blit(ram[..], job.start, []) == ram[..];
    }

    /** Both words of the byte `index` places into the transfer. */
    method PutPair(ghost job: Job, index: nat, word1: nat, word2: nat) returns (ok: bool)
      requires Underway(job) && index < Size(job) && sent == 2 * index
      requires word1 == Word(job, 2 * index) && word2 == Word(job, 2 * index + 1)
      modifies this`tx, this`rx, ram, this`done, this`sent, this`emitted, this`timeouts
      ensures Underway(job) && (ok ==> sent == 2 * index + 2)
      ensures timeouts == old(timeouts) + (if ok then 0 else 1)
    {
      ok := PutWord(job, word1);
      if ok {
        ok := PutWord(job, word2);
      }
    }

    /** The words of byte `index` of a write. */
    method StoreByte(start: nat, ghost job: Job, index: nat, b: byte) returns (ok: bool)
      requires Underway(job) && job.Put? && job.start == start && index < Size(job)
      requires sent == 2 * index && b == job.data[index]
      modifies this`tx, this`rx, ram, this`done, this`sent, this`emitted, this`timeouts
      ensures Underway(job) && (ok ==> sent == 2 * index + 2)
      ensures timeouts == old(timeouts) + (if ok then 0 else 1)
    {
      var a := At(start, index);
      Halves(index);
      ok := PutPair(job, index, StoreWord1(a), StoreWord2(a, b));
    }

    /** One held batch of a write, from byte `first` on. */
    method WriteBatch(ghost job: Job, data: array<byte>, length: nat, start: nat, first: nat) returns (ok: bool)
      requires length <= data.Length && data != ram && first < length
      requires Mastering() && held == 0 && Underway(job) && job == Put(start, data[..length])
      requires sent == 2 * first
      modifies this`tx, this`rx, ram, this`done, this`sent, this`emitted, this`held, this`timeouts
      ensures Underway(job) && timeouts == old(timeouts) + (if ok then 0 else 1)
      ensures ok ==> sent == 2 * if first + 128 < length then first + 128 else length
    {
      var i := 0;
      while i < BATCH
        invariant i <= BATCH && first + i <= length && held == i && sent == 2 * (first + i) && Underway(job)
        invariant timeouts == old(timeouts)
        decreases BATCH - i
      {
        var index := first + i;
        if index >= length { break; }
        ok := StoreByte(start, job, index, data[index]);
        if !ok { return; }
        held := held + 1;
        i := i + 1;
      }
      ok := true;
    }

    /** The first `n` bytes of a buffer hold what memory held when the transfer began. */
    ghost predicate Filled(data: array<byte>, start: nat, n: nat)
      reads this, data
    {
      n <= data.Length && |base| == SIZE && forall k :: 0 <= k < n ==> data[k] == base[At(start, k)]
    }

    /** The words of byte `index` of a read, and the byte they bring, put in its place. */
    method FetchInto(start: nat, ghost job: Job, data: array<byte>, index: nat) returns (ok: bool)
      requires Underway(job) && job.Get? && job.start == start && index < Size(job) && index < data.Length
      requires data != ram && sent == 2 * index && taken == index && Filled(data, start, index)
      modifies this`tx, this`rx, ram, this`done, this`sent, this`taken, this`emitted, this`timeouts, data
      ensures Underway(job) && (ok ==> sent == 2 * index + 2 && taken == index + 1)
      ensures timeouts == old(timeouts) + (if ok then 0 else 1)
      ensures forall k :: index < k < data.Length ==> data[k] == old(data[k])
      ensures ok ==> Filled(data, start, index + 1)
    {
      var a := At(start, index);
      Halves(index);
      ok := PutPair(job, index, FetchWord1(a), READ_HOLD);
      if !ok { return; }
      var b;
      ok, b := GetByte(job);
      if ok {
        data[index] := b;
      }
    }

    /** One held batch of a read, from byte `first` on. */
    method ReadBatch(ghost job: Job, data: array<byte>, length: nat, start: nat, first: nat) returns (ok: bool)
      requires length <= data.Length && data != ram && first < length
      requires Mastering() && held == 0 && Underway(job) && job == Get(start, length)
      requires sent == 2 * first && taken == first && Filled(data, start, first)
      modifies this`tx, this`rx, ram, this`done, this`sent, this`taken, this`emitted, this`held, this`timeouts, data
      ensures timeouts == old(timeouts) + (if ok then 0 else 1)
      ensures Underway(job) && forall k :: length <= k < data.Length ==> data[k] == old(data[k])
      ensures ok ==> sent == 2 * taken && taken == if first + BATCH < length then first + BATCH else length
      ensures ok ==> Filled(data, start, taken)
    {
      var i := 0;
      while i < BATCH
        invariant i <= BATCH && first + i <= length && held == i && sent == 2 * (first + i) && taken == first + i
        invariant Underway(job) && Filled(data, start, first + i) && timeouts == old(timeouts)
        invariant forall k :: length <= k < data.Length ==> data[k] == old(data[k])
        decreases BATCH - i
      {
        var index := first + i;
        if index >= length { break; }
        ok := FetchInto(start, job, data, index);
        if !ok { return; }
        held := held + 1;
        i := i + 1;
      }
      ok := true;
    }

    /** A whole turn on the bus for a write: obtain, one batch, drain, and back off it whatever happened. */
    method WriteTurn(ghost job: Job, data: array<byte>, length: nat, start: nat, first: nat) returns (ok: bool)
      requires length <= data.Length && data != ram && first < length
      requires Idle() && Underway(job) && job == Put(start, data[..length]) && sent == 2 * first
      modifies this`hold, this`registerSm, this`dmaSm, this`held, this`sent, this`done
      modifies this`tx, this`rx, ram, this`emitted, this`timeouts
      ensures Valid() && Idle() && Emitted(job) && |base| == SIZE && done <= length
      ensures timeouts == old(timeouts) + (if ok then 0 else 1)
      ensures ram[..] == MemoryAfter(base, job, done)
      ensures ok ==>
                && Underway(job) && sent == 2 * done
                && done == if first + BATCH < length then first + BATCH else length
    {
      ok := StartControl();
      if !ok {
        return;
      }
      ok := WriteBatch(job, data, length, start, first);
      if ok {
        ok := DrainTx(job);
      }
      RestoreRegisterBus();
    }

    /** The same for a read. */
    method ReadTurn(ghost job: Job, data: array<byte>, length: nat, start: nat, first: nat) returns (ok: bool)
      requires length <= data.Length && data != ram && first < length
      requires Idle() && Underway(job) && job == Get(start, length)
      requires sent == 2 * first && taken == first && Filled(data, start, first)
      modifies this`hold, this`registerSm, this`dmaSm, this`held, this`sent, this`done, this`taken
      modifies this`tx, this`rx, ram, this`emitted, this`timeouts, data
      ensures Valid() && Idle() && Emitted(job) && |base| == SIZE
      ensures timeouts == old(timeouts) + (if ok then 0 else 1)
      ensures ram[..] == base && forall k :: length <= k < data.Length ==> data[k] == old(data[k])
      ensures ok ==>
                && Underway(job) && sent == 2 * taken
                && taken == if first + BATCH < length then first + BATCH else length
      ensures ok ==> Filled(data, start, taken)
    {
      ok := StartControl();
      if !ok {
        return;
      }
      ok := ReadBatch(job, data, length, start, first);
      if ok {
        ok := DrainRx(job);
      }
      RestoreRegisterBus();
    }

    /**
     * Writes `length` bytes to Victor RAM.  True: exactly their words went out and exactly those bytes are
     * there.  False: a wait has run out, and the first `done` of them are there.  Either way the register window is
     * back on the bus.
     */
    method WriteToVictor(data: array?<byte>, length: nat, start: nat) returns (ok: bool)
      requires Valid() && Idle() && (data != null ==> length <= data.Length && data != ram)
      modifies this`hold, this`registerSm, this`dmaSm, this`held, this`base, this`sent, this`done, this`taken
      modifies this`tx, this`rx, ram, this`emitted, this`timeouts
      ensures Valid() && Idle() && (data == null ==> !ok && ram[..] == old(ram[..]))
      ensures data != null ==> timeouts == old(timeouts) + (if ok then 0 else 1)
      ensures data != null ==>
                && Emitted(Put(start, data[..length])) && done <= length
                && (ok ==> done == length && sent == 2 * length)
                && ram[..] == Blit(old(ram[..]), start, data[..done])
    {
      if data == null { return false; }
      ghost var bytes := data[..length];
      ghost var job := Put(start, bytes);
      Begin(job);
      ok := true;
      var first := 0;
      while first < length && ok
        invariant Idle() && Valid() && base == old(ram[..]) && data[..length] == bytes && Emitted(job)
        invariant done <= length && ram[..] == MemoryAfter(base, job, done)
        invariant timeouts == old(timeouts) + (if ok then 0 else 1)
        invariant ok ==> Underway(job) && sent == 2 * done && done == if first < length then first else length
        decreases length - first, ok
      {
        ok := WriteTurn(job, data, length, start, first);
        first := first + BATCH;
      }
      assert data[..done] == bytes[..done];
    }

    /**
     * Reads `length` bytes of Victor RAM into a buffer.  True: the buffer holds them.  Memory and the rest of
     * the buffer are as before, and the register window is back on the bus, whatever happens.
     */
    method ReadFromVictor(data: array?<byte>, length: nat, start: nat) returns (ok: bool)
      requires Valid() && Idle() && (data != null ==> length <= data.Length && data != ram)
      modifies this`hold, this`registerSm, this`dmaSm, this`held, this`base, this`sent, this`done, this`taken
      modifies this`tx, this`rx, ram, this`emitted, this`timeouts
      modifies if data == null then {} else {data}
      ensures Valid() && Idle() && ram[..] == old(ram[..]) && (data == null ==> !ok)
      ensures data != null ==> timeouts == old(timeouts) + (if ok then 0 else 1)
      ensures data != null ==>
                && Emitted(Get(start, length))
                && (ok ==> sent == 2 * length && data[..length] == Slice(old(ram[..]), start, length))
                && forall k :: length <= k < data.Length ==> data[k] == old(data[k])
    {
      if data == null { return false; }
      ghost var job := Get(start, length);
      Begin(job);
      ok := true;
      var first := 0;
      while first < length && ok
        invariant Idle() && Valid() && base == old(ram[..]) && ram[..] == base && Emitted(job)
        invariant timeouts == old(timeouts) + (if ok then 0 else 1)
        invariant forall k :: length <= k < data.Length ==> data[k] == old(data[k])
        invariant ok ==>
                    && Underway(job) && sent == 2 * taken && taken == (if first < length then first else length)
                    && Filled(data, start, taken)
        decreases length - first, ok
      {
        ok := ReadTurn(job, data, length, start, first);
        first := first + BATCH;
      }
    }
  }
}
