/**
 * The board's arrays and fields are a state of the register-window protocol: each access of a conforming
 * host, served between any two stores of the worker, and each turn of the worker takes them to the
 * protocol's next state.
 */
module RegisterRefinement {
  import opened Basics
  import opened SasiBits
  import opened DeferWorker
  import opened RegisterIsr
  import opened RegisterProtocol
  import opened FifoWords
  import opened RegisterBoard
  import Theorems = RegisterTheorems

  /** The raw words in the queue mean the protocol's entries. */
  ghost predicate Mean(raws: seq<bv32>, entries: seq<Entry>) {
    |raws| == |entries| && forall i :: 0 <= i < |raws| ==> EntryOf(raws[i]) == Some(entries[i])
  }

  /** The board is in a state of the protocol; `s.todo` is what the worker has yet to do of its entry. */
  ghost predicate Shows(b: Board, s: State)
    reads b, b.values, b.entries, b.buffer
  {
    b.Valid() && b.Snapshot() == s.m && Mean(b.Pending(), s.queue)
  }

  lemma MeanPush(raws: seq<bv32>, entries: seq<Entry>, raw: bv32, e: Entry)
    requires Mean(raws, entries) && EntryOf(raw) == Some(e)
    ensures Mean(Push(raws, raw), Enqueue(entries, e))
  {
  }

  lemma ControlWord(v: bv8)
    ensures EntryOf(EncodeWrite(DMA_REGISTER_BASE, v)) == Some(WriteOf(Control, v))
  {
  }

  lemma DataWord(v: bv8)
    ensures EntryOf(EncodeWrite(DMA_REGISTER_BASE + 0x10, v)) == Some(WriteOf(Data, v))
  {
  }

  lemma ReadDataWord()
    ensures EntryOf(EncodeRead(DMA_REGISTER_BASE + 0x10)) == Some(ReadOf(Data))
  {
  }

  /** A new board shows the protocol's first state. */
  method PowerUp(ghost limit: nat) returns (b: Board)
    ensures fresh(b) && Shows(b, PowerOn(limit))
  {
    b := new Board();
  }

  /** One turn of the worker: the protocol's worker steps from one entry to the next, undisturbed. */
  method WorkerTurn(b: Board, env: Environment, ghost s: State) returns (found: bool)
    requires Shows(b, s) && s.todo == []
    modifies b, b.values, b.buffer
    ensures found == (s.queue != [])
    ensures found ==> var t := Theorems.Alone(Next(s, Worker(env))); Shows(b, t) && t.todo == []
    ensures !found ==> Shows(b, s)
  {
    found := b.ProcessNext(env);
    if found {
      Theorems.AlonePerforms(Next(s, Worker(env)));
    }
  }

  method HostWritesControl(b: Board, v: bv8, ghost s: State)
    requires Shows(b, s) && Enabled(s, HostControl(v))
    modifies b, b.values, b.entries
    ensures Shows(b, Next(s, HostControl(v)))
  {
    var raw := EncodeWrite(DMA_REGISTER_BASE, v);
    ControlWord(v);
    MeanPush(b.Pending(), s.queue, raw, WriteOf(Control, v));
    b.ServeWrite(0x00, v, raw);
  }

  method HostWritesReset(b: Board, ghost s: State)
    requires Shows(b, s) && Enabled(s, HostReset)
    modifies b, b.values, b.entries
    ensures Shows(b, Next(s, HostReset))
  {
    var raw := EncodeWrite(DMA_REGISTER_BASE, DMA_RESET);
    ControlWord(DMA_RESET);
    MeanPush(b.Pending(), s.queue, raw, WriteOf(Control, DMA_RESET));
    b.ServeWrite(0x00, DMA_RESET, raw);
  }

  method HostWritesData(b: Board, v: bv8, ghost s: State)
    requires Shows(b, s) && Enabled(s, HostData(v))
    modifies b, b.values, b.entries
    ensures Shows(b, Next(s, HostData(v)))
  {
    var raw := EncodeWrite(DMA_REGISTER_BASE + 0x10, v);
    DataWord(v);
    MeanPush(b.Pending(), s.queue, raw, WriteOf(Data, v));
    b.ServeWrite(0x10, v, raw);
  }

  /** The host's look at STATUS. */
  method HostPolls(b: Board, ghost s: State) returns (status: bv8)
    requires Shows(b, s)
    modifies b.values
    ensures status == s.m.cells.c20 && Shows(b, Next(s, Poll))
  {
    status := b.ServePrefetch(0x20);
  }

  /** The first half of a DATA read: the byte the host gets is the one the protocol's host remembers. */
  method HostReads(b: Board, ghost s: State) returns (data: bv8)
    requires Shows(b, s) && Enabled(s, HostPrefetch)
    modifies b.values
    ensures Shows(b, Next(s, HostPrefetch)) && data == Next(s, HostPrefetch).host.byte
  {
    data := b.ServePrefetch(0x10);
  }

  method HostCommits(b: Board, ghost s: State)
    requires Shows(b, s) && Enabled(s, HostCommit)
    modifies b, b.values, b.entries
    ensures Shows(b, Next(s, HostCommit))
  {
    var raw := EncodeRead(DMA_REGISTER_BASE + 0x10);
    ReadDataWord();
    MeanPush(b.Pending(), s.queue, raw, ReadOf(Data));
    b.ServeCommit(0x10, raw);
  }
}
