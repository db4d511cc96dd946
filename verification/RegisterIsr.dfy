/**
 * What the register ISR does with one FIFO entry.  Each function is one atomic step: the ISR runs to
 * completion on the worker's own core.
 */
module RegisterIsr {
  import opened SasiBits
  import opened DeferWorker

  /** A DATA read: the byte driven onto the bus, and the DATA cell left behind. */
  function PrefetchData(m: Machine): (Machine, bv8) {
    var phase := m.cells.c20 & (CTL | INP | MSG);
    if phase == CTL | INP | MSG then (m.(cells := m.cells.(data := 0)), 0)
    else if phase == CTL | INP then (m.(cells := m.cells.(data := m.status)), m.status)
    else (m, m.cells.data)
  }

  function ShowPhase(m: Machine, phase: bv8): Machine {
    m.(cells := m.cells.(c20 := phase, c30 := phase, data := 0))
  }

  /** A committed DATA read moves the cache to the next phase; the bus word follows later. */
  function CommitDataRead(m: Machine): Machine {
    var shown := Phase(m.cells.c20);
    if shown & MSG != 0 then ShowPhase(m, PHASE_FREE)
    else if shown & (CTL | INP) == CTL | INP then ShowPhase(m, shown | MSG)
    else m
  }

  function WriteControl(m: Machine, v: bv8): Machine {
    var was := Selecting(m.cells.control);
    var m' :=
      if v & DMA_RESET != 0 then ShowPhase(m.(resetRequested := true), PHASE_FREE)
      else if Selecting(v) && !was then ShowPhase(m, BSY)
      else if !Selecting(v) && was then ShowPhase(m, BSY | REQ | CTL)
      else m;
    m'.(cells := m'.cells.(control := v))
  }

  const DEFER_QUEUE_SIZE: nat := 256

  /** The queue keeps one slot free, so it holds 255 entries; a push beyond that is dropped. */
  function Enqueue(queue: seq<Entry>, e: Entry): seq<Entry> {
    if |queue| < DEFER_QUEUE_SIZE - 1 then queue + [e] else queue
  }
}
