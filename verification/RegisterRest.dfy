/** One queue entry at a time: from resting point to resting point, and what its stores look like on the way. */
module RegisterRest {
  import opened SasiBits
  import opened DeferWorker
  import opened RegisterProtocol

  // ---------------------------------------------------------------- draining the queue

  lemma {:induction false} DrainAppend(view: View, queue: seq<Entry>, e: Entry)
    ensures Drain(view, queue + [e]) == NextView(Drain(view, queue), e)
    decreases |queue|
  {
    if queue == [] {
      assert (queue + [e])[1..] == [];
    } else {
      assert (queue + [e])[1..] == queue[1..] + [e];
      DrainAppend(NextView(view, queue[0]), queue[1..], e);
    }
  }

  /** Status and the first parameter request are reached by handlers only, never by the host running ahead. */
  lemma DrainBehind(view: View, queue: seq<Entry>)
    requires queue != []
    ensures !Drain(view, queue).StatusPhase? && Drain(view, queue) != Parameters(0)
  {
    var n := |queue| - 1;
    assert queue == queue[..n] + [queue[n]];
    DrainAppend(view, queue[..n], queue[n]);
  }

  lemma {:induction false} DrainForward(view: View, queue: seq<Entry>)
    ensures view.Confused? ==> Drain(view, queue).Confused?
    ensures view.Collecting? ==> Drain(view, queue).Collecting? || Drain(view, queue).Confused?
    ensures view.Parameters? ==> Drain(view, queue).Parameters? || Drain(view, queue).Confused?
    decreases |queue|
  {
    if queue != [] {
      DrainForward(NextView(view, queue[0]), queue[1..]);
    }
  }

  /** Nothing can be queued behind the byte that completes a command or a parameter list. */
  lemma OutstandingIsLast(view: View, queue: seq<Entry>)
    requires Outstanding(view) && !Drain(view, queue).Confused?
    ensures queue == []
  {
    if queue != [] {
      DrainForward(NextView(view, queue[0]), queue[1..]);
    }
  }

  /** At each resting point the bus word shows what the boot program polls for there. */
  lemma PhasesPolled(view: View, m: Machine)
    requires At(view, m)
    ensures match view
            case Free => Phase(m.bus) == PhaseOf(view) == 0x00
            case Addressed(_) => Phase(m.bus) == PhaseOf(view) == 0x00
            case Selected(_) => Phase(m.bus) == PhaseOf(view) == 0x04
            case Collecting(_, _) => Phase(m.bus) == PhaseOf(view) == 0x0E
            case Parameters(_) => Phase(m.bus) == PhaseOf(view) == 0x0C
            case StatusPhase(_) => Phase(m.bus) == PhaseOf(view) == 0x0F
            case MessagePhase => Phase(m.bus) == PhaseOf(view) == 0x1F
            case Confused => false
  {
  }

  // ---------------------------------------------------------------- shape of a store sequence

  predicate Pending20(ops: seq<Op>)
    decreases |ops|
  {
    ops != [] && (ops[0].Cell20? || Pending20(ops[1..]))
  }

  /**
   * Stores come in the cache-first triples; every phase but the last drops REQ; the status byte is in
   * place before the phase that announces it.
   */
  predicate Orderly(ops: seq<Op>)
    decreases |ops|
  {
    ops == []
    || (&& Orderly(ops[1..])
        && match ops[0] {
             case Cell20(c, p) =>
               && |ops| > 2 && ops[1] == Cell30(c, p)
               && (Pending20(ops[1..]) ==> c & REQ != 0 && p & REQ == 0)
             case Cell30(c, p) =>
               |ops| > 1 && ops[1] == Bus(c, p) && (|ops| > 2 ==> Pending20(ops))
             case PostStatus(_) => Pending20(ops) && !Mid(ops[1..])
             case ZeroStatus => false
             case ClearReset => false
             case _ => !Mid(ops[1..])
           })
  }

  lemma OrderlyCons(op: Op, rest: seq<Op>)
    requires Orderly(rest) && !Mid(rest) && !op.Cell20? && !op.Cell30? && !op.ZeroStatus? && !op.ClearReset?
    requires op.PostStatus? ==> Pending20(rest)
    ensures Orderly([op] + rest) && !Mid([op] + rest)
    ensures Pending20([op] + rest) == Pending20(rest)
  {
  }

  lemma OrderlyPublish(c: bv8, p: bv8, rest: seq<Op>)
    requires Orderly(rest) && !Mid(rest)
    requires rest != [] ==> Pending20(rest) && c & REQ != 0 && p & REQ == 0
    ensures Orderly(Publish(c, p) + rest) && !Mid(Publish(c, p) + rest) && Pending20(Publish(c, p) + rest)
  {
    var ops := Publish(c, p) + rest;
    assert ops[1..] == [Cell30(c, p), Bus(c, p)] + rest;
    assert ops[1..][1..] == [Bus(c, p)] + rest;
    OrderlyCons(Bus(c, p), rest);
    assert Orderly(ops[1..]);
  }

  lemma {:induction false} OrderlyWork(ws: seq<Work>, rest: seq<Op>)
    requires forall w | w in ws :: Quiet(w)
    requires Orderly(rest) && !Mid(rest) && Pending20(rest)
    ensures Orderly(Expand(ws) + rest) && !Mid(Expand(ws) + rest) && Pending20(Expand(ws) + rest)
    decreases |ws|
  {
    if ws == [] {
      assert Expand(ws) + rest == rest;
    } else {
      OrderlyWork(ws[1..], rest);
      var tail := Expand(ws[1..]) + rest;
      assert Expand(ws) + rest == WorkOps(ws[0]) + tail;
      match ws[0] {
        case Show(c, p) =>
          assert Quiet(ws[0]);
          OrderlyPublish(c, p, tail);
        case LookForReset =>
          OrderlyCons(CheckReset, tail);
      }
    }
  }

  lemma OrderlyEnterStatus(l: Local, v: bv8)
    ensures var ops := EnterStatus(l, v); Orderly(ops) && !Mid(ops) && Pending20(ops)
  {
    var c, p := ACK | MSG, BSY | REQ | CTL | INP;
    var l' := l.(ndr := true, statusPending := true);
    var tail := Publish(c, p);
    assert tail == tail + [];
    OrderlyPublish(c, p, []);
    OrderlyCons(SetLocal(l'), tail);
    OrderlyCons(CellData(v), [SetLocal(l')] + tail);
    OrderlyCons(PostStatus(v), [CellData(v)] + ([SetLocal(l')] + tail));
    assert EnterStatus(l, v) == [PostStatus(v)] + ([CellData(v)] + ([SetLocal(l')] + tail));
  }

  lemma OrderlyRequest(l: Local, c: bv8, p: bv8)
    ensures var ops := [SetLocal(l)] + Publish(c, p); Orderly(ops) && !Mid(ops) && Pending20(ops)
  {
    assert Publish(c, p) == Publish(c, p) + [];
    OrderlyPublish(c, p, []);
    OrderlyCons(SetLocal(l), Publish(c, p));
  }

  // ---------------------------------------------------------------- one entry, start to finish

  function ShowBus(m: Machine, bus: bv8): Machine {
    m.(cells := m.cells.(c20 := Phase(bus), c30 := Phase(bus)), bus := bus)
  }

  function Shown(m: Machine, c: bv8, p: bv8): Machine {
    ShowBus(m, Drive(m.bus, c, p))
  }

  lemma RunRequest(l: Local, c: bv8, p: bv8, m: Machine)
    ensures Run([SetLocal(l)] + Publish(c, p), m) == Shown(m.(local := l), c, p)
  {
    RunAppend([SetLocal(l)], Publish(c, p), m);
    RunOne(SetLocal(l), m);
    RunPublish(c, p, m.(local := l));
  }

  lemma RunEnterStatus(l: Local, v: bv8, m: Machine)
    ensures var m' := m.(status := v, posted := m.posted + [v], cells := m.cells.(data := v));
            Run(EnterStatus(l, v), m)
            == Shown(m'.(local := l.(ndr := true, statusPending := true)), ACK | MSG, BSY | REQ | CTL | INP)
  {
    var l' := l.(ndr := true, statusPending := true);
    var tail := [SetLocal(l')] + Publish(ACK | MSG, BSY | REQ | CTL | INP);
    assert EnterStatus(l, v) == [PostStatus(v)] + ([CellData(v)] + tail);
    RunAppend([PostStatus(v)], [CellData(v)] + tail, m);
    RunOne(PostStatus(v), m);
    var m1 := Exec(PostStatus(v), m);
    RunAppend([CellData(v)], tail, m1);
    RunOne(CellData(v), m1);
    RunRequest(l', ACK | MSG, BSY | REQ | CTL | INP, Exec(CellData(v), m1));
  }

  /** What finishing `ops` from `m` must establish for the worker to rest at `after`. */
  predicate Lands(ops: seq<Op>, m: Machine, after: View) {
    var r := Run(ops, m);
    && At(after, r)
    && Orderly(ops) && !Mid(ops)
    && (Pending20(ops) ==> r.cells.c20 == PhaseOf(after))
    && r.cells.control == m.cells.control
    && r.local.control == m.local.control
    && r.resetRequested == m.resetRequested
    && r.posted == m.posted + (if after.StatusPhase? then [after.v] else [])
  }

  lemma LandLocal(l: Local, rest: seq<Op>, m: Machine, after: View)
    requires l.control == m.local.control
    requires Lands(rest, m.(local := l), after)
    ensures Lands([SetLocal(l)] + rest, m, after)
    ensures Pending20([SetLocal(l)] + rest) == Pending20(rest)
  {
  }

  lemma LandPublish(c: bv8, p: bv8, rest: seq<Op>, m: Machine, after: View)
    requires c & REQ != 0 && p & REQ == 0 && Pending20(rest)
    requires Lands(rest, Shown(m, c, p), after)
    ensures Lands(Publish(c, p) + rest, m, after) && Pending20(Publish(c, p) + rest)
  {
    RunAppend(Publish(c, p), rest, m);
    RunPublish(c, p, m);
    OrderlyPublish(c, p, rest);
  }

  lemma {:induction false} LandWork(ws: seq<Work>, rest: seq<Op>, m: Machine, after: View)
    requires forall w | w in ws :: Quiet(w)
    requires m.bus & (SEL | 0x80) == 0
    requires Pending20(rest) && Lands(rest, Run(Expand(ws), m), after)
    ensures Lands(Expand(ws) + rest, m, after) && Pending20(Expand(ws) + rest)
  {
    RunAppend(Expand(ws), rest, m);
    RunWork(ws, m);
    OrderlyWork(ws, rest);
  }

  lemma LandStatus(l: Local, v: bv8, m: Machine)
    requires m.bus & (SEL | 0x80) == 0
    requires l.control == m.local.control && !Selecting(l.control) && l.dataOut == 0 && l.cdb == []
    ensures Lands(EnterStatus(l, v), m, StatusPhase(v)) && Pending20(EnterStatus(l, v))
  {
    RunEnterStatus(l, v, m);
    OrderlyEnterStatus(l, v);
    assert Drive(m.bus, ACK | MSG, BSY | REQ | CTL | INP) == BSY | REQ | CTL | INP;
  }

  lemma LandParameterRequest(l: Local, m: Machine)
    requires m.bus & (SEL | 0x80) == 0
    requires l.control == m.local.control && !Selecting(l.control)
    requires !l.statusPending && 0 < l.dataOut <= 8 && l.cdb == []
    ensures Lands(RequestParameter(l), m, Parameters(8 - l.dataOut)) && Pending20(RequestParameter(l))
  {
    RunRequest(l.(ndr := true), MSG | CTL | INP | ACK, BSY | REQ, m);
    OrderlyRequest(l.(ndr := true), MSG | CTL | INP | ACK, BSY | REQ);
    assert Drive(m.bus, MSG | CTL | INP | ACK, BSY | REQ) == BSY | REQ;
  }

  lemma LandCommandRequest(l: Local, m: Machine)
    requires m.bus & (SEL | 0x80) == 0
    requires l.control == m.local.control && !Selecting(l.control) && !l.statusPending && l.dataOut == 0 && |l.cdb| < 6
    ensures Lands(RequestCommandByte(l), m, Collecting(l.target, l.cdb)) && Pending20(RequestCommandByte(l))
  {
    RunRequest(l.(ndr := true), ACK | MSG | INP, BSY | REQ | CTL, m);
    OrderlyRequest(l.(ndr := true), ACK | MSG | INP, BSY | REQ | CTL);
    assert Drive(m.bus, ACK | MSG | INP, BSY | REQ | CTL) == BSY | REQ | CTL;
  }

  /** A complete command: busy phases, then the verdict the environment leads to. */
  lemma LandCommand(cdb: seq<bv8>, l: Local, m: Machine, env: Environment)
    requires |cdb| == 6 && m.local == l && m.bus & (SEL | 0x80) == 0
    requires !Selecting(l.control) && !l.statusPending && l.dataOut == 0
    ensures Pending20(CommandOps(cdb, l, env))
    ensures Lands(CommandOps(cdb, l, env), m,
                  match HandlerVerdict(cdb, l.dmaEnabled, env)
                  case Complete(v) => StatusPhase(v)
                  case AskParameters => Parameters(0))
  {
    var l0 := l.(cdb := []);
    var verdict := HandlerVerdict(cdb, l.dmaEnabled, env);
    var work := HandlerWork(cdb, l.dmaEnabled, env);
    var m1 := m.(local := l0);
    HandlerWorkQuiet(cdb, l.dmaEnabled, env);
    RunWork(work, m1);
    var m2 := Run(Expand(work), m1);
    match verdict {
      case Complete(v) =>
        LandStatus(l0, v, m2);
        LandWork(work, EnterStatus(l0, v), m1, StatusPhase(v));
        LandLocal(l0, Expand(work) + EnterStatus(l0, v), m, StatusPhase(v));
      case AskParameters =>
        LandParameterRequest(l0.(dataOut := 8), m2);
        LandWork(work, RequestParameter(l0.(dataOut := 8)), m1, Parameters(0));
        LandLocal(l0, Expand(work) + RequestParameter(l0.(dataOut := 8)), m, Parameters(0));
    }
  }

  /** A byte the worker was waiting for: drop REQ, raise ACK, then act on it. */
  lemma LandAcknowledged(v: bv8, tail: seq<Op>, m: Machine, after: View)
    requires m.local.ndr && m.bus & INP == 0 && Pending20(tail)
    requires Lands(tail, Shown(m.(local := m.local.(command := v, ndr := false)), REQ, ACK), after)
    ensures var l := m.local.(command := v);
            var ops := [SetLocal(l)] + ([SetLocal(l.(ndr := false))] + (Publish(REQ, ACK) + tail));
            Lands(ops, m, after) && Pending20(ops)
  {
    var l := m.local.(command := v);
    var l' := l.(ndr := false);
    LandPublish(REQ, ACK, tail, m.(local := l'), after);
    LandLocal(l', Publish(REQ, ACK) + tail, m.(local := l), after);
    LandLocal(l, [SetLocal(l')] + (Publish(REQ, ACK) + tail), m, after);
  }

  lemma AcknowledgedShape(m: Machine, v: bv8, env: Environment)
    requires m.local.ndr && m.bus & INP == 0 && !Selecting(m.local.control)
    ensures var l := m.local.(command := v);
            var l' := l.(ndr := false);
            var tail := if m.bus & (CTL | INP | MSG) == CTL then CommandByteOps(l', v, env)
                        else if l'.dataOut > 0 then ParameterByteOps(l')
                        else [];
            DataWriteOps(m, v, env) == [SetLocal(l)] + ([SetLocal(l')] + (Publish(REQ, ACK) + tail))
  {
  }

  lemma LandSixthByte(t: nat, bytes: seq<bv8>, v: bv8, m: Machine, env: Environment)
    requires At(Collecting(t, bytes), m) && |bytes| == 5
    ensures Lands(DataWriteOps(m, v, env), m, After(Collecting(t, bytes), WriteOf(Data, v), m, env))
    ensures Pending20(DataWriteOps(m, v, env))
  {
    var l' := m.local.(command := v, ndr := false);
    AcknowledgedShape(m, v, env);
    LandCommand(bytes + [v], l', Shown(m.(local := l'), REQ, ACK), env);
    LandAcknowledged(v, CommandOps(bytes + [v], l', env), m, After(Collecting(t, bytes), WriteOf(Data, v), m, env));
  }

  lemma LandEarlierByte(t: nat, bytes: seq<bv8>, v: bv8, m: Machine, env: Environment)
    requires At(Collecting(t, bytes), m) && |bytes| < 5
    ensures Lands(DataWriteOps(m, v, env), m, Collecting(t, bytes + [v]))
    ensures Pending20(DataWriteOps(m, v, env))
  {
    var l' := m.local.(command := v, ndr := false);
    AcknowledgedShape(m, v, env);
    LandCommandRequest(l'.(cdb := bytes + [v]), Shown(m.(local := l'), REQ, ACK));
    LandAcknowledged(v, RequestCommandByte(l'.(cdb := bytes + [v])), m, Collecting(t, bytes + [v]));
  }

  /** What a parameter byte does once it is acknowledged: ask for the next, or finish the command. */
  lemma LandParameter(l: Local, m: Machine)
    requires m.local == l && m.bus & (SEL | 0x80) == 0 && !Selecting(l.control)
    requires !l.statusPending && 0 < l.dataOut <= 8 && l.cdb == []
    ensures Lands(ParameterByteOps(l), m, if l.dataOut > 1 then Parameters(9 - l.dataOut) else StatusPhase(GOOD))
    ensures Pending20(ParameterByteOps(l))
  {
    var rest := l.(dataOut := l.dataOut - 1);
    if rest.dataOut > 0 {
      LandParameterRequest(rest, m);
    } else {
      LandStatus(rest, GOOD, m);
    }
  }

  lemma LandParameterByte(k: nat, v: bv8, m: Machine, env: Environment)
    requires At(Parameters(k), m)
    ensures Lands(DataWriteOps(m, v, env), m, After(Parameters(k), WriteOf(Data, v), m, env))
    ensures Pending20(DataWriteOps(m, v, env))
  {
    var l' := m.local.(command := v, ndr := false);
    AcknowledgedShape(m, v, env);
    LandParameter(l', Shown(m.(local := l'), REQ, ACK));
    LandAcknowledged(v, ParameterByteOps(l'), m, After(Parameters(k), WriteOf(Data, v), m, env));
  }

  /** Entries that move the bus word but leave the cache to the ISR. */
  predicate Bookkeeping(ops: seq<Op>) {
    forall op | op in ops :: op.SetLocal? || op.Bus?
  }

  lemma {:induction false} BookkeepingRuns(ops: seq<Op>, m: Machine)
    requires Bookkeeping(ops)
    ensures Orderly(ops) && !Mid(ops) && !Pending20(ops)
    ensures var r := Run(ops, m); r == m.(bus := r.bus, local := r.local)
    decreases |ops|
  {
    if ops != [] {
      assert ops == [ops[0]] + ops[1..];
      BookkeepingRuns(ops[1..], Exec(ops[0], m));
      OrderlyCons(ops[0], ops[1..]);
    }
  }

  lemma RunTwo(a: Op, b: Op, m: Machine)
    ensures Run([a, b], m) == Exec(b, Exec(a, m))
  {
    assert [a, b] == [a] + [b];
    RunAppend([a], [b], m);
    RunOne(a, m);
    RunOne(b, Exec(a, m));
  }

  lemma RunControl(m: Machine, v: bv8)
    requires v & DMA_RESET == 0
    ensures var l := m.local.(control := v);
            var l' := if v & DMA_ON_LATCH != 0 then l.(dmaEnabled := v & DMA_ON_VALUE != 0) else l;
            Run(ControlWriteOps(m, v), m) ==
            if Selecting(v) && !Selecting(m.local.control) then
              m.(bus := m.bus | SEL | BSY, local := l'.(target := ExtractTarget(l'.command)))
            else if !Selecting(v) && Selecting(m.local.control) then
              m.(bus := ((m.bus & !SEL) | BSY | REQ | CTL) & !INP, local := l'.(ndr := true))
            else m.(local := l')
  {
    var ops := ControlWriteOps(m, v);
    var l := m.local.(control := v);
    var l' := if v & DMA_ON_LATCH != 0 then l.(dmaEnabled := v & DMA_ON_VALUE != 0) else l;
    if Selecting(v) && !Selecting(m.local.control) {
      var a, b := [SetLocal(l'), Bus(0, SEL)], [SetLocal(l'.(target := ExtractTarget(l'.command))), Bus(0, BSY)];
      assert ops == a + b;
      RunAppend(a, b, m);
      RunTwo(a[0], a[1], m);
      RunTwo(b[0], b[1], Run(a, m));
    } else if !Selecting(v) && Selecting(m.local.control) {
      var a, b := [SetLocal(l'), Bus(SEL, 0)], [Bus(0, BSY | REQ | CTL), Bus(INP, 0)];
      var c := [SetLocal(l'.(ndr := true))];
      assert ops == a + (b + c);
      RunAppend(a, b + c, m);
      RunTwo(a[0], a[1], m);
      RunAppend(b, c, Run(a, m));
      RunTwo(b[0], b[1], Run(a, m));
      RunOne(c[0], Run(b, Run(a, m)));
    } else {
      RunOne(SetLocal(l'), m);
    }
  }

  lemma RunDataRead(m: Machine)
    ensures Run(DataReadOps(m), m) ==
            if m.bus & MSG != 0 then m.(bus := 0, local := m.local.(ndr := false, statusPending := false))
            else if m.bus & (CTL | INP) == CTL | INP then
              if m.local.statusPending then
                m.(bus := m.bus | MSG, local := m.local.(statusPending := false, ndr := true))
              else m
            else if m.bus & (CTL | INP) == INP then m.(local := m.local.(ndr := false))
            else m
  {
    var ops := DataReadOps(m);
    if m.bus & MSG != 0 || (m.bus & (CTL | INP) == CTL | INP && m.local.statusPending) {
      RunTwo(ops[0], ops[1], m);
    } else if m.bus & (CTL | INP) == INP {
      RunOne(ops[0], m);
    }
  }

  /** Everything the protocol needs to know about one entry taken at a resting point. */
  predicate Settles(e: Entry, ops: seq<Op>, m: Machine, view: View, after: View) {
    var r := Run(ops, m);
    && At(after, r)
    && Orderly(ops) && !Mid(ops)
    && (Pending20(ops) <==> view.Collecting? || view.Parameters?)
    && (Pending20(ops) ==> r.cells.c20 == PhaseOf(after))
    && r.cells.control == m.cells.control
    && r.local.control == (if e.WriteOf? && e.reg == Control then e.v else m.local.control)
    && r.resetRequested == m.resetRequested
    && r.posted == m.posted + (if after.StatusPhase? then [after.v] else [])
  }

  lemma DataSettles(view: View, v: bv8, m: Machine, env: Environment)
    requires At(view, m) && (view.Free? || view.Collecting? || view.Parameters?)
    ensures Settles(WriteOf(Data, v), DataWriteOps(m, v, env), m, view, After(view, WriteOf(Data, v), m, env))
  {
    if view.Parameters? {
      LandParameterByte(view.count, v, m, env);
    } else if view.Collecting? && |view.bytes| == 5 {
      LandSixthByte(view.target, view.bytes, v, m, env);
    } else if view.Collecting? {
      LandEarlierByte(view.target, view.bytes, v, m, env);
    } else {
      var l := m.local.(command := v);
      assert DataWriteOps(m, v, env) == [SetLocal(l)];
      RunOne(SetLocal(l), m);
      BookkeepingRuns([SetLocal(l)], m);
    }
  }

  /**
   * One queue entry takes the worker from a resting point to the next one, whatever storage, bus
   * mastering and sync answer.
   */
  lemma EntrySettles(view: View, e: Entry, m: Machine, env: Environment)
    requires At(view, m) && !NextView(view, e).Confused?
    ensures !Outstanding(After(view, e, m, env))
    ensures Settles(e, Program(e, m, env), m, view, After(view, e, m, env))
  {
    match e {
      case WriteOf(Control, v) =>
        RunControl(m, v);
        BookkeepingRuns(ControlWriteOps(m, v), m);
      case ReadOf(Data) =>
        RunDataRead(m);
        BookkeepingRuns(DataReadOps(m), m);
      case WriteOf(Data, v) =>
        DataSettles(view, v, m, env);
      case _ =>
    }
  }
}
