/**
 * Producer and consumer of a ring on different cores, interleaved at every load and store.
 *
 * The consumer may also flush: it reads `head` once and moves `tail` there, as the soft reset does.
 */
module RingSafety {
  import opened Ring

  datatype Producer<T> = Resting | Room(x: T) | Filled(x: T)

  datatype Consumer<T> = Looking | Seen | Took(x: T) | Flushing(to: nat)

  /** `accepted` is every item pushed, `left` every item that left the ring, marked delivered or flushed. */
  datatype State<T> = State(slots: seq<T>, head: nat, tail: nat, producer: Producer<T>, consumer: Consumer<T>,
                            accepted: seq<T>, left: seq<(T, bool)>, refused: nat)

  datatype Step<T> = LoadTail(x: T) | StoreSlot | StoreHead | LoadHead | LoadSlot | StoreTail | BeginFlush | EndFlush

  predicate Enabled<T>(s: State<T>, step: Step<T>) {
    match step
    case LoadTail(_) => s.producer.Resting?
    case StoreSlot => s.producer.Room?
    case StoreHead => s.producer.Filled?
    case LoadHead => s.consumer.Looking?
    case LoadSlot => s.consumer.Seen?
    case StoreTail => s.consumer.Took?
    case BeginFlush => s.consumer.Looking?
    case EndFlush => s.consumer.Flushing?
  }

  /** Items from `tail` up to `to`, as they leave in a flush. */
  function Flushed<T>(s: State<T>, to: nat): seq<(T, bool)>
    requires InRange(s.slots, to, s.tail)
  {
    var items := Contents(s.slots, to, s.tail);
    seq(|items|, i requires 0 <= i < |items| => (items[i], false))
  }

  function Next<T>(s: State<T>, step: Step<T>): State<T>
    requires InRange(s.slots, s.head, s.tail) && Enabled(s, step)
    requires s.consumer.Flushing? ==> s.consumer.to < |s.slots|
  {
    match step
    case LoadTail(x) =>
      if After(s.head, |s.slots|) == s.tail then s.(refused := s.refused + 1) else s.(producer := Room(x))
    case StoreSlot => s.(slots := s.slots[s.head := s.producer.x], producer := Filled(s.producer.x))
    case StoreHead =>
      s.(head := After(s.head, |s.slots|), accepted := s.accepted + [s.producer.x], producer := Resting)
    case LoadHead => if s.tail == s.head then s else s.(consumer := Seen)
    case LoadSlot => s.(consumer := Took(s.slots[s.tail]))
    case StoreTail =>
      s.(tail := After(s.tail, |s.slots|), left := s.left + [(s.consumer.x, true)], consumer := Looking)
    case BeginFlush => s.(consumer := Flushing(s.head))
    case EndFlush => s.(tail := s.consumer.to, left := s.left + Flushed(s, s.consumer.to), consumer := Looking)
  }

  function Values<T>(left: seq<(T, bool)>): seq<T> {
    seq(|left|, i requires 0 <= i < |left| => left[i].0)
  }

  ghost predicate Inv<T>(s: State<T>) {
    && InRange(s.slots, s.head, s.tail)
    && s.accepted == Values(s.left) + Contents(s.slots, s.head, s.tail)
    && (!s.producer.Resting? ==> After(s.head, |s.slots|) != s.tail)
    && (s.producer.Filled? ==> s.slots[s.head] == s.producer.x)
    && (s.consumer.Seen? || s.consumer.Took? ==> s.head != s.tail)
    && (s.consumer.Took? ==> s.consumer.x == s.slots[s.tail])
    && (s.consumer.Flushing? ==>
          && s.consumer.to < |s.slots|
          && Contents(s.slots, s.consumer.to, s.tail) <= Contents(s.slots, s.head, s.tail))
  }

  lemma ValuesAppend<T>(a: seq<(T, bool)>, b: seq<(T, bool)>)
    ensures Values(a + b) == Values(a) + Values(b)
  {
  }

  /** A flush up to an earlier head takes a prefix of what is waiting and leaves the rest. */
  lemma FlushSplits<T>(slots: seq<T>, head: nat, tail: nat, to: nat)
    requires InRange(slots, head, tail) && to < |slots|
    requires Contents(slots, to, tail) <= Contents(slots, head, tail)
    ensures Contents(slots, head, tail) == Contents(slots, to, tail) + Contents(slots, head, to)
  {
  }

  lemma StoreSlotSafe<T>(s: State<T>)
    requires Inv(s) && s.producer.Room?
    ensures Inv(Next(s, StoreSlot))
    ensures Contents(Next(s, StoreSlot).slots, s.head, s.tail) == Contents(s.slots, s.head, s.tail)
  {
  }

  lemma StoreHeadSafe<T>(s: State<T>)
    requires Inv(s) && s.producer.Filled?
    ensures Inv(Next(s, StoreHead))
  {
    Pushes(s.slots, s.head, s.tail, s.producer.x);
    assert s.slots[s.head := s.producer.x] == s.slots;
    FullIff(s.slots, After(s.head, |s.slots|), s.tail);
  }

  lemma StoreTailSafe<T>(s: State<T>)
    requires Inv(s) && s.consumer.Took?
    ensures Inv(Next(s, StoreTail))
  {
    Pops(s.slots, s.head, s.tail);
    FullIff(s.slots, s.head, s.tail);
    FullIff(s.slots, s.head, After(s.tail, |s.slots|));
    ValuesAppend(s.left, [(s.consumer.x, true)]);
    assert Values([(s.consumer.x, true)]) == [s.consumer.x];
  }

  /** A producer that found room still has it when the tail has moved up to a flush's end. */
  lemma RoomAfterFlush<T>(s: State<T>)
    requires Inv(s) && s.consumer.Flushing?
    ensures !s.producer.Resting? ==> After(s.head, |s.slots|) != s.consumer.to
  {
    FullIff(s.slots, s.head, s.tail);
    FullIff(s.slots, s.head, s.consumer.to);
    FlushSplits(s.slots, s.head, s.tail, s.consumer.to);
  }

  lemma Rebracket<T>(a: seq<T>, b: seq<T>, c: seq<T>)
    ensures a + (b + c) == a + b + c
  {
  }

  lemma EndFlushSafe<T>(s: State<T>)
    requires Inv(s) && s.consumer.Flushing?
    ensures Inv(Next(s, EndFlush))
  {
    var to := s.consumer.to;
    var flushed, rest := Contents(s.slots, to, s.tail), Contents(s.slots, s.head, to);
    RoomAfterFlush(s);
    FlushSplits(s.slots, s.head, s.tail, to);
    ValuesAppend(s.left, Flushed(s, to));
    assert Values(Flushed(s, to)) == flushed;
    Rebracket(Values(s.left), flushed, rest);
  }

  /**
   * Every load or store of either side keeps what left followed by what waits equal to what was accepted.
   * A push is refused only with size - 1 items waiting, and a store never lands on a waiting item.
   */
  lemma StepSafe<T>(s: State<T>, step: Step<T>)
    requires Inv(s) && Enabled(s, step)
    ensures Inv(Next(s, step))
    ensures Next(s, step).refused > s.refused ==> |Contents(s.slots, s.head, s.tail)| == |s.slots| - 1
    ensures step.StoreSlot? ==> Contents(Next(s, step).slots, s.head, s.tail) == Contents(s.slots, s.head, s.tail)
  {
    match step {
      case StoreSlot => StoreSlotSafe(s);
      case StoreHead => StoreHeadSafe(s);
      case StoreTail => StoreTailSafe(s);
      case EndFlush => EndFlushSafe(s);
      case LoadTail(_) => FullIff(s.slots, s.head, s.tail);
      case _ =>
    }
  }

  ghost predicate Run?<T>(s: State<T>, steps: seq<Step<T>>)
    requires Inv(s)
    decreases |steps|
  {
    steps == [] || (Enabled(s, steps[0]) && (StepSafe(s, steps[0]); Run?(Next(s, steps[0]), steps[1..])))
  }

  ghost function Final<T>(s: State<T>, steps: seq<Step<T>>): State<T>
    requires Inv(s) && Run?(s, steps)
    decreases |steps|
  {
    if steps == [] then s else StepSafe(s, steps[0]); Final(Next(s, steps[0]), steps[1..])
  }

  /** An empty ring with both sides at rest. */
  ghost function Start<T>(slots: seq<T>): (s: State<T>)
    requires |slots| > 0
    ensures Inv(s)
  {
    State(slots, 0, 0, Resting, Looking, [], [], 0)
  }

  lemma {:induction false} RunSafe<T>(s: State<T>, steps: seq<Step<T>>)
    requires Inv(s) && Run?(s, steps)
    ensures Inv(Final(s, steps))
    decreases |steps|
  {
    if steps != [] {
      StepSafe(s, steps[0]);
      RunSafe(Next(s, steps[0]), steps[1..]);
    }
  }

  /**
   * Over every interleaving that starts with an empty ring: no loss, no duplication, no reordering.  And
   * whatever step comes next, a slot is only ever stored into while no item waits in it, and a push is
   * refused only with all usable slots waiting.
   */
  lemma RingSafe<T>(slots: seq<T>, steps: seq<Step<T>>, next: Step<T>)
    requires |slots| > 0 && Run?(Start(slots), steps)
    ensures var t := Final(Start(slots), steps);
            && InRange(t.slots, t.head, t.tail) && t.accepted == Values(t.left) + Contents(t.slots, t.head, t.tail)
            && Inv(t)
            && (Enabled(t, next) ==>
                  && (next.StoreSlot? ==>
                        Contents(Next(t, next).slots, t.head, t.tail) == Contents(t.slots, t.head, t.tail))
                  && (Next(t, next).refused > t.refused ==> |Contents(t.slots, t.head, t.tail)| == |t.slots| - 1))
  {
    RunSafe(Start(slots), steps);
    if Enabled(Final(Start(slots), steps), next) {
      StepSafe(Final(Start(slots), steps), next);
    }
  }
}
