/**
 * Index arithmetic of the single-producer, single-consumer rings: one slot is kept free, the producer
 * owns `head`, the consumer owns `tail`.
 */
module Ring {

  predicate InRange<T>(slots: seq<T>, head: nat, tail: nat) {
    head < |slots| && tail < |slots|
  }

  function After(i: nat, size: nat): (j: nat)
    requires i < size
    ensures j < size && j == (i + 1) % size
  {
    if i + 1 == size then 0 else i + 1
  }

  /** What the consumer has still to read, oldest first. */
  function Contents<T>(slots: seq<T>, head: nat, tail: nat): (items: seq<T>)
    requires InRange(slots, head, tail)
    ensures |items| == if tail <= head then head - tail else |slots| - tail + head
  {
    if tail <= head then slots[tail..head] else slots[tail..] + slots[..head]
  }

  /** The ring is full for a producer exactly when size - 1 items are waiting. */
  lemma FullIff<T>(slots: seq<T>, head: nat, tail: nat)
    requires InRange(slots, head, tail)
    ensures After(head, |slots|) == tail <==> |Contents(slots, head, tail)| == |slots| - 1
    ensures head == tail <==> Contents(slots, head, tail) == []
  {
  }

  /** Filling the free slot leaves the waiting items alone; moving `head` then adds the new one at the end. */
  lemma Pushes<T>(slots: seq<T>, head: nat, tail: nat, x: T)
    requires InRange(slots, head, tail) && After(head, |slots|) != tail
    ensures Contents(slots[head := x], head, tail) == Contents(slots, head, tail)
    ensures Contents(slots[head := x], After(head, |slots|), tail) == Contents(slots, head, tail) + [x]
  {
  }

  /** Moving `tail` takes the oldest item off. */
  lemma Pops<T>(slots: seq<T>, head: nat, tail: nat)
    requires InRange(slots, head, tail) && head != tail
    ensures Contents(slots, head, tail) == [slots[tail]] + Contents(slots, head, After(tail, |slots|))
  {
  }

  lemma PopsFirst<T>(slots: seq<T>, head: nat, tail: nat)
    requires InRange(slots, head, tail) && head != tail
    ensures Contents(slots, head, tail) != [] && Contents(slots, head, tail)[0] == slots[tail]
    ensures Contents(slots, head, tail)[1..] == Contents(slots, head, After(tail, |slots|))
  {
  }
}
