/** Victor RAM as a card that masters the bus sees it: 2^20 bytes, addresses wrapping at the top. */
module VictorMemory {
  import opened Basics

  const SIZE: nat := 0x10_0000

  /** Distance from `start` up to `a`, going round the top of memory. */
  function Offset(a: nat, start: nat): (d: nat)
    ensures d < SIZE
    ensures (start + d) % SIZE == a % SIZE
  {
    (a - start) % SIZE
  }

  /** The cell `i` places after `start`. */
  function At(start: nat, i: nat): (a: nat)
    ensures a < SIZE
  {
    (start + i) % SIZE
  }

  /**
   * Which byte of a run of `n` ends up at distance `d` from its start: a run longer than memory overwrites
   * itself, and the last byte to come by stays.
   */
  function LastIndex(d: nat, n: nat): (i: nat)
    requires d < n
    ensures d <= i < n
  {
    if n <= SIZE then d else d + (n - 1 - d) / SIZE * SIZE
  }

  /** Memory after `data` has been laid down from `start` on. */
  function Blit(mem: seq<byte>, start: nat, data: seq<byte>): (after: seq<byte>)
    requires |mem| == SIZE
    ensures |after| == SIZE
  {
    seq(SIZE, a requires 0 <= a < SIZE =>
      if Offset(a, start) < |data| then data[LastIndex(Offset(a, start), |data|)] else mem[a])
  }

  /** The `n` bytes from `start` on. */
  function Slice(mem: seq<byte>, start: nat, n: nat): (data: seq<byte>)
    requires |mem| == SIZE
    ensures |data| == n
  {
    seq(n, i requires 0 <= i < n => mem[At(start, i)])
  }

  lemma OffsetOf(start: nat, i: nat)
    requires i < SIZE
    ensures Offset(At(start, i), start) == i
  {
    var a := (start + i) % SIZE;
    var q := (start + i) / SIZE;
    assert a - start == i - q * SIZE;
    ModShift(i, -q);
  }

  lemma ModShift(i: nat, k: int)
    requires i < SIZE
    ensures (i + k * SIZE) % SIZE == i
  {
  }

  /** Two addresses are the same cell exactly when they are the same distance from any third. */
  lemma OffsetShift(a: nat, start: nat, n: nat)
    requires a < SIZE && n <= SIZE
    ensures Offset(a, start) >= n ==> Offset(a, start + n) == Offset(a, start) - n
    ensures Offset(a, start) < n ==> Offset(a, start + n) == Offset(a, start) + SIZE - n
  {
    var d := Offset(a, start);
    var q := (a - start) / SIZE;
    assert a - start == q * SIZE + d;
    if d >= n {
      assert a - (start + n) == (d - n) + q * SIZE;
      ModShift(d - n, q);
    } else {
      assert a - (start + n) == (d + SIZE - n) + (q - 1) * SIZE;
      ModShift(d + SIZE - n, q - 1);
    }
  }

  /** Laying down two runs one after the other lays down their concatenation. */
  lemma BlitAppend(mem: seq<byte>, start: nat, first: seq<byte>, second: seq<byte>)
    requires |mem| == SIZE && |first| + |second| <= SIZE
    ensures Blit(Blit(mem, start, first), start + |first|, second) == Blit(mem, start, first + second)
  {
    var once := Blit(mem, start, first);
    var twice := Blit(once, start + |first|, second);
    var whole := Blit(mem, start, first + second);
    forall a: nat | a < SIZE
      ensures twice[a] == whole[a]
    {
      OffsetShift(a, start, |first|);
    }
  }

  /** Two partial attempts leave what the longer of them leaves. */
  lemma BlitPartials(mem: seq<byte>, start: nat, data: seq<byte>, j: nat, k: nat)
    requires |mem| == SIZE && j <= |data| <= SIZE && k <= |data|
    ensures Blit(Blit(mem, start, data[..j]), start, data[..k]) == Blit(mem, start, data[..if j < k then k else j])
  {
    var m := if j < k then k else j;
    forall a: nat | a < SIZE
      ensures Blit(Blit(mem, start, data[..j]), start, data[..k])[a] == Blit(mem, start, data[..m])[a]
    {
    }
  }

  /** What was laid down can be read back. */
  lemma SliceBlit(mem: seq<byte>, start: nat, data: seq<byte>)
    requires |mem| == SIZE && |data| <= SIZE
    ensures Slice(Blit(mem, start, data), start, |data|) == data
  {
    forall i: nat | i < |data|
      ensures Slice(Blit(mem, start, data), start, |data|)[i] == data[i]
    {
      OffsetOf(start, i);
    }
  }

  lemma SliceAppend(mem: seq<byte>, start: nat, m: nat, n: nat)
    requires |mem| == SIZE
    ensures Slice(mem, start, m + n) == Slice(mem, start, m) + Slice(mem, start + m, n)
  {
    var joined := Slice(mem, start, m) + Slice(mem, start + m, n);
    forall i: nat | i < m + n
      ensures Slice(mem, start, m + n)[i] == joined[i]
    {
      assert i >= m ==> At(start + m, i - m) == At(start, i);
    }
  }

  /** Only the residue of the start address counts. */
  lemma BlitWraps(mem: seq<byte>, start: nat, data: seq<byte>)
    requires |mem| == SIZE
    ensures Blit(mem, start % SIZE, data) == Blit(mem, start, data)
  {
    forall a: nat | a < SIZE
      ensures Offset(a, start % SIZE) == Offset(a, start)
    {
      OffsetWraps(a, start);
    }
  }

  lemma OffsetWraps(a: nat, start: nat)
    ensures Offset(a, start % SIZE) == Offset(a, start)
  {
    var q, p, d := start / SIZE, (a - start) / SIZE, Offset(a, start);
    assert a - start % SIZE == d + (p + q) * SIZE;
    ModShift(d, p + q);
  }

  lemma SliceWraps(mem: seq<byte>, start: nat, n: nat)
    requires |mem| == SIZE
    ensures Slice(mem, start % SIZE, n) == Slice(mem, start, n)
  {
    forall i: nat | i < n
      ensures At(start % SIZE, i) == At(start, i)
    {
      AtAdds(start, 0, i);
    }
  }

  /** Laying down one more byte: only its own cell changes. */
  lemma BlitOneMore(mem: seq<byte>, start: nat, data: seq<byte>, b: byte)
    requires |mem| == SIZE
    ensures Blit(mem, start, data + [b]) == Blit(mem, start, data)[At(start, |data|) := b]
  {
    var k := |data|;
    var more, updated := Blit(mem, start, data + [b]), Blit(mem, start, data)[At(start, k) := b];
    forall a: nat | a < SIZE
      ensures more[a] == updated[a]
    {
      LastIndexNext(Offset(a, start), k);
      OffsetOf(start, k % SIZE);
      RoundTrip(start, k);
      assert At(start, Offset(a, start)) == a;
    }
  }

  /** Going `k` places and going the rest of `k` by whole rounds end in the same cell. */
  lemma RoundTrip(start: nat, k: nat)
    ensures At(start, k) == At(start, k % SIZE)
  {
    var q := k / SIZE;
    var r := At(start, k);
    var p := (start + k) / SIZE;
    assert start + k % SIZE == r + (p - q) * SIZE;
    ModShift(r, p - q);
  }

  lemma LastIndexNext(d: nat, k: nat)
    requires d < SIZE
    ensures d == k % SIZE ==> d < k + 1 && LastIndex(d, k + 1) == k
    ensures d != k % SIZE && d < k ==> LastIndex(d, k + 1) == LastIndex(d, k)
    ensures d != k % SIZE ==> (d < k + 1 <==> d < k)
  {
    var q, r := k / SIZE, k % SIZE;
    assert k == q * SIZE + r;
    if d < k + 1 {
      if d == r {
        assert k - d == q * SIZE;
      } else {
        Quotients(k - d);
        assert (k - d) % SIZE != 0 by {
          if (k - d) % SIZE == 0 {
            var p := (k - d) / SIZE;
            assert d == (q - p) * SIZE + r;
            ModShift(r, q - p);
          }
        }
      }
    }
  }

  /** Counting down by one leaves the quotient alone but at multiples. */
  lemma Quotients(m: nat)
    ensures m % SIZE != 0 ==> (m - 1) / SIZE == m / SIZE
  {
  }

  lemma AtAdds(start: nat, i: nat, j: nat)
    ensures At(At(start, i), j) == At(start, i + j)
  {
    var q := (start + i) / SIZE;
    var r := At(start, i + j);
    var p := (start + i + j) / SIZE;
    assert At(start, i) + j == r + (p - q) * SIZE;
    ModShift(r, p - q);
  }
}
