/** A run of the chunked store that loses a whole chunk of entries, for every chunk size. */
module LostEntries {
  import opened Timeline
  import opened ChunkLayout
  import opened ChunkRuns
  import opened Optional

  function At(k: int): Entry<int> {
    Entry(k, k)
  }

  function Keys(lo: int, n: nat): (es: seq<Entry<int>>)
    ensures |es| == n && forall i :: 0 <= i < n ==> es[i] == At(lo + i)
  {
    seq(n, i requires 0 <= i < n => At(lo + i))
  }

  function Puts(lo: int, n: nat): (r: seq<Action<int>>)
    ensures |r| == n && forall i :: 0 <= i < n ==> r[i] == Put(At(lo + i))
  {
    seq(n, i requires 0 <= i < n => Put(At(lo + i)))
  }

  /** Two chunks are filled and the first is trimmed away; a third is filled, and one entry more put. */
  function Stage(stage: nat, size: nat): seq<Action<int>> {
    if stage == 0 then Puts(1, size)
    else if stage == 1 then Puts(size + 1, size)
    else if stage == 2 then [Trim(size + 1)]
    else if stage == 3 then Puts(2 * size + 1, size)
    else Puts(3 * size + 1, 1)
  }

  function StagesFrom(stage: nat, size: nat): seq<Action<int>>
    decreases 5 - stage
  {
    if stage >= 5 then [] else Stage(stage, size) + StagesFrom(stage + 1, size)
  }

  function Losing(size: nat): seq<Action<int>> {
    StagesFrom(0, size)
  }

  lemma {:induction false} RunAppend<V>(h: Heap<V>, bs: seq<Block<V>>, a: seq<Action<V>>, b: seq<Action<V>>, size: nat)
    requires InRange(h)
    ensures RunCoded(h, a + b) == RunCoded(RunCoded(h, a), b)
    ensures RunBlocks(bs, a + b, size) == RunBlocks(RunBlocks(bs, a, size), b, size)
    decreases |a|
  {
    if a == [] {
      assert a + b == b;
    } else {
      assert (a + b)[1..] == a[1..] + b;
      hide StepCoded, StepBlocks;
      RunAppend(StepCoded(h, a[0]), StepBlocks(bs, a[0], size), a[1..], b, size);
    }
  }

  function Full(lo: int, size: nat): Block<int> {
    Block(Keys(lo, size), size)
  }

  // ---------------------------------------------------------------- filling the last chunk

  /** The last chunk rewritten, wherever it stands. */
  function WithLast(h: Heap<int>, b: Block<int>): Heap<int>
    requires InRange(h) && h.chunks != []
  {
    h.(blocks := h.blocks[h.chunks[|h.chunks| - 1] := b])
  }

  lemma FirstPut(h: Heap<int>, lo: int, n: nat)
    requires InRange(h) && n > 0
    ensures RunCoded(h, Puts(lo, n)) == RunCoded(PutCoded(h, At(lo)), Puts(lo + 1, n - 1))
  {
    assert Puts(lo, n)[0] == Put(At(lo)) && Puts(lo, n)[1..] == Puts(lo + 1, n - 1);
    hide PutCoded, Puts;
  }

  lemma FillOne(h: Heap<int>, lo: int, m: nat)
    requires InRange(h) && h.chunks != [] && 0 < m < h.size
    requires h.blocks[h.chunks[|h.chunks| - 1]] == Block(Keys(lo, m), h.size)
    ensures PutCoded(h, At(lo + m)) == WithLast(h, Block(Keys(lo, m + 1), h.size))
  {
    assert Keys(lo, m) + [At(lo + m)] == Keys(lo, m + 1);
  }

  lemma LastTwice(h: Heap<int>, b: Block<int>, b': Block<int>)
    requires InRange(h) && h.chunks != []
    ensures var r := WithLast(h, b);
            && InRange(r) && r.size == h.size && r.chunks == h.chunks && r.blocks[r.chunks[|r.chunks| - 1]] == b
            && WithLast(r, b') == WithLast(h, b')
  {
    assert h.blocks[h.chunks[|h.chunks| - 1] := b][h.chunks[|h.chunks| - 1] := b'] ==
           h.blocks[h.chunks[|h.chunks| - 1] := b'];
  }

  /** What is put into the last chunk shows wherever that chunk stands. */
  lemma {:induction false} FillCoded(h: Heap<int>, lo: int, m: nat, n: nat)
    requires InRange(h) && h.chunks != [] && 0 < m && m + n <= h.size
    requires h.blocks[h.chunks[|h.chunks| - 1]] == Block(Keys(lo, m), h.size)
    ensures RunCoded(h, Puts(lo + m, n)) == WithLast(h, Block(Keys(lo, m + n), h.size))
    decreases n
  {
    hide PutCoded, RunCoded, Puts, Keys, View, WithLast, InRange;
    if n == 0 {
      FillNone(h, lo + m);
    } else {
      var next := Block(Keys(lo, m + 1), h.size);
      FillOne(h, lo, m);
      FirstPut(h, lo + m, n);
      LastTwice(h, next, Block(Keys(lo, m + n), h.size));
      assert lo + m + 1 == lo + (m + 1) && m + 1 + (n - 1) == m + n;
      FillCoded(WithLast(h, next), lo, m + 1, n - 1);
    }
  }

  lemma FillNone(h: Heap<int>, lo: int)
    requires InRange(h) && h.chunks != []
    ensures RunCoded(h, Puts(lo, 0)) == WithLast(h, h.blocks[h.chunks[|h.chunks| - 1]])
  {
    assert h.blocks[h.chunks[|h.chunks| - 1] := h.blocks[h.chunks[|h.chunks| - 1]]] == h.blocks;
  }

  lemma {:induction false} FillBlocks(front: seq<Block<int>>, lo: int, m: nat, n: nat, size: nat)
    requires 0 < m && m + n <= size
    ensures RunBlocks(front + [Block(Keys(lo, m), size)], Puts(lo + m, n), size) ==
            front + [Block(Keys(lo, m + n), size)]
    decreases n
  {
    if n > 0 {
      var bs := front + [Block(Keys(lo, m), size)];
      assert bs[..|bs| - 1] == front;
      assert Keys(lo, m) + [At(lo + m)] == Keys(lo, m + 1);
      assert PutBlocks(bs, At(lo + m), size) == front + [Block(Keys(lo, m + 1), size)];
      assert Puts(lo + m, n)[1..] == Puts(lo + (m + 1), n - 1);
      FillBlocks(front, lo, m + 1, n - 1, size);
    }
  }

  /** Filling a chunk when the last one is full, or there is none. */
  lemma NewBlock(front: seq<Block<int>>, lo: int, n: nat, size: nat)
    requires 0 < n <= size && NeedsBlock(front) && !Rejects(front, lo)
    ensures RunBlocks(front, Puts(lo, n), size) == front + [Block(Keys(lo, n), size)]
  {
    assert [At(lo)] == Keys(lo, 1);
    assert Puts(lo, n)[1..] == Puts(lo + 1, n - 1);
    FillBlocks(front, lo, 1, n - 1, size);
  }

  /** The heap after taking a chunk into use, and filling it with `b`. */
  function Taken(h: Heap<int>, b: Block<int>): Heap<int> {
    if h.cache == [] then h.(blocks := h.blocks + [b], chunks := h.chunks + [|h.blocks|])
    else if h.cache[|h.cache| - 1] >= |h.blocks| then h
    else h.(blocks := h.blocks[h.cache[|h.cache| - 1] := b], chunks := h.chunks + [h.cache[|h.cache| - 1]])
  }

  lemma TakenTwice(h: Heap<int>, b: Block<int>, b': Block<int>)
    requires InRange(h)
    ensures var r := Taken(h, b);
            && InRange(r) && r.size == h.size && r.chunks != [] && r.blocks[r.chunks[|r.chunks| - 1]] == b
            && WithLast(r, b') == Taken(h, b')
  {
    if h.cache == [] {
      assert (h.blocks + [b])[|h.blocks| := b'] == h.blocks + [b'];
    } else {
      var k := h.cache[|h.cache| - 1];
      assert h.blocks[k := b][k := b'] == h.blocks[k := b'];
    }
  }

  lemma FirstTaken(h: Heap<int>, lo: int)
    requires InRange(h) && NeedsBlock(View(h)) && !Rejects(View(h), lo)
    ensures PutCoded(h, At(lo)) == Taken(h, Block(Keys(lo, 1), h.size))
  {
    assert [At(lo)] == Keys(lo, 1);
    hide NeedsBlock, Rejects;
  }

  lemma FillTaken(h: Heap<int>, lo: int, n: nat)
    requires InRange(h) && n < h.size
    ensures var one, all := Block(Keys(lo, 1), h.size), Block(Keys(lo, 1 + n), h.size);
            InRange(Taken(h, one)) && RunCoded(Taken(h, one), Puts(lo + 1, n)) == Taken(h, all)
  {
    hide *;
    var one, all := Block(Keys(lo, 1), h.size), Block(Keys(lo, 1 + n), h.size);
    TakenTwice(h, one, all);
    FillCoded(Taken(h, one), lo, 1, n);
  }

  lemma NewCoded(h: Heap<int>, lo: int, n: nat)
    requires InRange(h) && 0 < n <= h.size && NeedsBlock(View(h)) && !Rejects(View(h), lo)
    ensures RunCoded(h, Puts(lo, n)) == Taken(h, Block(Keys(lo, n), h.size))
  {
    hide PutCoded, RunCoded, Taken, Puts, Keys, NeedsBlock, Rejects, InRange, View;
    FirstTaken(h, lo);
    FirstPut(h, lo, n);
    FillTaken(h, lo, n - 1);
  }

  // ---------------------------------------------------------------- the five stages

  /** The coded store after `stage` stages of the run. */
  function CodedAt(stage: nat, size: nat): (h: Heap<int>)
    ensures InRange(h)
  {
    var a, b, c, d := Full(1, size), Full(size + 1, size), Full(2 * size + 1, size), Block(Keys(3 * size + 1, 1), size);
    if stage == 0 then EmptyHeap(size)
    else if stage == 1 then Heap(size, [a], [0], [])
    else if stage == 2 then Heap(size, [a, b], [0, 1], [])
    else if stage == 3 then Heap(size, [a, b], [1], [0])
    else if stage == 4 then Heap(size, [c, b], [1, 0], [0])
    else Heap(size, [d, b], [1, 0, 0], [0])
  }

  function BlocksAt(stage: nat, size: nat): seq<Block<int>> {
    var a, b, c, d := Full(1, size), Full(size + 1, size), Full(2 * size + 1, size), Block(Keys(3 * size + 1, 1), size);
    if stage == 0 then []
    else if stage == 1 then [a]
    else if stage == 2 then [a, b]
    else if stage == 3 then [b]
    else if stage == 4 then [b, c]
    else [b, c, d]
  }

  function StageStart(stage: nat, size: nat): int {
    if stage == 0 then 1 else if stage == 1 then size + 1 else if stage == 3 then 2 * size + 1 else 3 * size + 1
  }

  lemma FilledStage(stage: nat, size: nat)
    requires size > 0 && stage < 5 && stage != 2
    ensures RunCoded(CodedAt(stage, size), Stage(stage, size)) == CodedAt(stage + 1, size)
  {
    var h := CodedAt(stage, size);
    var lo := StageStart(stage, size);
    hide RunCoded, Puts;
    NewCoded(h, lo, if stage == 4 then 1 else size);
  }

  lemma FilledBlocks(stage: nat, size: nat)
    requires size > 0 && stage < 5 && stage != 2
    ensures RunBlocks(BlocksAt(stage, size), Stage(stage, size), size) == BlocksAt(stage + 1, size)
  {
    var lo := StageStart(stage, size);
    hide RunBlocks, Puts;
    NewBlock(BlocksAt(stage, size), lo, if stage == 4 then 1 else size, size);
  }

  lemma TrimmedCounts(size: nat)
    requires size > 0
    ensures View(CodedAt(2, size)) == BlocksAt(2, size)
    ensures DropCount(BlocksAt(2, size), size + 1) == 1 && CutIndex(BlocksAt(2, size)[1].entries, size + 1) == 0
  {
    DropCountIs(BlocksAt(2, size), size + 1, 1);
  }

  lemma TrimmedStage(size: nat)
    requires size > 0
    ensures RunCoded(CodedAt(2, size), Stage(2, size)) == CodedAt(3, size)
    ensures RunBlocks(BlocksAt(2, size), Stage(2, size), size) == BlocksAt(3, size)
  {
    var h, bs, key := CodedAt(2, size), BlocksAt(2, size), size + 1;
    TrimmedCounts(size);
    OneTrim(h, bs, key, size);
    assert TrimBlocks(bs, key) == BlocksAt(3, size) by {
      hide RunCoded, RunBlocks, DropCount, CutIndex, Keys, TrimCoded, View;
      assert bs[2..] == [];
    }
    hide RunCoded, RunBlocks, DropCount, CutIndex, Keys, TrimCoded, TrimBlocks, View;
    TrimmedHeap(h, key);
  }

  lemma OneTrim(h: Heap<int>, bs: seq<Block<int>>, key: int, size: nat)
    requires InRange(h)
    ensures RunCoded(h, [Trim(key)]) == TrimCoded(h, key) && RunBlocks(bs, [Trim(key)], size) == TrimBlocks(bs, key)
  {
    var trim: seq<Action<int>> := [Trim(key)];
    assert trim[1..] == [];
    hide TrimCoded, TrimBlocks;
    assert RunBlocks(TrimBlocks(bs, key), trim[1..], size) == TrimBlocks(bs, key);
    assert RunCoded(TrimCoded(h, key), trim[1..]) == TrimCoded(h, key);
  }

  lemma TrimmedHeap(h: Heap<int>, key: int)
    requires |h.blocks| == 2 && h.chunks == [0, 1] && h.cache == []
    requires InRange(h) && DropCount(View(h), key) == 1 && CutIndex(h.blocks[1].entries, key) == 0
    ensures TrimCoded(h, key) == Heap(h.size, h.blocks, [1], [0])
  {
    hide DropCount, CutIndex;
    assert [0, 1][..1] == [0] && [0, 1][1..] == [1];
    assert Freed([], [0]) == [0] by {
      assert [0][1..] == [];
    }
    assert h.blocks[1 := h.blocks[1]] == h.blocks;
  }

  lemma {:induction false} LosingFrom(stage: nat, size: nat)
    requires size > 0 && stage <= 5
    ensures RunCoded(CodedAt(stage, size), StagesFrom(stage, size)) == CodedAt(5, size)
    ensures RunBlocks(BlocksAt(stage, size), StagesFrom(stage, size), size) == BlocksAt(5, size)
    decreases 5 - stage
  {
    if stage < 5 {
      hide RunCoded, RunBlocks, CodedAt, BlocksAt, Stage;
      if stage == 2 {
        TrimmedStage(size);
      } else {
        FilledStage(stage, size);
        FilledBlocks(stage, size);
      }
      RunAppend(CodedAt(stage, size), BlocksAt(stage, size), Stage(stage, size), StagesFrom(stage + 1, size), size);
      LosingFrom(stage + 1, size);
    }
  }

  lemma ContentsOfThree(a: Block<int>, b: Block<int>, c: Block<int>)
    ensures Contents([a, b, c]) == a.entries + b.entries + c.entries
  {
    assert Contents<int>([]) == [] && [] + a.entries == a.entries;
    assert [] + [a] == [a] && [a] + [b] == [a, b] && [a, b] + [c] == [a, b, c];
    hide Contents;
    ContentsPush([], a);
    ContentsPush([a], b);
    ContentsPush([a, b], c);
  }

  /** For every chunk size: as documented the store ends with the keys after the first chunk; as coded
      the third chunk is gone, and the last entry stands in its place and at the end. */
  lemma EntryLost(size: nat)
    requires size > 0
    ensures Contents(RunBlocks([], Losing(size), size)) == Keys(size + 1, 2 * size + 1)
    ensures Contents(View(RunCoded(EmptyHeap(size), Losing(size)))) ==
            Keys(size + 1, size) + [At(3 * size + 1)] + [At(3 * size + 1)]
  {
    LosingFrom(0, size);
    LastStage(size);
    var b, c, d := Full(size + 1, size), Full(2 * size + 1, size), Block(Keys(3 * size + 1, 1), size);
    hide RunCoded, RunBlocks, CodedAt, BlocksAt, StagesFrom, Contents, View;
    ContentsOfThree(b, c, d);
    ContentsOfThree(b, d, d);
  }

  lemma LastStage(size: nat)
    ensures CodedAt(0, size) == EmptyHeap(size) && BlocksAt(0, size) == []
    ensures var b, c, d := Full(size + 1, size), Full(2 * size + 1, size), Block(Keys(3 * size + 1, 1), size);
            && View(CodedAt(5, size)) == [b, d, d] && BlocksAt(5, size) == [b, c, d]
            && b.entries + c.entries + d.entries == Keys(size + 1, 2 * size + 1)
            && d.entries == [At(3 * size + 1)]
  {
  }
}
