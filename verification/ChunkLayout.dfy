/** Chunks as values: the deque the store is documented to be, and the store as it is coded, where the
    cache keeps the chunks it hands out. */
module ChunkLayout {
  import Searching
  import opened Timeline

  const MAX_CACHE_SIZE := 64
  const DEFAULT_CHUNK_SIZE := 256

  /** The live entries of a chunk, and how many it takes before it counts as full. */
  datatype Block<V> = Block(entries: seq<Entry<V>>, room: nat)

  function Contents<V>(bs: seq<Block<V>>): seq<Entry<V>> {
    if bs == [] then [] else Contents(bs[..|bs| - 1]) + bs[|bs| - 1].entries
  }

  lemma {:induction false} ContentsAppend<V>(a: seq<Block<V>>, b: seq<Block<V>>)
    ensures Contents(a + b) == Contents(a) + Contents(b)
  {
    if b == [] {
      assert a + b == a;
    } else {
      var front, last := b[..|b| - 1], b[|b| - 1];
      ContentsAppend(a, front);
      assert (a + b)[..|a + b| - 1] == a + front && (a + b)[|a + b| - 1] == last;
      assert Contents(a + b) == Contents(a + front) + last.entries;
      assert (Contents(a) + Contents(front)) + last.entries == Contents(a) + (Contents(front) + last.entries);
    }
  }

  lemma ContentsAround<V>(a: seq<Block<V>>, x: Block<V>, b: seq<Block<V>>)
    ensures Contents(a + [x] + b) == Contents(a) + (x.entries + Contents(b))
  {
    ContentsAppend(a + [x], b);
    ContentsPush(a, x);
  }

  lemma ContentsPush<V>(a: seq<Block<V>>, x: Block<V>)
    ensures Contents(a + [x]) == Contents(a) + x.entries
  {
    assert (a + [x])[..|a|] == a;
  }

  // ---------------------------------------------------------------- as documented

  predicate Rejects<V>(bs: seq<Block<V>>, key: int) {
    bs != [] && bs[|bs| - 1].entries != [] && LastKey(bs[|bs| - 1]) > key
  }

  function LastKey<V>(b: Block<V>): int
    requires b.entries != []
  {
    b.entries[|b.entries| - 1].ts
  }

  predicate NeedsBlock<V>(bs: seq<Block<V>>) {
    bs == [] || |bs[|bs| - 1].entries| == bs[|bs| - 1].room
  }

  function Appended<V>(b: Block<V>, e: Entry<V>): Block<V> {
    Block(b.entries + [e], b.room)
  }

  function PutBlocks<V>(bs: seq<Block<V>>, e: Entry<V>, size: nat): seq<Block<V>> {
    if Rejects(bs, e.ts) then bs
    else if NeedsBlock(bs) then bs + [Block([e], size)]
    else bs[..|bs| - 1] + [Appended(bs[|bs| - 1], e)]
  }

  function CellsOf<V>(es: seq<Entry<V>>): seq<Searching.Cell> {
    seq(|es|, i requires 0 <= i < |es| => Searching.Key(es[i].ts))
  }

  /** Where a search for `key`, which is not above all of them, cuts the entries of a chunk: one index,
      even when several entries have that key. */
  function CutIndex<V>(es: seq<Entry<V>>, key: int): (q: nat)
    ensures q <= |es|
  {
    if es == [] || es[0].ts >= key then 0
    else
      var i := Searching.IndexOf(Searching.Search(CellsOf(es), key, 0, |es|, 0));
      if i <= |es| then i else |es|
  }

  /** What a search finds among the cells of a chunk cuts its entries. */
  lemma FoundCuts<V>(es: seq<Entry<V>>, cells: seq<Searching.Cell>, start: nat, key: int, r: int)
    requires start + |es| <= |cells| && forall i :: 0 <= i < |es| ==> cells[start + i] == Searching.Key(es[i].ts)
    requires Searching.SortedCells(cells, start, start + |es|)
    requires Searching.FoundOrInsertion(cells, key, start, start + |es|, r)
    ensures start <= Searching.IndexOf(r) <= start + |es| && CutAt(es, key, Searching.IndexOf(r) - start)
  {
  }

  lemma CellsSorted<V>(es: seq<Entry<V>>)
    requires Sorted(es)
    ensures Searching.SortedCells(CellsOf(es), 0, |es|)
    ensures |CellsOf(es)| == |es| && forall i :: 0 <= i < |es| ==> CellsOf(es)[0 + i] == Searching.Key(es[i].ts)
  {
  }

  lemma CutKeeps<V>(es: seq<Entry<V>>, key: int, q: nat)
    requires Sorted(es) && es != [] && es[|es| - 1].ts >= key && CutAt(es, key, q)
    ensures q < |es|
  {
  }

  lemma SearchCuts<V>(es: seq<Entry<V>>, key: int)
    requires Sorted(es) && es != [] && key <= es[|es| - 1].ts
    ensures var i := Searching.IndexOf(Searching.Search(CellsOf(es), key, 0, |es|, 0));
            0 <= i < |es| && CutAt(es, key, i)
  {
    CellsSorted(es);
    var cells := CellsOf(es);
    assert cells[|es| - 1].key == es[|es| - 1].ts;
    hide Searching.Search, CutAt, Sorted, CellsOf, Searching.FoundOrInsertion, Searching.SortedCells;
    var r := Searching.Search(cells, key, 0, |es|, 0);
    Searching.SearchLive(cells, key, 0, |es|, 0);
    FoundCuts(es, cells, 0, key, r);
    hide Searching.IndexOf;
    CutKeeps(es, key, Searching.IndexOf(r));
  }

  lemma CutIndexCuts<V>(es: seq<Entry<V>>, key: int)
    requires Sorted(es) && es != [] && key <= es[|es| - 1].ts
    ensures CutAt(es, key, CutIndex(es, key)) && CutIndex(es, key) < |es|
    ensures es[0].ts < key ==>
              CutIndex(es, key) == Searching.IndexOf(Searching.Search(CellsOf(es), key, 0, |es|, 0))
  {
    if es[0].ts < key {
      SearchCuts(es, key);
      hide Searching.Search, Searching.IndexOf, CutAt;
    }
  }

  /** The same wherever the cells lie. */
  lemma MovedCut<V>(pad: seq<Searching.Cell>, es: seq<Entry<V>>, key: int)
    requires Sorted(es) && es != [] && es[0].ts < key <= es[|es| - 1].ts
    ensures Searching.IndexOf(Searching.Search(pad + CellsOf(es), key, |pad|, |pad| + |es|, |pad|)) ==
            |pad| + CutIndex(es, key)
  {
    hide Searching.Search, CellsOf, CutIndex, CutAt, Sorted;
    CutIndexCuts(es, key);
    Searching.SearchMoved(pad, CellsOf(es), key, 0, |es|, 0);
  }

  /** A chunk that is cut at the front does not take as many entries again. */
  function CutBlock<V>(b: Block<V>, q: nat): Block<V>
    requires q <= |b.entries|
  {
    if q == 0 then b else Block(b.entries[q..], |b.entries| - q)
  }

  /** The chunk lies below the key. */
  predicate Below<V>(b: Block<V>, key: int) {
    b.entries == [] || LastKey(b) < key
  }

  /** How many chunks a trim drops. */
  function DropCount<V>(bs: seq<Block<V>>, key: int): (n: nat)
    ensures n <= |bs| && (n < |bs| ==> !Below(bs[n], key))
  {
    if bs == [] || !Below(bs[0], key) then 0
    else
      var n := DropCount(bs[1..], key);
      assert n < |bs| - 1 ==> bs[1..][n] == bs[n + 1];
      n + 1
  }

  lemma {:induction false} DropCountIs<V>(bs: seq<Block<V>>, key: int, n: nat)
    requires n <= |bs| && (forall i :: 0 <= i < n ==> Below(bs[i], key)) && (n < |bs| ==> !Below(bs[n], key))
    ensures DropCount(bs, key) == n
  {
    if n > 0 {
      DropCountIs(bs[1..], key, n - 1);
    }
  }

  /** Drops the chunks below the key and cuts the next one. */
  function TrimBlocks<V>(bs: seq<Block<V>>, key: int): seq<Block<V>> {
    var n := DropCount(bs, key);
    if n == |bs| then [] else [CutBlock(bs[n], CutIndex(bs[n].entries, key))] + bs[n + 1..]
  }

  // ---------------------------------------------------------------- as coded

  /** All chunks ever made, and both deques as lists of them; a chunk may be in both. */
  datatype Heap<V> = Heap(size: nat, blocks: seq<Block<V>>, chunks: seq<nat>, cache: seq<nat>)

  predicate InRange<V>(h: Heap<V>) {
    && (forall i :: 0 <= i < |h.chunks| ==> h.chunks[i] < |h.blocks|)
    && (forall i :: 0 <= i < |h.cache| ==> h.cache[i] < |h.blocks|)
  }

  /** The chunks of the main deque, as a reader finds them. */
  function View<V>(h: Heap<V>): (bs: seq<Block<V>>)
    requires InRange(h)
    ensures |bs| == |h.chunks| && forall i :: 0 <= i < |bs| ==> bs[i] == h.blocks[h.chunks[i]]
  {
    seq(|h.chunks|, i requires 0 <= i < |h.chunks| => h.blocks[h.chunks[i]])
  }

  /** `allocateChunk` peeks: the chunk it returns stays in the cache. */
  function PutCoded<V>(h: Heap<V>, e: Entry<V>): (r: Heap<V>)
    requires InRange(h)
    ensures InRange(r)
  {
    if Rejects(View(h), e.ts) then h
    else if NeedsBlock(View(h)) then
      if h.cache == [] then h.(blocks := h.blocks + [Block([e], h.size)], chunks := h.chunks + [|h.blocks|])
      else
        var k := h.cache[|h.cache| - 1];
        h.(blocks := h.blocks[k := Block([e], h.size)], chunks := h.chunks + [k])
    else
      var k := h.chunks[|h.chunks| - 1];
      h.(blocks := h.blocks[k := Appended(h.blocks[k], e)])
  }

  function Freed(cache: seq<nat>, dropped: seq<nat>): seq<nat>
    decreases |dropped|
  {
    if dropped == [] then cache
    else Freed(if |cache| < MAX_CACHE_SIZE then cache + [dropped[0]] else cache, dropped[1..])
  }

  lemma {:induction false} FreedInRange(cache: seq<nat>, dropped: seq<nat>, limit: nat)
    requires forall i :: 0 <= i < |cache| ==> cache[i] < limit
    requires forall i :: 0 <= i < |dropped| ==> dropped[i] < limit
    ensures forall i :: 0 <= i < |Freed(cache, dropped)| ==> Freed(cache, dropped)[i] < limit
    decreases |dropped|
  {
    if dropped != [] {
      FreedInRange(if |cache| < MAX_CACHE_SIZE then cache + [dropped[0]] else cache, dropped[1..], limit);
    }
  }

  lemma {:induction false} FreedMore(cache: seq<nat>, dropped: seq<nat>, k: nat)
    ensures Freed(cache, dropped + [k]) ==
            var c := Freed(cache, dropped); if |c| < MAX_CACHE_SIZE then c + [k] else c
    decreases |dropped|
  {
    if dropped == [] {
      assert dropped + [k] == [k] && [k][1..] == [];
    } else {
      assert (dropped + [k])[1..] == dropped[1..] + [k];
      FreedMore(if |cache| < MAX_CACHE_SIZE then cache + [dropped[0]] else cache, dropped[1..], k);
    }
  }

  /** The first `n` chunks moved into the cache. */
  function Dropped<V>(h: Heap<V>, n: nat): (r: Heap<V>)
    requires InRange(h) && n <= |h.chunks|
    ensures InRange(r)
  {
    FreedInRange(h.cache, h.chunks[..n], |h.blocks|);
    h.(chunks := h.chunks[n..], cache := Freed(h.cache, h.chunks[..n]))
  }

  lemma DroppedMore<V>(h: Heap<V>, n: nat)
    requires InRange(h) && n < |h.chunks|
    ensures var d, k := Dropped(h, n), h.chunks[n];
            && d.chunks != [] && d.chunks[0] == k
            && Dropped(h, n + 1) ==
               d.(chunks := d.chunks[1..], cache := if |d.cache| < MAX_CACHE_SIZE then d.cache + [k] else d.cache)
  {
    assert h.chunks[..n + 1] == h.chunks[..n] + [h.chunks[n]];
    FreedMore(h.cache, h.chunks[..n], h.chunks[n]);
  }

  function TrimCoded<V>(h: Heap<V>, key: int): (r: Heap<V>)
    requires InRange(h)
    ensures InRange(r)
  {
    var n := DropCount(View(h), key);
    if n == |h.chunks| then Dropped(h, n)
    else
      var k := h.chunks[n];
      Dropped(h, n).(blocks := h.blocks[k := CutBlock(h.blocks[k], CutIndex(h.blocks[k].entries, key))])
  }

  /** A put that takes a chunk into use again while it is still in use. */
  predicate Misuse<V>(h: Heap<V>, e: Entry<V>)
    requires InRange(h)
  {
    && !Rejects(View(h), e.ts) && NeedsBlock(View(h))
    && h.cache != [] && h.cache[|h.cache| - 1] in h.chunks
  }

  /** A put that changes what a chunk holds at another place of the deque: it takes a live chunk into
      use that holds anything but this very entry, or appends to a chunk that is there twice. */
  ghost predicate Spoils<V>(h: Heap<V>, e: Entry<V>)
    requires InRange(h)
  {
    && !Rejects(View(h), e.ts)
    && if NeedsBlock(View(h)) then
         h.cache != [] && h.cache[|h.cache| - 1] in h.chunks && h.blocks[h.cache[|h.cache| - 1]].entries != [e]
       else h.chunks[|h.chunks| - 1] in h.chunks[..|h.chunks| - 1]
  }

  // ---------------------------------------------------------------- one step of both

  /** No chunk of the main deque is empty or out of order, and one that is there twice has one entry. */
  predicate Steady<V>(h: Heap<V>) {
    && InRange(h)
    && (forall i :: 0 <= i < |h.chunks| ==>
          h.blocks[h.chunks[i]].entries != [] && Sorted(h.blocks[h.chunks[i]].entries))
    && (forall i, j :: 0 <= i < j < |h.chunks| && h.chunks[i] == h.chunks[j] ==>
          |h.blocks[h.chunks[i]].entries| == 1)
  }

  /** Chunk by chunk the coded store holds what the documented one does, and the last is as full. */
  ghost predicate Mirrors<V>(h: Heap<V>, bs: seq<Block<V>>) {
    && Steady(h) && |bs| == |h.chunks|
    && (forall i :: 0 <= i < |bs| ==> bs[i].entries == h.blocks[h.chunks[i]].entries)
    && (bs != [] ==> bs[|bs| - 1] == h.blocks[h.chunks[|bs| - 1]])
  }

  lemma {:induction false} SameContents<V>(a: seq<Block<V>>, b: seq<Block<V>>)
    requires |a| == |b| && forall i :: 0 <= i < |a| ==> a[i].entries == b[i].entries
    ensures Contents(a) == Contents(b)
  {
    if a != [] {
      SameContents(a[..|a| - 1], b[..|b| - 1]);
    }
  }

  /** What a put says and needs depends on the last chunk alone. */
  lemma SameLast<V>(a: seq<Block<V>>, b: seq<Block<V>>, key: int)
    requires |a| == |b| && (a != [] ==> a[|a| - 1] == b[|b| - 1])
    ensures Rejects(a, key) == Rejects(b, key) && NeedsBlock(a) == NeedsBlock(b)
  {
  }

  /** Storing a block at place `k`, which other places of the deque do not show, and pushing it. */
  lemma PushMirrors<V>(h: Heap<V>, bs: seq<Block<V>>, blocks: seq<Block<V>>, k: nat, e: Entry<V>, room: nat)
    requires Mirrors(h, bs) && k < |blocks| && |h.blocks| <= |blocks| && blocks[k] == Block([e], room)
    requires forall i :: 0 <= i < |h.blocks| && i != k ==> blocks[i] == h.blocks[i]
    requires k in h.chunks ==> h.blocks[k].entries == [e]
    ensures Mirrors(h.(blocks := blocks, chunks := h.chunks + [k]), bs + [Block([e], room)])
  {
    var r := h.(blocks := blocks, chunks := h.chunks + [k]);
    forall i | 0 <= i < |h.chunks|
      ensures r.chunks[i] == h.chunks[i] && r.blocks[r.chunks[i]].entries == h.blocks[h.chunks[i]].entries
    {
    }
    forall i, j | 0 <= i < j < |r.chunks| && r.chunks[i] == r.chunks[j]
      ensures |r.blocks[r.chunks[i]].entries| == 1
    {
    }
  }

  lemma AppendMirrors<V>(h: Heap<V>, bs: seq<Block<V>>, e: Entry<V>)
    requires Mirrors(h, bs) && bs != [] && !Rejects(bs, e.ts)
    requires h.chunks[|h.chunks| - 1] !in h.chunks[..|h.chunks| - 1]
    ensures var n := |bs| - 1;
            Mirrors(h.(blocks := h.blocks[h.chunks[n] := Appended(h.blocks[h.chunks[n]], e)]),
                    bs[..n] + [Appended(bs[n], e)])
  {
    var n := |bs| - 1;
    var k := h.chunks[n];
    var r := h.(blocks := h.blocks[k := Appended(h.blocks[k], e)]);
    SortedAppend(h.blocks[k].entries, e);
    forall i | 0 <= i < n
      ensures r.chunks[i] != k && r.blocks[r.chunks[i]] == h.blocks[h.chunks[i]]
    {
      assert h.chunks[i] == h.chunks[..n][i];
    }
  }

  lemma PutMirrors<V>(h: Heap<V>, bs: seq<Block<V>>, e: Entry<V>)
    requires Mirrors(h, bs) && !Spoils(h, e)
    ensures Mirrors(PutCoded(h, e), PutBlocks(bs, e, h.size))
  {
    SameLast(View(h), bs, e.ts);
    if !Rejects(bs, e.ts) {
      if !NeedsBlock(bs) {
        AppendMirrors(h, bs, e);
      } else if h.cache == [] {
        PushMirrors(h, bs, h.blocks + [Block([e], h.size)], |h.blocks|, e, h.size);
      } else {
        var k := h.cache[|h.cache| - 1];
        PushMirrors(h, bs, h.blocks[k := Block([e], h.size)], k, e, h.size);
      }
    }
    hide Mirrors;
  }

  lemma {:induction false} SameDrops<V>(a: seq<Block<V>>, b: seq<Block<V>>, key: int)
    requires |a| == |b| && forall i :: 0 <= i < |a| ==> a[i].entries == b[i].entries
    ensures DropCount(a, key) == DropCount(b, key)
  {
    if a != [] {
      SameDrops(a[1..], b[1..], key);
    }
  }

  lemma DropMirrors<V>(h: Heap<V>, bs: seq<Block<V>>, n: nat)
    requires Mirrors(h, bs) && n <= |bs|
    ensures Mirrors(Dropped(h, n), bs[n..])
  {
    var d, rest := Dropped(h, n), bs[n..];
    assert d.blocks == h.blocks && d.chunks == h.chunks[n..] && InRange(d);
    hide Dropped;
    assert |rest| == |bs| - n && forall i :: 0 <= i < |rest| ==> rest[i] == bs[n + i];
    assert forall i :: 0 <= i < |rest| ==> d.chunks[i] == h.chunks[n + i];
    SteadyDrop(h, d, n);
    hide Steady, InRange;
  }

  lemma SteadyDrop<V>(h: Heap<V>, d: Heap<V>, n: nat)
    requires Steady(h) && n <= |h.chunks| && InRange(d) && d.blocks == h.blocks && d.chunks == h.chunks[n..]
    ensures Steady(d)
  {
    forall i, j | 0 <= i < j < |d.chunks| && d.chunks[i] == d.chunks[j]
      ensures |d.blocks[d.chunks[i]].entries| == 1
    {
      assert h.chunks[n + i] == h.chunks[n + j];
    }
  }

  /** A chunk that is cut, and does not stay as it is, is there only once. */
  lemma CutMirrors<V>(h: Heap<V>, bs: seq<Block<V>>, q: nat)
    requires Mirrors(h, bs) && bs != [] && q < |bs[0].entries|
    ensures q <= |h.blocks[h.chunks[0]].entries|
    ensures Mirrors(h.(blocks := h.blocks[h.chunks[0] := CutBlock(h.blocks[h.chunks[0]], q)]),
                    [CutBlock(bs[0], q)] + bs[1..])
  {
    var k := h.chunks[0];
    if q == 0 {
      assert h.blocks[k := h.blocks[k]] == h.blocks && [bs[0]] + bs[1..] == bs;
      hide Mirrors;
    } else {
      CutOnce(h, bs, q);
    }
  }

  lemma SortedTail<V>(es: seq<Entry<V>>, q: nat)
    requires Sorted(es) && q <= |es|
    ensures Sorted(es[q..])
  {
  }

  lemma CutOnce<V>(h: Heap<V>, bs: seq<Block<V>>, q: nat)
    requires Mirrors(h, bs) && bs != [] && 0 < q < |bs[0].entries|
    ensures q <= |h.blocks[h.chunks[0]].entries|
    ensures Mirrors(h.(blocks := h.blocks[h.chunks[0] := CutBlock(h.blocks[h.chunks[0]], q)]),
                    [CutBlock(bs[0], q)] + bs[1..])
  {
    var k := h.chunks[0];
    var b, rest := CutBlock(h.blocks[k], q), [CutBlock(bs[0], q)] + bs[1..];
    var r := h.(blocks := h.blocks[k := b]);
    SortedTail(h.blocks[k].entries, q);
    assert b.entries != [] && Sorted(b.entries) && rest[0].entries == b.entries;
    hide Sorted, CutBlock;
    forall i | 0 < i < |h.chunks|
      ensures h.chunks[i] != k && r.blocks[r.chunks[i]] == h.blocks[h.chunks[i]] && rest[i] == bs[i]
    {
    }
    assert |bs| == 1 ==> rest[0] == b;
    forall i, j | 0 <= i < j < |r.chunks| && r.chunks[i] == r.chunks[j]
      ensures |r.blocks[r.chunks[i]].entries| == 1
    {
    }
  }

  lemma TrimMirrors<V>(h: Heap<V>, bs: seq<Block<V>>, key: int)
    requires Mirrors(h, bs)
    ensures Mirrors(TrimCoded(h, key), TrimBlocks(bs, key))
  {
    SameDrops(View(h), bs, key);
    var n := DropCount(bs, key);
    DropMirrors(h, bs, n);
    if n < |bs| {
      CutIndexCuts(bs[n].entries, key);
      var d := Dropped(h, n);
      assert d.chunks[0] == h.chunks[n] && bs[n..][0] == bs[n] && bs[n..][1..] == bs[n + 1..];
      hide Mirrors, CutBlock, CutIndex, DropCount;
      CutMirrors(d, bs[n..], CutIndex(bs[n].entries, key));
    }
  }

  // ---------------------------------------------------------------- what a put spoils

  lemma {:induction false} ContentsLonger<V>(a: seq<Block<V>>, b: seq<Block<V>>, i: nat)
    requires i < |a| == |b| && |a[i].entries| < |b[i].entries|
    requires forall j :: 0 <= j < |a| ==> |a[j].entries| <= |b[j].entries|
    ensures |Contents(a)| < |Contents(b)|
  {
    var n := |a| - 1;
    if i < n {
      ContentsLonger(a[..n], b[..n], i);
    } else {
      ContentsNoShorter(a[..n], b[..n]);
    }
  }

  lemma {:induction false} ContentsNoShorter<V>(a: seq<Block<V>>, b: seq<Block<V>>)
    requires |a| == |b| && forall j :: 0 <= j < |a| ==> |a[j].entries| <= |b[j].entries|
    ensures |Contents(a)| <= |Contents(b)|
  {
    if a != [] {
      ContentsNoShorter(a[..|a| - 1], b[..|b| - 1]);
    }
  }

  lemma ContentsSplit<V>(a: seq<Block<V>>, i: nat)
    requires i < |a|
    ensures Contents(a) == Contents(a[..i]) + (a[i].entries + Contents(a[i + 1..]))
  {
    hide Contents;
    SplitAt(a, i);
    ContentsAround(a[..i], a[i], a[i + 1..]);
  }

  lemma SplitAt<T>(a: seq<T>, i: nat)
    requires i < |a|
    ensures a[..i] + [a[i]] + a[i + 1..] == a
  {
  }

  lemma ContentsDiffer<V>(a: seq<Block<V>>, b: seq<Block<V>>, i: nat)
    requires i < |a| && i < |b| && Contents(a[..i]) == Contents(b[..i])
    requires a[i].entries != [] && b[i].entries != [] && a[i].entries[0] != b[i].entries[0]
    ensures Contents(a) != Contents(b)
  {
    hide Contents;
    ContentsSplit(a, i);
    ContentsSplit(b, i);
    FirstDiffers(Contents(a[..i]), a[i].entries, Contents(a[i + 1..]), b[i].entries, Contents(b[i + 1..]));
  }

  lemma FirstDiffers<T>(p: seq<T>, x: seq<T>, q: seq<T>, y: seq<T>, r: seq<T>)
    requires x != [] && y != [] && x[0] != y[0]
    ensures p + (x + q) != p + (y + r)
  {
    assert (p + (x + q))[|p|] == x[0] && (p + (y + r))[|p|] == y[0];
  }

  lemma {:induction false} FirstPlace(chunks: seq<nat>, k: nat) returns (i: nat)
    requires k in chunks
    ensures i < |chunks| && chunks[i] == k && k !in chunks[..i]
  {
    if chunks[0] == k {
      i := 0;
    } else {
      i := FirstPlace(chunks[1..], k);
      i := i + 1;
      assert chunks[..i] == [chunks[0]] + chunks[1..][..i - 1];
    }
  }

  /** Taking a live chunk into use loses what it held: the contents come out shorter, or differ at the
      first place of the chunk. */
  lemma ReuseSpoils<V>(h: Heap<V>, bs: seq<Block<V>>, e: Entry<V>)
    requires Mirrors(h, bs) && Spoils(h, e) && NeedsBlock(bs)
    ensures Contents(View(PutCoded(h, e))) != Contents(bs + [Block([e], h.size)])
  {
    var k, coded, kept := h.cache[|h.cache| - 1], View(PutCoded(h, e)), bs + [Block([e], h.size)];
    var i := FirstPlace(h.chunks, k);
    ReusedView(h, bs, e, i);
    hide Contents, Mirrors, Spoils, PutCoded, View;
    if h.blocks[k].entries[0] == e {
      ContentsLonger(coded, kept, i);
    } else {
      SameContents(coded[..i], kept[..i]);
      ContentsDiffer(coded, kept, i);
    }
  }

  lemma ReusedView<V>(h: Heap<V>, bs: seq<Block<V>>, e: Entry<V>, i: nat)
    requires Mirrors(h, bs) && Spoils(h, e) && NeedsBlock(bs)
    requires var k := h.cache[|h.cache| - 1]; i < |h.chunks| && h.chunks[i] == k && k !in h.chunks[..i]
    ensures var coded, kept := View(PutCoded(h, e)), bs + [Block([e], h.size)];
            var lost := h.blocks[h.cache[|h.cache| - 1]].entries;
            && |coded| == |kept| && lost != [] && kept[i].entries == lost && coded[i].entries == [e]
            && (forall j :: 0 <= j < i ==> coded[j].entries == kept[j].entries)
            && (lost[0] == e ==>
                  1 < |lost| && forall j :: 0 <= j < |coded| ==> |coded[j].entries| <= |kept[j].entries|)
  {
    SameLast(View(h), bs, e.ts);
    hide Rejects, NeedsBlock, Sorted;
    var k := h.cache[|h.cache| - 1];
    assert forall j :: 0 <= j < i ==> h.chunks[j] == h.chunks[..i][j] != k;
  }

  /** Appending to a chunk that is there twice appends twice. */
  lemma AppendSpoils<V>(h: Heap<V>, bs: seq<Block<V>>, e: Entry<V>)
    requires Mirrors(h, bs) && Spoils(h, e) && !NeedsBlock(bs)
    ensures Contents(View(PutCoded(h, e))) != Contents(PutBlocks(bs, e, h.size))
  {
    SameLast(View(h), bs, e.ts);
    var n := |bs| - 1;
    var i := FirstPlace(h.chunks[..n], h.chunks[n]);
    assert h.chunks[i] == h.chunks[n];
    ContentsLonger(PutBlocks(bs, e, h.size), View(PutCoded(h, e)), i);
  }

  /** A put leaves the documented contents if and only if it spoils nothing. */
  lemma PutExact<V>(h: Heap<V>, bs: seq<Block<V>>, e: Entry<V>)
    requires Mirrors(h, bs)
    ensures Contents(View(PutCoded(h, e))) == Contents(PutBlocks(bs, e, h.size)) <==> !Spoils(h, e)
  {
    if Spoils(h, e) {
      SameLast(View(h), bs, e.ts);
      if NeedsBlock(bs) {
        ReuseSpoils(h, bs, e);
      } else {
        AppendSpoils(h, bs, e);
      }
    } else {
      PutMirrors(h, bs, e);
      SameContents(View(PutCoded(h, e)), PutBlocks(bs, e, h.size));
    }
  }

  /** What a documented put of an accepted entry does to the contents. */
  lemma PutContents<V>(bs: seq<Block<V>>, e: Entry<V>, size: nat)
    requires !Rejects(bs, e.ts)
    ensures Contents(PutBlocks(bs, e, size)) == Contents(bs) + [e]
  {
    if NeedsBlock(bs) {
      ContentsPush(bs, Block([e], size));
    } else {
      var front, last := bs[..|bs| - 1], bs[|bs| - 1];
      ContentsPush(front, Appended(last, e));
      assert Contents(front) + (last.entries + [e]) == (Contents(front) + last.entries) + [e];
    }
  }

  lemma MirrorsItself<V>(h: Heap<V>)
    requires Steady(h)
    ensures Mirrors(h, View(h))
  {
  }

  /** From a steady state an accepted put is what the contents grow by, if and only if it spoils nothing. */
  lemma PutGrows<V>(h: Heap<V>, e: Entry<V>)
    requires Steady(h) && !Rejects(View(h), e.ts)
    ensures Contents(View(PutCoded(h, e))) == Contents(View(h)) + [e] <==> !Spoils(h, e)
  {
    MirrorsItself(h);
    PutExact(h, View(h), e);
    PutContents(View(h), e, h.size);
  }
}
