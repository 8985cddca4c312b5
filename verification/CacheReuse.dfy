/** The store as it is coded: `allocateChunk` only peeks at the cache, so that a chunk can be in both
    deques, and twice in the main one. `ChunkedStore` is the store as it is documented. */
module CacheReuse {
  import opened Timeline
  import opened ChunkLayout
  import ChunkRuns
  import opened ChunkedStore
  import opened Optional

  class PeekingStore<V(0)> {
    const size: nat
    var chunksCache: seq<Chunk<V>>
    var chunks: seq<Chunk<V>>
    /** Every chunk ever made, and the store as a value: both deques as lists of their places. */
    ghost var objects: seq<Chunk<V>>
    ghost var heap: Heap<V>
    ghost var Repr: set<object>

    ghost predicate Layout()
      reads this
    {
      && this in Repr && size > 0 && heap.size == size && InRange(heap) && |objects| == |heap.blocks|
      && Unshared(objects)
      && (forall c :: c in objects ==> c.Parts() <= Repr && this !in c.Parts() && c.keys.Length == size)
      && |chunks| == |heap.chunks| && |chunksCache| == |heap.cache|
      && (forall i :: 0 <= i < |chunks| ==> chunks[i] == objects[heap.chunks[i]])
      && (forall i :: 0 <= i < |chunksCache| ==> chunksCache[i] == objects[heap.cache[i]])
    }

    ghost predicate Shown()
      reads this, Repr
      requires Layout()
    {
      forall k :: 0 <= k < |objects| ==> Shows(k)
    }

    ghost predicate Shows(k: nat)
      reads this, Repr
      requires Layout() && k < |objects|
    {
      objects[k] in objects && objects[k].Valid() && BlockOf(objects[k]) == heap.blocks[k]
    }

    ghost predicate NonEmpty()
      reads this`heap
    {
      InRange(heap) && forall i :: 0 <= i < |heap.chunks| ==> heap.blocks[heap.chunks[i]].entries != []
    }

    ghost predicate Valid()
      reads this, Repr
    {
      Layout() && Shown() && NonEmpty()
    }

    constructor (size: nat)
      requires size > 0
      ensures Valid() && fresh(Repr) && heap == ChunkRuns.EmptyHeap(size)
    {
      this.size := size;
      chunks, chunksCache, objects := [], [], [];
      heap := ChunkRuns.EmptyHeap(size);
      Repr := {this};
    }

    /** As coded: the chunk stays in the cache. */
    method AllocateChunk() returns (chunk: Chunk<V>, ghost k: nat)
      requires Layout() && Shown()
      modifies Repr
      ensures Layout() && Shown() && fresh(Repr - old(Repr))
      ensures chunks == old(chunks) && chunksCache == old(chunksCache)
      ensures k < |objects| && chunk == objects[k]
      ensures k == if old(chunksCache) == [] then |old(heap).blocks| else old(heap).cache[|old(heap).cache| - 1]
      ensures heap == old(heap).(blocks := if old(chunksCache) == [] then old(heap).blocks + [Block([], size)]
                                           else old(heap).blocks[k := Block([], size)])
    {
      hide Unshared;
      if chunksCache == [] {
        chunk, k := AddChunk();
      } else {
        chunk := chunksCache[|chunksCache| - 1];
        k := heap.cache[|heap.cache| - 1];
        assert objects[k] in objects;
        ResetChunk(k);
      }
    }

    method AddChunk() returns (chunk: Chunk<V>, ghost k: nat)
      requires Layout() && Shown()
      modifies this`objects, this`heap, this`Repr
      ensures Layout() && Shown() && fresh(Repr - old(Repr))
      ensures k == |old(objects)| && objects == old(objects) + [chunk]
      ensures heap == old(heap).(blocks := old(heap).blocks + [Block([], size)])
    {
      chunk := new Chunk(size);
      k := |objects|;
      assert forall c :: c in objects ==> c.Parts() !! chunk.Parts();
      UnsharedLast(objects, chunk);
      hide Unshared;
      objects := objects + [chunk];
      heap := heap.(blocks := heap.blocks + [Block([], size)]);
      Repr := Repr + chunk.Parts();
      forall j | 0 <= j < |objects|
        ensures Shows(j)
      {
        assert j < k ==> old(Shows(j));
      }
    }

    /** `cursor`, `startIndex` and `chunkSize` as those of a new chunk. */
    method ResetChunk(ghost k: nat)
      requires Layout() && Shown() && chunksCache != [] && k == heap.cache[|heap.cache| - 1]
      modifies this`heap, objects[k]
      ensures Layout() && Shown() && heap == old(heap).(blocks := old(heap).blocks[k := Block([], size)])
    {
      var chunk := chunksCache[|chunksCache| - 1];
      assert Shows(k);
      Alone(k);
      hide Unshared;
      chunk.Reset();
      heap := heap.(blocks := heap.blocks[k := Block([], size)]);
      forall j | 0 <= j < |objects|
        ensures Shows(j)
      {
        assert old(Shows(j));
      }
    }

    lemma Alone(k: nat)
      requires Layout() && k < |objects|
      ensures objects[k] in objects
      ensures forall j :: 0 <= j < |objects| && j != k ==>
                objects[j] in objects && objects[j].Parts() !! objects[k].Parts()
    {
      forall j | 0 <= j < |objects| && j != k
        ensures objects[j] in objects && objects[j].Parts() !! objects[k].Parts()
      {
        assert objects[if j < k then j else k].Parts() !! objects[if j < k then k else j].Parts();
      }
    }

    method AppendTo(chunk: Chunk<V>, ghost k: nat, key: int, value: V)
      requires Layout() && Shown() && k < |objects| && chunk == objects[k]
      requires |heap.blocks[k].entries| != heap.blocks[k].room
      requires heap.blocks[k].entries == [] || ChunkLayout.LastKey(heap.blocks[k]) <= key
      modifies this`heap, chunk, chunk.keys, chunk.values
      ensures Layout() && Shown()
      ensures heap == old(heap).(blocks := old(heap).blocks[k := Appended(old(heap).blocks[k], Entry(key, value))])
    {
      assert Shows(k);
      Alone(k);
      hide Unshared;
      chunk.Append(key, value);
      heap := heap.(blocks := heap.blocks[k := Appended(heap.blocks[k], Entry(key, value))]);
      forall j | 0 <= j < |objects|
        ensures Shows(j)
      {
        assert old(Shows(j));
      }
    }

    /** What the last chunk of the main deque is as a value. */
    lemma LastShows()
      requires Valid() && chunks != []
      ensures var c, b := chunks[|chunks| - 1], View(heap)[|chunks| - 1];
              && c in objects && c.Valid() && BlockOf(c) == b && b.entries != []
              && c.LastKey() == ChunkLayout.LastKey(b)
    {
      assert Shows(heap.chunks[|chunks| - 1]);
    }

    /** As coded, on any state, however chunks are shared: the state becomes what the value model says.
        From a steady state the contents grow by the entry if and only if no chunk is spoiled. */
    method PutPeeking(key: int, value: V) returns (ok: bool)
      requires Valid()
      modifies Repr
      ensures Valid() && fresh(Repr - old(Repr))
      ensures ok <==> !Rejects(old(View(heap)), key)
      ensures heap == PutCoded(old(heap), Entry(key, value))
      ensures ok && Steady(old(heap)) ==>
                (Contents(View(heap)) == Contents(View(old(heap))) + [Entry(key, value)] <==>
                   !Spoils(old(heap), Entry(key, value)))
    {
      ghost var h, e := heap, Entry(key, value);
      PutEffect(h, e);
      hide Contents, Steady, Spoils, Unshared, ChunkLayout.LastKey;
      if chunks != [] {
        LastShows();
        var activeChunk := chunks[|chunks| - 1];
        if activeChunk.LastKey() > key {
          return false;
        }
      }
      ok := PutAccepted(key, value);
    }

    method PutAccepted(key: int, value: V) returns (ok: bool)
      requires Valid() && !Rejects(View(heap), key)
      modifies Repr
      ensures Valid() && fresh(Repr - old(Repr)) && ok
      ensures heap == PutCoded(old(heap), Entry(key, value))
    {
      if chunks != [] {
        LastShows();
      }
      if chunks == [] || chunks[|chunks| - 1].IsFull() {
        PutInNext(key, value);
      } else {
        PutInLast(key, value);
      }
      ok := true;
    }

    method PutInNext(key: int, value: V)
      requires Valid() && !Rejects(View(heap), key) && NeedsBlock(View(heap))
      modifies Repr
      ensures Valid() && fresh(Repr - old(Repr))
      ensures heap == PutCoded(old(heap), Entry(key, value))
    {
      hide Unshared, Rejects, NeedsBlock, Shows;
      ghost var e := Entry(key, value);
      var chunk, k := AllocateChunk();
      assert chunk in objects;
      PushChunk(chunk, k);
      AppendTo(chunk, k, key, value);
      assert [] + [e] == [e];
    }

    method PutInLast(key: int, value: V)
      requires Valid() && !Rejects(View(heap), key) && !NeedsBlock(View(heap))
      modifies Repr
      ensures Valid() && Repr == old(Repr)
      ensures heap == PutCoded(old(heap), Entry(key, value))
    {
      hide Unshared;
      LastShows();
      AppendTo(chunks[|chunks| - 1], heap.chunks[|chunks| - 1], key, value);
    }

    method PushChunk(chunk: Chunk<V>, ghost k: nat)
      requires Layout() && Shown() && k < |objects| && chunk == objects[k]
      modifies this`chunks, this`heap
      ensures Layout() && Shown()
      ensures heap == old(heap).(chunks := old(heap).chunks + [k])
    {
      hide Unshared;
      chunks := chunks + [chunk];
      heap := heap.(chunks := heap.chunks + [k]);
      forall j | 0 <= j < |objects|
        ensures Shows(j)
      {
        assert old(Shows(j));
      }
    }

    lemma FirstShows()
      requires Valid() && chunks != []
      ensures var c, b := chunks[0], View(heap)[0];
              && c in objects && c.Valid() && BlockOf(c) == b && b.entries != []
              && c.LastKey() == ChunkLayout.LastKey(b)
    {
      assert Shows(heap.chunks[0]);
    }

    /** Moves the front chunk into the cache, if there is room. */
    method FreeFront()
      requires Valid() && chunks != []
      modifies this`chunks, this`chunksCache, this`heap
      ensures Valid()
      ensures var h := old(heap);
              heap == h.(chunks := h.chunks[1..],
                         cache := if |h.cache| < MAX_CACHE_SIZE then h.cache + [h.chunks[0]] else h.cache)
    {
      hide Unshared;
      ghost var h := heap;
      if |chunksCache| < MAX_CACHE_SIZE {
        chunksCache := chunksCache + [chunks[0]];
      }
      chunks := chunks[1..];
      heap := h.(chunks := h.chunks[1..],
                 cache := if |h.cache| < MAX_CACHE_SIZE then h.cache + [h.chunks[0]] else h.cache);
      forall j | 0 <= j < |objects|
        ensures Shows(j)
      {
        assert old(Shows(j));
      }
    }

    method CutObject(chunk: Chunk<V>, ghost k: nat, i: nat)
      requires Layout() && Shown() && NonEmpty() && k < |objects| && chunk == objects[k]
      requires chunk.startIndex <= i < chunk.cursor && chunk.Valid()
      modifies this`heap, chunk
      ensures Layout() && Shown() && NonEmpty() && i - old(chunk.startIndex) <= |old(heap).blocks[k].entries|
      ensures heap ==
              old(heap).(blocks := old(heap).blocks[k := CutBlock(old(heap).blocks[k], i - old(chunk.startIndex))])
    {
      assert Shows(k);
      Alone(k);
      hide Unshared;
      heap := heap.(blocks := heap.blocks[k := CutBlock(heap.blocks[k], i - chunk.startIndex)]);
      chunk.CutFront(i);
      forall j | 0 <= j < |objects|
        ensures Shows(j)
      {
        assert old(Shows(j));
      }
    }

    method CutFirst(startKey: int)
      requires Valid() && chunks != [] && ChunkLayout.LastKey(View(heap)[0]) >= startKey
      modifies Repr
      ensures Valid() && Repr == old(Repr)
      ensures var b := View(old(heap))[0];
              heap == old(heap).(blocks := old(heap).blocks[old(heap).chunks[0] :=
                                             CutBlock(b, CutIndex(b.entries, startKey))])
    {
      hide *;
      FrontBlock();
      var chunk := chunks[0];
      var newStartIndex := chunk.FindFirstIndexOfGreaterEqualElements(startKey);
      CutKeeps(chunk.entries, startKey, newStartIndex - chunk.startIndex);
      CutObject(chunk, heap.chunks[0], newStartIndex);
      IsValid();
    }

    /** The front chunk, its place and its block. */
    lemma FrontBlock()
      requires Valid() && chunks != []
      ensures Layout() && Shown() && NonEmpty() && InRange(heap) && |heap.chunks| > 0 && this in Repr
      ensures var c, k := chunks[0], heap.chunks[0];
              && k < |objects| == |heap.blocks| && c == objects[k] && c in Repr && c.Valid() && !c.IsEmpty()
              && View(heap)[0] == heap.blocks[k] == BlockOf(c) && heap.blocks[k].entries == c.entries != []
              && ChunkLayout.LastKey(heap.blocks[k]) == c.LastKey() == c.entries[|c.entries| - 1].ts
              && Sorted(c.entries) && |c.entries| == c.cursor - c.startIndex
    {
      FirstShows();
    }

    lemma IsValid()
      requires Layout() && Shown() && NonEmpty()
      ensures Valid()
    {
    }

    /** As coded, on any state: drops whole chunks from the front into the cache, then cuts one. */
    method Trim(startKey: int)
      requires Valid()
      modifies Repr
      ensures Valid() && Repr == old(Repr)
      ensures heap == TrimCoded(old(heap), startKey)
    {
      ghost var h, n := heap, 0;
      assert Dropped(h, 0) == h && AllBelow(View(h), startKey, 0);
      DequeLength();
      hide Unshared, Dropped, CutBlock, CutIndex, Shows, Layout, Shown, NonEmpty, View, AllBelow, TrimCoded;
      while chunks != []
        invariant Valid() && Repr == old(Repr) && |chunks| == |heap.chunks|
        invariant n <= |h.chunks| && heap == Dropped(h, n) && AllBelow(View(h), startKey, n)
        decreases |chunks|
      {
        FirstShows();
        if chunks[0].LastKey() < startKey {
          DropOne(h, startKey, n);
          FreeFront();
          n := n + 1;
        } else {
          CutFirst(startKey);
          TrimStops(h, startKey, n);
          return;
        }
        DequeLength();
      }
      TrimEnds(h, startKey, n);
    }

    lemma DequeLength()
      requires Valid()
      ensures |chunks| == |heap.chunks| && InRange(heap)
    {
    }

    method Clear()
      requires Valid()
      modifies this`chunks, this`heap
      ensures Valid() && heap == ChunkRuns.StepCoded(old(heap), ChunkRuns.Clear)
    {
      hide Unshared;
      chunks := [];
      heap := heap.(chunks := []);
      forall j | 0 <= j < |objects|
        ensures Shows(j)
      {
        assert old(Shows(j));
      }
    }
  }

  lemma DropOne<V>(h: Heap<V>, key: int, n: nat)
    requires InRange(h) && n <= |h.chunks| && AllBelow(View(h), key, n) && Dropped(h, n).chunks != []
    requires var b := View(Dropped(h, n))[0]; b.entries != [] && ChunkLayout.LastKey(b) < key
    ensures n < |h.chunks| && AllBelow(View(h), key, n + 1)
    ensures var d := Dropped(h, n);
            Dropped(h, n + 1) ==
            d.(chunks := d.chunks[1..],
               cache := if |d.cache| < MAX_CACHE_SIZE then d.cache + [d.chunks[0]] else d.cache)
  {
    DroppedMore(h, n);
    assert View(Dropped(h, n))[0] == View(h)[n];
  }

  lemma TrimStops<V>(h: Heap<V>, key: int, n: nat)
    requires InRange(h) && n <= |h.chunks| && AllBelow(View(h), key, n) && Dropped(h, n).chunks != []
    requires var b := View(Dropped(h, n))[0]; b.entries != [] && ChunkLayout.LastKey(b) >= key
    ensures var d := Dropped(h, n);
            var b := View(d)[0];
            TrimCoded(h, key) == d.(blocks := d.blocks[d.chunks[0] := CutBlock(b, CutIndex(b.entries, key))])
  {
    assert View(Dropped(h, n))[0] == View(h)[n];
    DropCountIs(View(h), key, n);
    hide CutIndex, CutBlock;
  }

  lemma TrimEnds<V>(h: Heap<V>, key: int, n: nat)
    requires InRange(h) && n <= |h.chunks| && AllBelow(View(h), key, n) && Dropped(h, n).chunks == []
    ensures TrimCoded(h, key) == Dropped(h, n)
  {
    DropCountIs(View(h), key, n);
  }

  lemma PutEffect<V>(h: Heap<V>, e: Entry<V>)
    requires InRange(h)
    ensures !Rejects(View(h), e.ts) && Steady(h) ==>
              (Contents(View(PutCoded(h, e))) == Contents(View(h)) + [e] <==> !Spoils(h, e))
  {
    if !Rejects(View(h), e.ts) && Steady(h) {
      PutGrows(h, e);
    }
  }
}
