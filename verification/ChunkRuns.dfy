/** Runs of puts, trims and clears: when the store as coded holds what the documented one holds. */
module ChunkRuns {
  import opened Timeline
  import opened ChunkLayout
  import opened Optional

  datatype Action<V> = Put(e: Entry<V>) | Trim(key: int) | Clear

  function StepCoded<V>(h: Heap<V>, a: Action<V>): (r: Heap<V>)
    requires InRange(h)
    ensures InRange(r)
  {
    match a
    case Put(e) => PutCoded(h, e)
    case Trim(key) => TrimCoded(h, key)
    case Clear => h.(chunks := [])
  }

  function StepBlocks<V>(bs: seq<Block<V>>, a: Action<V>, size: nat): seq<Block<V>> {
    match a
    case Put(e) => PutBlocks(bs, e, size)
    case Trim(key) => TrimBlocks(bs, key)
    case Clear => []
  }

  function RunCoded<V>(h: Heap<V>, actions: seq<Action<V>>): (r: Heap<V>)
    requires InRange(h)
    ensures InRange(r)
    decreases |actions|
  {
    if actions == [] then h else RunCoded(StepCoded(h, actions[0]), actions[1..])
  }

  function RunBlocks<V>(bs: seq<Block<V>>, actions: seq<Action<V>>, size: nat): seq<Block<V>>
    decreases |actions|
  {
    if actions == [] then bs else RunBlocks(StepBlocks(bs, actions[0], size), actions[1..], size)
  }

  function EmptyHeap<V>(size: nat): Heap<V> {
    Heap(size, [], [], [])
  }

  lemma SizeKept<V>(h: Heap<V>, a: Action<V>)
    requires InRange(h)
    ensures StepCoded(h, a).size == h.size
  {
  }

  // ---------------------------------------------------------------- exactly when both hold the same

  ghost predicate SpoiledBy<V>(h: Heap<V>, a: Action<V>)
    requires InRange(h)
  {
    a.Put? && Spoils(h, a.e)
  }

  /** No put of the run spoils a chunk that stands elsewhere in the deque. */
  ghost predicate NeverSpoiled<V>(h: Heap<V>, actions: seq<Action<V>>)
    requires InRange(h)
    decreases |actions|
  {
    actions == [] || (!SpoiledBy(h, actions[0]) && NeverSpoiled(StepCoded(h, actions[0]), actions[1..]))
  }

  /** Both stores hold the same entries now and after every step of the run. */
  ghost predicate Agree<V>(h: Heap<V>, bs: seq<Block<V>>, actions: seq<Action<V>>)
    requires InRange(h)
    decreases |actions|
  {
    Contents(View(h)) == Contents(bs) &&
    (actions == [] || Agree(StepCoded(h, actions[0]), StepBlocks(bs, actions[0], h.size), actions[1..]))
  }

  lemma StepMirrors<V>(h: Heap<V>, bs: seq<Block<V>>, a: Action<V>)
    requires Mirrors(h, bs) && !SpoiledBy(h, a)
    ensures Mirrors(StepCoded(h, a), StepBlocks(bs, a, h.size))
  {
    match a
    case Put(e) => PutMirrors(h, bs, e);
    case Trim(key) => TrimMirrors(h, bs, key);
    case Clear =>
  }

  /** As long as nothing is spoiled both stores have the same entries chunk by chunk. */
  lemma {:induction false} RunMirrors<V>(h: Heap<V>, bs: seq<Block<V>>, actions: seq<Action<V>>)
    requires Mirrors(h, bs) && NeverSpoiled(h, actions)
    ensures Mirrors(RunCoded(h, actions), RunBlocks(bs, actions, h.size))
    decreases |actions|
  {
    if actions != [] {
      var a := actions[0];
      StepMirrors(h, bs, a);
      SizeKept(h, a);
      hide StepCoded, StepBlocks, Mirrors, SpoiledBy;
      RunMirrors(StepCoded(h, a), StepBlocks(bs, a, h.size), actions[1..]);
    }
  }

  /** For every run of puts, trims and clears: the coded store holds what the documented one holds,
      now and after every step, if and only if no put spoils a chunk. */
  lemma {:induction false} AgreeExactly<V>(h: Heap<V>, bs: seq<Block<V>>, actions: seq<Action<V>>)
    requires Mirrors(h, bs)
    ensures Agree(h, bs, actions) <==> NeverSpoiled(h, actions)
    decreases |actions|
  {
    SameContents(View(h), bs);
    if actions != [] {
      var a := actions[0];
      if SpoiledBy(h, a) {
        PutExact(h, bs, a.e);
      } else {
        StepMirrors(h, bs, a);
        SizeKept(h, a);
        hide StepCoded, StepBlocks, Contents, Mirrors, SpoiledBy;
        AgreeExactly(StepCoded(h, a), StepBlocks(bs, a, h.size), actions[1..]);
      }
    }
  }

  // ---------------------------------------------------------------- the same in terms of the documented run

  /** What a client can know of the cache: how many chunks were dropped into it, and the place in the
      deque of the chunk at its back, while that is in use. */
  datatype Cache = Cache(count: nat, live: Option<nat>)

  /** A put takes the chunk at the back of the cache; a trim that drops chunks puts one there, unless
      the cache is full; clearing ends all use. */
  function NextCache<V>(c: Cache, bs: seq<Block<V>>, a: Action<V>): Cache {
    match a
    case Put(e) => if !Rejects(bs, e.ts) && NeedsBlock(bs) && c.count > 0 then Cache(c.count, Some(|bs|)) else c
    case Trim(key) => AfterDrops(c, DropCount(bs, key))
    case Clear => Cache(c.count, None)
  }

  function AfterDrops(c: Cache, n: nat): Cache {
    if n == 0 then c
    else if c.count < MAX_CACHE_SIZE then
      Cache(if c.count + n < MAX_CACHE_SIZE then c.count + n else MAX_CACHE_SIZE, None)
    else Cache(c.count, if c.live.Some? && c.live.value >= n then Some(c.live.value - n) else None)
  }

  /** The put needs a chunk while the one it would take is still in use. */
  predicate TakesLive<V>(c: Cache, bs: seq<Block<V>>, a: Action<V>) {
    a.Put? && !Rejects(bs, a.e.ts) && NeedsBlock(bs) && c.live.Some?
  }

  /** Between two takings from the cache a chunk is dropped into it, or the one taken is dropped, or
      everything is cleared. */
  predicate NeverTakesLive<V>(c: Cache, bs: seq<Block<V>>, actions: seq<Action<V>>, size: nat)
    decreases |actions|
  {
    actions == [] ||
    (!TakesLive(c, bs, actions[0]) &&
     NeverTakesLive(NextCache(c, bs, actions[0]), StepBlocks(bs, actions[0], size), actions[1..], size))
  }

  /** No chunk is twice in the deque, and `c` is what the client knows of the cache. */
  predicate Tracked<V>(h: Heap<V>, c: Cache) {
    InRange(h) && Knows(c, h.chunks, h.cache)
  }

  predicate Knows(c: Cache, chunks: seq<nat>, cache: seq<nat>) {
    && (forall i, j :: 0 <= i < j < |chunks| ==> chunks[i] != chunks[j])
    && c.count == |cache| <= MAX_CACHE_SIZE
    && (c.live.Some? ==> cache != [] && c.live.value < |chunks| && chunks[c.live.value] == cache[|cache| - 1])
    && (c.live.None? && cache != [] ==> cache[|cache| - 1] !in chunks)
  }

  lemma {:induction false} FreedEnds(cache: seq<nat>, dropped: seq<nat>)
    requires |cache| <= MAX_CACHE_SIZE
    ensures var c := Freed(cache, dropped);
            && |c| == (if |cache| + |dropped| < MAX_CACHE_SIZE then |cache| + |dropped| else MAX_CACHE_SIZE)
            && (dropped == [] || |cache| == MAX_CACHE_SIZE ==> c == cache)
            && (dropped != [] && |cache| < MAX_CACHE_SIZE ==> c[|c| - 1] in dropped)
    decreases |dropped|
  {
    if dropped != [] {
      var next := if |cache| < MAX_CACHE_SIZE then cache + [dropped[0]] else cache;
      FreedEnds(next, dropped[1..]);
    }
  }

  lemma KnowsDrops(c: Cache, chunks: seq<nat>, cache: seq<nat>, n: nat)
    requires Knows(c, chunks, cache) && n <= |chunks|
    ensures Knows(AfterDrops(c, n), chunks[n..], Freed(cache, chunks[..n]))
  {
    FreedEnds(cache, chunks[..n]);
    var rest, cache' := chunks[n..], Freed(cache, chunks[..n]);
    hide Freed;
    if n == 0 {
      assert rest == chunks;
    } else if c.count < MAX_CACHE_SIZE {
      var k := cache'[|cache'| - 1];
      var i :| 0 <= i < n && chunks[i] == k;
      assert forall j :: 0 <= j < |rest| ==> rest[j] == chunks[n + j] != k;
    } else if c.live.Some? && c.live.value >= n {
      assert rest[c.live.value - n] == chunks[c.live.value];
    } else {
      var k := cache[|cache| - 1];
      assert forall j :: 0 <= j < |rest| ==> rest[j] == chunks[n + j] != k;
    }
  }

  lemma TrackedTrim<V>(h: Heap<V>, bs: seq<Block<V>>, c: Cache, key: int)
    requires Mirrors(h, bs) && Tracked(h, c)
    ensures Tracked(TrimCoded(h, key), NextCache(c, bs, Trim(key)))
  {
    SameDrops(View(h), bs, key);
    KnowsDrops(c, h.chunks, h.cache, DropCount(bs, key));
    hide Knows, Freed, DropCount;
  }

  lemma TrackedPut<V>(h: Heap<V>, bs: seq<Block<V>>, c: Cache, e: Entry<V>)
    requires Mirrors(h, bs) && Tracked(h, c) && !TakesLive(c, bs, Put(e))
    ensures Tracked(PutCoded(h, e), NextCache(c, bs, Put(e)))
  {
    SameLast(View(h), bs, e.ts);
  }

  /** A put takes a live chunk into use if and only if the documented run says so. */
  lemma TakesExact<V>(h: Heap<V>, bs: seq<Block<V>>, c: Cache, a: Action<V>)
    requires Mirrors(h, bs) && Tracked(h, c)
    ensures TakesLive(c, bs, a) <==> a.Put? && Misuse(h, a.e)
    ensures SpoiledBy(h, a) ==> TakesLive(c, bs, a)
    ensures !TakesLive(c, bs, a) ==> Tracked(StepCoded(h, a), NextCache(c, bs, a))
  {
    match a
    case Put(e) =>
      SameLast(View(h), bs, e.ts);
      if !TakesLive(c, bs, a) {
        TrackedPut(h, bs, c, e);
      }
    case Trim(key) => TrackedTrim(h, bs, c, key);
    case Clear =>
  }

  /** A run that never takes a live chunk into use spoils nothing. */
  lemma {:induction false} NeverLiveNeverSpoiled<V>(h: Heap<V>, bs: seq<Block<V>>, c: Cache, actions: seq<Action<V>>)
    requires Mirrors(h, bs) && Tracked(h, c) && NeverTakesLive(c, bs, actions, h.size)
    ensures NeverSpoiled(h, actions)
    decreases |actions|
  {
    if actions != [] {
      var a := actions[0];
      TakesExact(h, bs, c, a);
      StepMirrors(h, bs, a);
      SizeKept(h, a);
      hide StepCoded, StepBlocks, Mirrors, Tracked, NextCache, TakesLive, SpoiledBy;
      NeverLiveNeverSpoiled(StepCoded(h, a), StepBlocks(bs, a, h.size), NextCache(c, bs, a), actions[1..]);
    }
  }

  function PutsOf<V>(actions: seq<Action<V>>): seq<Entry<V>> {
    if actions == [] then []
    else (if actions[0].Put? then [actions[0].e] else []) + PutsOf(actions[1..])
  }

  predicate AllUpTo<V>(bs: seq<Block<V>>, limit: int) {
    forall i, j :: 0 <= i < |bs| && 0 <= j < |bs[i].entries| ==> bs[i].entries[j].ts <= limit
  }

  lemma StepUpTo<V>(bs: seq<Block<V>>, a: Action<V>, size: nat, limit: int)
    requires AllUpTo(bs, limit) && (a.Put? ==> limit <= a.e.ts)
    ensures AllUpTo(StepBlocks(bs, a, size), if a.Put? then a.e.ts else limit)
  {
    hide DropCount, CutIndex;
  }

  /** With distinct keys nothing that is taken into use while live goes unnoticed. */
  lemma {:induction false} DistinctExact<V>(h: Heap<V>, bs: seq<Block<V>>, c: Cache, actions: seq<Action<V>>,
                                            limit: int)
    requires Mirrors(h, bs) && Tracked(h, c) && AllUpTo(bs, limit)
    requires StrictlySorted(PutsOf(actions)) && (PutsOf(actions) != [] ==> limit < PutsOf(actions)[0].ts)
    ensures NeverSpoiled(h, actions) <==> NeverTakesLive(c, bs, actions, h.size)
    decreases |actions|
  {
    if actions != [] {
      var a, rest := actions[0], PutsOf(actions[1..]);
      assert forall i :: 0 <= i < |rest| ==> rest[i] == PutsOf(actions)[if a.Put? then i + 1 else i];
      TakesExact(h, bs, c, a);
      if TakesLive(c, bs, a) {
        LiveIsSpoiled(h, bs, c, a.e, limit);
      } else {
        StepMirrors(h, bs, a);
        StepUpTo(bs, a, h.size, limit);
        SizeKept(h, a);
        hide StepCoded, StepBlocks, Mirrors, Tracked, NextCache, TakesLive, SpoiledBy, AllUpTo;
        DistinctExact(StepCoded(h, a), StepBlocks(bs, a, h.size), NextCache(c, bs, a), actions[1..],
                      if a.Put? then a.e.ts else limit);
      }
    }
  }

  lemma LiveIsSpoiled<V>(h: Heap<V>, bs: seq<Block<V>>, c: Cache, e: Entry<V>, limit: int)
    requires Mirrors(h, bs) && Tracked(h, c) && AllUpTo(bs, limit) && limit < e.ts && TakesLive(c, bs, Put(e))
    ensures Spoils(h, e)
  {
    SameLast(View(h), bs, e.ts);
    var i := c.live.value;
    assert bs[i].entries == h.blocks[h.chunks[i]].entries;
    assert bs[i].entries[0].ts <= limit;
  }

  // ---------------------------------------------------------------- the history of a store

  lemma {:induction false} RunMore<V>(bs: seq<Block<V>>, actions: seq<Action<V>>, a: Action<V>, size: nat)
    ensures RunBlocks(bs, actions + [a], size) == StepBlocks(RunBlocks(bs, actions, size), a, size)
    decreases |actions|
  {
    if actions == [] {
      assert (actions + [a])[1..] == [] && (actions + [a])[0] == a;
      assert RunBlocks(StepBlocks(bs, a, size), [], size) == StepBlocks(bs, a, size);
    } else {
      assert (actions + [a])[1..] == actions[1..] + [a];
      hide StepBlocks;
      RunMore(StepBlocks(bs, actions[0], size), actions[1..], a, size);
    }
  }

  lemma {:induction false} PutsMore<V>(actions: seq<Action<V>>, a: Action<V>)
    ensures PutsOf(actions + [a]) == PutsOf(actions) + (if a.Put? then [a.e] else [])
  {
    if actions == [] {
      assert (actions + [a])[1..] == [] && (actions + [a])[0] == a;
    } else {
      assert (actions + [a])[1..] == actions[1..] + [a];
      PutsMore(actions[1..], a);
      assert PutsOf(actions + [a]) == (if actions[0].Put? then [actions[0].e] else []) + PutsOf(actions[1..] + [a]);
    }
  }

  /** The chunks of a store are those that this history of operations leaves; `puts` was put. */
  ghost predicate Recorded<V>(bs: seq<Block<V>>, puts: seq<Entry<V>>, history: seq<Action<V>>, size: nat) {
    bs == RunBlocks([], history, size) && PutsOf(history) == puts
  }

  lemma NothingRecorded<V>(size: nat)
    ensures Recorded<V>([], [], [], size)
  {
  }

  lemma RecordedMore<V>(bs: seq<Block<V>>, puts: seq<Entry<V>>, history: seq<Action<V>>, size: nat,
                        a: Action<V>, bs': seq<Block<V>>)
    requires Recorded(bs, puts, history, size) && bs' == StepBlocks(bs, a, size)
    ensures Recorded(bs', if a.Put? then puts + [a.e] else puts, history + [a], size)
  {
    RunMore([], history, a, size);
    PutsMore(history, a);
  }

  lemma EmptyMirrors<V>(size: nat)
    ensures Mirrors(EmptyHeap<V>(size), []) && Tracked(EmptyHeap<V>(size), Cache(0, None))
  {
  }

  /** What the store as coded would have held along a history. */
  ghost predicate FollowsCode<V>(history: seq<Action<V>>, size: nat) {
    Agree(EmptyHeap(size), [], history)
  }

  /** The same history, as coded, leaves the same entries in every chunk, at every moment, if and only
      if no put spoils a chunk; it does not if no put takes a live chunk from the cache. */
  lemma HistoryExact<V>(bs: seq<Block<V>>, puts: seq<Entry<V>>, history: seq<Action<V>>, size: nat)
    requires Recorded(bs, puts, history, size)
    ensures FollowsCode(history, size) <==> NeverSpoiled(EmptyHeap(size), history)
    ensures FollowsCode(history, size) ==> Mirrors(RunCoded(EmptyHeap(size), history), bs)
    ensures NeverTakesLive(Cache(0, None), [], history, size) ==> FollowsCode(history, size)
  {
    EmptyMirrors<V>(size);
    AgreeExactly(EmptyHeap(size), [], history);
    if NeverSpoiled(EmptyHeap(size), history) {
      RunMirrors(EmptyHeap(size), [], history);
    }
    if NeverTakesLive(Cache(0, None), [], history, size) {
      NeverLiveNeverSpoiled(EmptyHeap(size), [], Cache(0, None), history);
    }
  }

  /** When all keys put are distinct, if and only if no put takes a live chunk from the cache. */
  lemma DistinctHistory<V>(history: seq<Action<V>>, size: nat)
    requires StrictlySorted(PutsOf(history))
    ensures FollowsCode(history, size) <==> NeverTakesLive(Cache(0, None), [], history, size)
  {
    EmptyMirrors<V>(size);
    AgreeExactly(EmptyHeap(size), [], history);
    var puts := PutsOf(history);
    DistinctExact(EmptyHeap(size), [], Cache(0, None), history, if puts == [] then 0 else puts[0].ts - 1);
  }
}
