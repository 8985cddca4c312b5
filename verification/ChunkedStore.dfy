/** The chunked associative array: a deque of partially trimmed chunks that stands for one
    key-sorted sequence, and a cache of chunks to use again. */
module ChunkedStore {
  import opened Searching
  import opened Timeline
  import opened Optional
  import ChunkLayout

  class Chunk<V(0)> {
    const keys: array<Cell>
    const values: array<V>
    var chunkSize: nat
    var startIndex: nat
    var cursor: nat
    ghost var entries: seq<Entry<V>>

    ghost function Parts(): set<object> {
      {this, keys, values}
    }

    ghost predicate WellFormed() {
      0 < keys.Length == values.Length && keys as object != values
    }

    /** The cells from `startIndex` to `cursor` hold the entries; there is room up to `chunkSize`. */
    ghost predicate Valid()
      reads this, keys, values
    {
      && WellFormed()
      && startIndex <= cursor <= startIndex + chunkSize <= keys.Length
      && |entries| == cursor - startIndex
      && (forall i :: 0 <= i < |entries| ==>
            keys[startIndex + i] == Key(entries[i].ts) && values[startIndex + i] == entries[i].val)
      && Sorted(entries)
    }

    /** Behind the live cells no key was ever stored. */
    ghost predicate Untouched()
      reads this, keys
    {
      forall i :: cursor <= i < keys.Length ==> keys[i] == Hole
    }

    constructor (size: nat)
      requires size > 0
      ensures Valid() && entries == [] && chunkSize == size == keys.Length
      ensures fresh(keys) && fresh(values)
      ensures Untouched()
    {
      chunkSize, startIndex, cursor := size, 0, 0;
      keys := new Cell[size](_ => Hole);
      values := new V[size];
      entries := [];
    }

    predicate IsEmpty()
      reads this
    {
      cursor == startIndex
    }

    predicate IsFull()
      reads this
    {
      cursor - startIndex == chunkSize
    }

    function FirstKey(): int
      requires Valid() && !IsEmpty()
      reads this, keys, values
      ensures FirstKey() == entries[0].ts
    {
      assert keys[startIndex + 0] == Key(entries[0].ts);
      keys[startIndex].key
    }

    function LastKey(): int
      requires Valid() && !IsEmpty()
      reads this, keys, values
      ensures LastKey() == entries[|entries| - 1].ts
    {
      assert keys[startIndex + (|entries| - 1)] == Key(entries[|entries| - 1].ts);
      keys[cursor - 1].key
    }

    /** Takes a chunk into use again. */
    method Reset()
      requires WellFormed()
      modifies this
      ensures Valid() && entries == [] && chunkSize == keys.Length
    {
      cursor := 0;
      startIndex := 0;
      chunkSize := keys.Length;
      entries := [];
    }

    method Append(key: int, value: V)
      requires Valid() && !IsFull() && (entries == [] || entries[|entries| - 1].ts <= key)
      modifies this, keys, values
      ensures Valid() && entries == old(entries) + [Entry(key, value)] && chunkSize == old(chunkSize)
      ensures old(Untouched()) ==> Untouched()
    {
      keys[cursor] := Key(key);
      values[cursor] := value;
      cursor := cursor + 1;
      entries := entries + [Entry(key, value)];
    }

    lemma LiveCellsSorted()
      requires Valid()
      ensures SortedCells(keys[..], startIndex, cursor)
    {
      forall i | startIndex <= i < cursor ensures keys[..][i] == Key(entries[i - startIndex].ts) {
        assert keys[startIndex + (i - startIndex)] == Key(entries[i - startIndex].ts);
      }
    }

    lemma IndexIsCut(needle: int, r: int)
      requires Valid() && SortedCells(keys[..], startIndex, cursor)
      requires FoundOrInsertion(keys[..], needle, startIndex, cursor, r)
      ensures startIndex <= IndexOf(r) <= cursor && CutAt(entries, needle, IndexOf(r) - startIndex)
    {
      forall i | 0 <= i < |entries| ensures keys[..][startIndex + i] == Key(entries[i].ts) {
      }
    }

    /** Whether the search, which passes `cursor` as an inclusive bound, stays within the live cells:
        some live key is not below `key`, or the first dead cell happens to hold such a key. */
    ghost predicate SearchHolds(key: int)
      reads this, keys, values
      requires Valid()
    {
      || IsEmpty() || key <= LastKey()
      || (Searching.Read(keys[..], cursor).Key? && Searching.Read(keys[..], cursor).key >= key)
    }

    /** An index that cuts the entries at `minKey` exactly if the search stays within the live cells, and
        the one that the entries determine unless `minKey` is above them all; otherwise the index lies
        one past the first dead cell. */
    method FindFirstIndexOfGreaterEqualElements(minKey: int) returns (i: nat)
      requires Valid()
      ensures IsEmpty() || minKey <= LastKey() ==> SearchHolds(minKey)
      ensures SearchHolds(minKey) ==> startIndex <= i <= cursor && CutAt(entries, minKey, i - startIndex)
      ensures !SearchHolds(minKey) ==> i == cursor + 1
      ensures IsEmpty() || minKey <= LastKey() ==> i == startIndex + ChunkLayout.CutIndex(entries, minKey)
    {
      hide *;
      if IsEmpty() || FirstKey() >= minKey {
        FirstIsCut(minKey);
        return startIndex;
      }
      SearchedFrom(minKey);
      var keyIndex := BinarySearch(keys, minKey, startIndex, cursor);
      i := IndexOf(keyIndex.value);
    }

    /** What the search comes to when it is not cut short at the first key. */
    lemma SearchedFrom(minKey: int)
      requires Valid() && !IsEmpty() && FirstKey() < minKey
      ensures startIndex <= cursor <= keys.Length
      ensures minKey <= LastKey() ==> SearchHolds(minKey)
      ensures var i := IndexOf(Search(keys[..], minKey, startIndex, cursor, 0));
              && 0 <= i
              && (SearchHolds(minKey) ==> startIndex <= i <= cursor && CutAt(entries, minKey, i - startIndex))
              && (!SearchHolds(minKey) ==> i == cursor + 1)
              && (minKey <= LastKey() ==> i == startIndex + ChunkLayout.CutIndex(entries, minKey))
    {
      assert startIndex <= cursor <= keys.Length;
      hide *;
      SearchedIndex(minKey);
      if minKey <= LastKey() {
        SearchedCutIndex(minKey);
      }
    }

    lemma FirstIsCut(minKey: int)
      requires Valid() && (IsEmpty() || FirstKey() >= minKey)
      ensures startIndex <= cursor && SearchHolds(minKey) && CutAt(entries, minKey, 0)
      ensures ChunkLayout.CutIndex(entries, minKey) == 0
    {
    }

    /** The index depends on the entries alone: not on where they lie, nor on the cells around them. */
    lemma SearchedCutIndex(minKey: int)
      requires Valid() && !IsEmpty() && FirstKey() < minKey <= LastKey()
      ensures IndexOf(Search(keys[..], minKey, startIndex, cursor, 0)) ==
              startIndex + ChunkLayout.CutIndex(entries, minKey)
    {
      hide WellFormed, CutAt, Search, IndexOf, ChunkLayout.CutIndex, ChunkLayout.CellsOf;
      SearchedLive(minKey);
      ChunkLayout.MovedCut(keys[..startIndex], entries, minKey);
    }

    lemma SearchedLive(minKey: int)
      requires Valid() && !IsEmpty() && FirstKey() < minKey <= LastKey()
      ensures startIndex <= |keys[..]| && |keys[..startIndex]| == startIndex
      ensures Search(keys[..], minKey, startIndex, cursor, 0) ==
              Search(keys[..startIndex] + ChunkLayout.CellsOf(entries), minKey, startIndex, cursor, startIndex)
    {
      LiveCellsSorted();
      var live := keys[..startIndex] + ChunkLayout.CellsOf(entries);
      forall i | 0 <= i < cursor
        ensures keys[..][i] == live[i]
      {
        assert i >= startIndex ==> keys[startIndex + (i - startIndex)] == Key(entries[i - startIndex].ts);
      }
      assert keys[..][..cursor] == live[..cursor];
      hide ChunkLayout.CellsOf, Sorted;
      DeadCellNotRead(keys[..], live, minKey, startIndex, cursor, startIndex);
    }

    lemma SearchedIndex(minKey: int)
      requires Valid() && !IsEmpty()
      ensures minKey <= LastKey() ==> SearchHolds(minKey)
      ensures var i := IndexOf(Search(keys[..], minKey, startIndex, cursor, 0));
              if SearchHolds(minKey) then startIndex <= i <= cursor && CutAt(entries, minKey, i - startIndex)
              else i == cursor + 1
    {
      hide CutAt, Sorted;
      if minKey <= LastKey() {
        SearchedWithin(minKey);
      } else {
        hide WellFormed;
        PastEnd(minKey);
        SearchPastEnd(keys[..], minKey, startIndex, cursor, 0);
      }
    }

    lemma SearchedWithin(minKey: int)
      requires Valid() && !IsEmpty() && minKey <= LastKey()
      ensures var i := IndexOf(Search(keys[..], minKey, startIndex, cursor, 0));
              startIndex <= i <= cursor && CutAt(entries, minKey, i - startIndex)
    {
      hide CutAt, Sorted;
      LiveCellsSorted();
      SearchLive(keys[..], minKey, startIndex, cursor, 0);
      IndexIsCut(minKey, Search(keys[..], minKey, startIndex, cursor, 0));
    }

    lemma PastEnd(minKey: int)
      requires Valid() && !IsEmpty() && minKey > LastKey()
      ensures SortedCells(keys[..], startIndex, cursor)
      ensures forall i :: startIndex <= i < cursor ==> keys[..][i].key < minKey
      ensures CutAt(entries, minKey, cursor - startIndex)
    {
      LiveCellsSorted();
      forall i | startIndex <= i < cursor
        ensures keys[..][i].key < minKey
      {
        assert keys[startIndex + (i - startIndex)] == Key(entries[i - startIndex].ts);
      }
    }

    /** The same search bounded by the last live cell, for a key that may lie above all of them. */
    method FindEnd(endKey: int) returns (i: nat)
      requires Valid()
      ensures startIndex <= i <= cursor && CutAt(entries, endKey, i - startIndex)
    {
      if IsEmpty() || FirstKey() >= endKey {
        return startIndex;
      }
      hide CutAt, Sorted;
      LiveCellsSorted();
      var keyIndex := BinarySearch(keys, endKey, startIndex, cursor - 1);
      SearchSorted(keys[..], endKey, startIndex, cursor - 1, 0);
      IndexIsCut(endKey, keyIndex.value);
      i := IndexOf(keyIndex.value);
    }

    /** The inner loop of `range`. */
    method Read(from: nat, endKey: int) returns (result: seq<Entry<V>>)
      requires Valid() && startIndex <= from <= cursor
      ensures result == UpTo(entries[from - startIndex..], endKey)
    {
      result := [];
      var i := from;
      while i < cursor
        invariant from <= i <= cursor
        invariant result + UpTo(entries[i - startIndex..], endKey) == UpTo(entries[from - startIndex..], endKey)
      {
        ghost var tail := entries[i - startIndex..];
        assert tail[1..] == entries[i + 1 - startIndex..];
        var key := keys[startIndex + (i - startIndex)].key;
        if key > endKey {
          break;
        }
        result := result + [Entry(key, values[startIndex + (i - startIndex)])];
        i := i + 1;
      }
    }

    /** The inner loop of `getValues`, with its slice for whole chunks. */
    method ReadValues(from: nat, endKey: int) returns (result: seq<V>)
      requires Valid() && !IsEmpty() && startIndex <= from <= cursor
      ensures result == Values(UpTo(entries[from - startIndex..], endKey))
    {
      hide UpTo;
      if endKey >= LastKey() && from == 0 {
        result := values[0..cursor - startIndex];
        UpToAll(entries, endKey);
        assert entries[0..] == entries;
        forall i | 0 <= i < |entries| ensures result[i] == entries[i].val {
          assert values[startIndex + i] == entries[i].val;
        }
      } else {
        var es := Read(from, endKey);
        result := Values(es);
      }
    }

    method CopyValues(dest: array<V>, count: nat, valueIndex: nat)
      requires Valid() && dest != values && dest as object != keys && valueIndex + |entries| <= dest.Length &&
               count == |entries|
      modifies dest
      ensures dest[..] == old(dest[..valueIndex]) + Values(entries) + old(dest[valueIndex + |entries|..])
    {
      var i, n := startIndex, valueIndex;
      while i < cursor && n - valueIndex < count
        invariant startIndex <= i <= cursor && n - valueIndex == i - startIndex
        invariant Valid()
        invariant forall j :: 0 <= j < dest.Length ==>
          dest[j] == if valueIndex <= j < n then entries[j - valueIndex].val else old(dest[j])
      {
        assert values[startIndex + (i - startIndex)] == entries[i - startIndex].val;
        dest[n] := values[i];
        n := n + 1;
        i := i + 1;
      }
    }

    /** Drops what lies before `i`; the chunk does not accept as many entries again. */
    method CutFront(i: nat)
      requires Valid() && startIndex <= i <= cursor
      modifies this
      ensures Valid() && entries == old(entries)[i - old(startIndex)..]
      ensures BlockOf(this) == ChunkLayout.CutBlock(old(BlockOf(this)), i - old(startIndex))
    {
      entries := entries[i - startIndex..];
      if startIndex != i {
        startIndex := i;
        chunkSize := cursor - startIndex;
      }
    }

    method CutBack(i: nat)
      requires Valid() && startIndex <= i <= cursor
      modifies this
      ensures Valid() && entries == old(entries)[..i - old(startIndex)]
    {
      entries := entries[..i - startIndex];
      cursor := i;
    }

    /** The cells that count as live. */
    ghost function LiveCells(): (cells: seq<Cell>)
      requires startIndex <= cursor
      reads this`startIndex, this`cursor, keys
      ensures |cells| == cursor - startIndex
      ensures forall i :: 0 <= i < |cells| ==> cells[i] == Searching.Read(keys[..], startIndex + i)
    {
      LiveFrom(keys[..], startIndex, cursor - startIndex)
    }

    /** What the two-argument trim does to the chunk at which it stops: the live cells are what lies
        below `endKey` if and only if the search stays within them. Otherwise the first dead cell
        joins them, be it a hole or an entry that was removed before. */
    method CutBackAsCoded(endKey: int)
      requires Valid() && !IsEmpty() && FirstKey() < endKey
      modifies this`cursor, this`entries
      ensures startIndex <= cursor && (LiveCells() <= old(LiveCells()) <==> old(SearchHolds(endKey)))
      ensures old(SearchHolds(endKey)) ==>
                && Valid() && entries == old(entries)[..cursor - startIndex]
                && CutAt(old(entries), endKey, cursor - startIndex)
      ensures !old(SearchHolds(endKey)) ==>
                LiveCells() == old(LiveCells()) + [Searching.Read(keys[..], old(cursor))] && cursor == old(cursor) + 1
    {
      hide ChunkLayout.CutIndex, SearchHolds, CutAt, LiveFrom, Sorted;
      ghost var holds := SearchHolds(endKey);
      var i := FindFirstIndexOfGreaterEqualElements(endKey);
      if holds {
        LivePrefix(keys[..], startIndex, i - startIndex, cursor - startIndex);
        SortedHead(entries, i - startIndex);
      } else {
        LiveMore(keys[..], startIndex, cursor - startIndex);
      }
      entries := if holds then entries[..i - startIndex] else entries;
      cursor := i;
    }
  }

  ghost function LiveFrom(cells: seq<Cell>, start: nat, n: nat): (live: seq<Cell>)
    ensures |live| == n && forall i :: 0 <= i < n ==> live[i] == Searching.Read(cells, start + i)
  {
    seq(n, i requires 0 <= i < n => Searching.Read(cells, start + i))
  }

  lemma LivePrefix(cells: seq<Cell>, start: nat, m: nat, n: nat)
    requires m <= n
    ensures LiveFrom(cells, start, m) <= LiveFrom(cells, start, n)
  {
  }

  lemma LiveMore(cells: seq<Cell>, start: nat, n: nat)
    ensures LiveFrom(cells, start, n + 1) == LiveFrom(cells, start, n) + [Searching.Read(cells, start + n)]
  {
  }

  lemma SortedHead<V>(es: seq<Entry<V>>, n: nat)
    requires Sorted(es) && n <= |es|
    ensures Sorted(es[..n])
  {
  }

  // ---------------------------------------------------------------- sequences of chunks

  /** A chunk as a value: its entries, and when it counts as full. */
  ghost function BlockOf<V(0)>(c: Chunk<V>): ChunkLayout.Block<V>
    reads c
  {
    ChunkLayout.Block(c.entries, c.chunkSize)
  }

  ghost function BlocksOf<V(0)>(cs: seq<Chunk<V>>): (bs: seq<ChunkLayout.Block<V>>)
    reads cs
  {
    if cs == [] then [] else BlocksOf(cs[..|cs| - 1]) + [BlockOf(cs[|cs| - 1])]
  }

  lemma {:induction false} BlocksAt<V(0)>(cs: seq<Chunk<V>>)
    ensures |BlocksOf(cs)| == |cs| && forall i :: 0 <= i < |cs| ==> BlocksOf(cs)[i] == BlockOf(cs[i])
  {
    if cs != [] {
      BlocksAt(cs[..|cs| - 1]);
    }
  }

  lemma BlocksLast<V(0)>(cs: seq<Chunk<V>>)
    requires cs != []
    ensures BlocksOf(cs) == BlocksOf(cs[..|cs| - 1]) + [BlockOf(cs[|cs| - 1])]
  {
  }

  lemma BlocksFirst<V(0)>(cs: seq<Chunk<V>>)
    requires cs != []
    ensures BlocksOf(cs) == [BlockOf(cs[0])] + BlocksOf(cs[1..])
  {
    BlocksAt(cs);
    BlocksAt(cs[1..]);
  }

  /** What a documented put does, in terms of the chunks. */
  lemma PutShape<V(0)>(cs: seq<Chunk<V>>, e: Entry<V>, size: nat)
    requires forall c :: c in cs ==> c.Valid() && !c.IsEmpty()
    ensures ChunkLayout.PutBlocks(BlocksOf(cs), e, size) ==
            if cs == [] then BlocksOf(cs) + [ChunkLayout.Block([e], size)]
            else
              var last := cs[|cs| - 1];
              assert last in cs;
              if last.LastKey() > e.ts then BlocksOf(cs)
              else if last.IsFull() then BlocksOf(cs) + [ChunkLayout.Block([e], size)]
              else BlocksOf(cs[..|cs| - 1]) + [ChunkLayout.Appended(BlockOf(last), e)]
  {
    if cs != [] {
      var last, front := cs[|cs| - 1], cs[..|cs| - 1];
      BlocksLast(cs);
      assert last in cs;
      assert last.LastKey() == ChunkLayout.LastKey(BlockOf(last));
      assert last.IsFull() <==> |last.entries| == last.chunkSize;
      hide BlocksOf;
      PutOnLast(BlocksOf(front), BlockOf(last), e, size);
    }
  }

  lemma PutOnLast<V>(front: seq<ChunkLayout.Block<V>>, b: ChunkLayout.Block<V>, e: Entry<V>, size: nat)
    requires b.entries != []
    ensures ChunkLayout.PutBlocks(front + [b], e, size) ==
            if ChunkLayout.LastKey(b) > e.ts then front + [b]
            else if |b.entries| == b.room then front + [b] + [ChunkLayout.Block([e], size)]
            else front + [ChunkLayout.Appended(b, e)]
  {
    assert (front + [b])[..|front|] == front;
  }

  ghost function Flatten<V(0)>(cs: seq<Chunk<V>>): seq<Entry<V>>
    reads cs
  {
    if cs == [] then [] else cs[0].entries + Flatten(cs[1..])
  }

  lemma {:induction false} FlattenAppend<V(0)>(a: seq<Chunk<V>>, b: seq<Chunk<V>>)
    ensures Flatten(a + b) == Flatten(a) + Flatten(b)
    decreases |a|
  {
    if a == [] {
      assert a + b == b;
    } else {
      assert (a + b)[1..] == a[1..] + b;
      FlattenAppend(a[1..], b);
    }
  }

  lemma FlattenFirst<V(0)>(cs: seq<Chunk<V>>)
    ensures Flatten(cs) == if cs == [] then [] else cs[0].entries + Flatten(cs[1..])
  {
  }

  lemma FlattenLast<V(0)>(cs: seq<Chunk<V>>)
    requires cs != []
    ensures Flatten(cs) == Flatten(cs[..|cs| - 1]) + cs[|cs| - 1].entries
  {
    var last := cs[|cs| - 1];
    assert cs == cs[..|cs| - 1] + [last];
    FlattenAppend(cs[..|cs| - 1], [last]);
    assert Flatten([last]) == last.entries + Flatten([last][1..]);
  }

  /** No chunk occurs twice and no two chunks share an array. */
  ghost predicate Unshared<V(0)>(cs: seq<Chunk<V>>) {
    forall i, j :: 0 <= i < j < |cs| ==> cs[i].Parts() !! cs[j].Parts()
  }

  ghost predicate Apart<V(0)>(cs: seq<Chunk<V>>, c: Chunk<V>) {
    forall d :: d in cs ==> d.Parts() !! c.Parts()
  }

  lemma UnsharedMiddle<V(0)>(a: seq<Chunk<V>>, c: Chunk<V>, b: seq<Chunk<V>>)
    ensures Unshared(a + [c] + b) <==> Unshared(a + b) && Apart(a + b, c)
  {
    var all, rest := a + [c] + b, a + b;
    assert all[|a|] == c;
    forall i | 0 <= i < |rest| ensures rest[i] == all[if i < |a| then i else i + 1] {
    }
    if Unshared(all) {
      forall i, j | 0 <= i < j < |rest| ensures rest[i].Parts() !! rest[j].Parts() {
        assert rest[i] == all[if i < |a| then i else i + 1] && rest[j] == all[if j < |a| then j else j + 1];
      }
      forall i | 0 <= i < |rest| ensures rest[i].Parts() !! c.Parts() {
        assert rest[i] == all[if i < |a| then i else i + 1];
      }
    }
    if Unshared(rest) && Apart(rest, c) {
      forall i, j | 0 <= i < j < |all| ensures all[i].Parts() !! all[j].Parts() {
        if i != |a| {
          assert all[i] == rest[if i < |a| then i else i - 1];
        }
        if j != |a| {
          assert all[j] == rest[if j < |a| then j else j - 1];
        }
      }
    }
  }

  lemma UnsharedLast<V(0)>(cs: seq<Chunk<V>>, c: Chunk<V>)
    ensures Unshared(cs + [c]) <==> Unshared(cs) && Apart(cs, c)
  {
    UnsharedMiddle(cs, c, []);
    assert cs + [c] + [] == cs + [c] && cs + [] == cs;
  }

  // ---------------------------------------------------------------- reading chunk by chunk

  /** After the chunks that hold `prefix`: nothing was found yet, or `result` was read from `p` on. */
  ghost predicate Reading<V>(prefix: seq<Entry<V>>, lo: int, hi: int, found: bool, p: nat, result: seq<Entry<V>>) {
    if found then p <= |prefix| && result == UpTo(prefix[p..], hi)
    else result == [] && forall i :: 0 <= i < |prefix| ==> prefix[i].ts < lo
  }

  lemma StartsReading<V>(lo: int, hi: int)
    ensures Reading<V>([], lo, hi, false, 0, [])
  {
  }

  lemma SkipChunk<V>(before: seq<Entry<V>>, es: seq<Entry<V>>, lo: int, hi: int, p: nat, result: seq<Entry<V>>)
    requires Reading(before, lo, hi, false, p, result)
    requires Sorted(es) && es != [] && es[|es| - 1].ts < lo
    ensures Reading(before + es, lo, hi, false, p, result)
  {
  }

  lemma StartReading<V>(before: seq<Entry<V>>, es: seq<Entry<V>>, after: seq<Entry<V>>, lo: int, q: nat)
    requires forall i :: 0 <= i < |before| ==> before[i].ts < lo
    requires Sorted(before + es + after) && CutAt(es, lo, q) && es != [] && es[|es| - 1].ts >= lo
    ensures CutAt(before + es + after, lo, |before| + q)
  {
    assert before + es + after == before + (es + after);
    SortedParts(before, es + after);
    CutInMiddle(before, es, after, lo, q);
  }

  lemma ReadOn<V>(before: seq<Entry<V>>, es: seq<Entry<V>>, after: seq<Entry<V>>, lo: int, hi: int, found: bool,
                  p: nat, q: nat, result: seq<Entry<V>>)
    requires Sorted(before + es + after) && q <= |es|
    requires Reading(before, lo, hi, found, p, result) && (if found then q == 0 else p == |before| + q)
    ensures Reading(before + es, lo, hi, true, p, result + UpTo(es[q..], hi))
  {
    SortedParts(before + es, after);
    if found {
      assert (before + es)[p..] == before[p..] + es && es[q..] == es;
      assert before + es == before[..p] + (before[p..] + es);
      SortedParts(before[..p], before[p..] + es);
      UpToAppend(before[p..], es, hi);
    } else {
      assert (before + es)[p..] == es[q..];
    }
  }

  lemma NextChunk<V>(before: seq<Entry<V>>, es: seq<Entry<V>>, after: seq<Entry<V>>, lo: int, hi: int,
                     found: bool, p: nat, q: nat, result: seq<Entry<V>>) returns (p': nat)
    requires Sorted(before + es + after) && es != [] && Reading(before, lo, hi, found, p, result)
    requires if found then q == 0 && CutAt(before + es + after, lo, p)
             else CutAt(es, lo, q) && es[|es| - 1].ts >= lo
    ensures CutAt(before + es + after, lo, p')
    ensures q <= |es| && Reading(before + es, lo, hi, true, p', result + UpTo(es[q..], hi))
  {
    p' := p;
    if !found {
      StartReading(before, es, after, lo, q);
      p' := |before| + q;
    }
    ReadOn(before, es, after, lo, hi, found, p', q, result);
  }

  lemma DoneReading<V>(es: seq<Entry<V>>, lo: int, hi: int, found: bool, p: nat, result: seq<Entry<V>>)
    requires Reading(es, lo, hi, found, p, result) && (found ==> CutAt(es, lo, p))
    ensures IsRange(es, lo, hi, result)
  {
    if !found {
      assert CutAt(es, lo, |es|) && es[|es|..] == [];
    }
  }

  lemma UnsharedSuffix<V(0)>(a: seq<Chunk<V>>, b: seq<Chunk<V>>)
    requires Unshared(a + b)
    ensures Unshared(b)
  {
    var all := a + b;
    forall i, j | 0 <= i < j < |b| ensures b[i].Parts() !! b[j].Parts() {
      assert all[|a| + i] == b[i] && all[|a| + j] == b[j];
    }
  }

  lemma BlocksNone<V(0)>(cs: seq<Chunk<V>>)
    requires cs == []
    ensures BlocksOf(cs) == []
  {
  }

  /** The first `n` chunks lie below the key. */
  ghost predicate AllBelow<V>(bs: seq<ChunkLayout.Block<V>>, key: int, n: nat) {
    n <= |bs| && forall i :: 0 <= i < n ==> bs[i].entries != [] && ChunkLayout.LastKey(bs[i]) < key
  }

  lemma NoneBelow<V>(bs: seq<ChunkLayout.Block<V>>, key: int)
    ensures AllBelow(bs, key, 0) && bs == bs[0..]
  {
  }

  lemma OneMoreBelow<V>(bs: seq<ChunkLayout.Block<V>>, key: int, n: nat, b: ChunkLayout.Block<V>,
                        rest: seq<ChunkLayout.Block<V>>)
    requires AllBelow(bs, key, n) && n <= |bs| && bs[n..] == [b] + rest
    requires b.entries != [] && ChunkLayout.LastKey(b) < key
    ensures n < |bs| && AllBelow(bs, key, n + 1) && bs[n + 1..] == rest
  {
    assert bs[n] == ([b] + rest)[0] && bs[n + 1..] == ([b] + rest)[1..];
  }

  lemma TrimShape<V>(bs: seq<ChunkLayout.Block<V>>, key: int, n: nat, b: ChunkLayout.Block<V>,
                     rest: seq<ChunkLayout.Block<V>>)
    requires AllBelow(bs, key, n) && n <= |bs| && bs[n..] == [b] + rest
    requires b.entries != [] && ChunkLayout.LastKey(b) >= key
    ensures ChunkLayout.TrimBlocks(bs, key) ==
            [ChunkLayout.CutBlock(b, ChunkLayout.CutIndex(b.entries, key))] + rest
  {
    assert bs[n] == ([b] + rest)[0] && bs[n + 1..] == ([b] + rest)[1..];
    ChunkLayout.DropCountIs(bs, key, n);
    hide ChunkLayout.CutIndex;
  }

  lemma AllDropped<V>(bs: seq<ChunkLayout.Block<V>>, key: int, n: nat)
    requires AllBelow(bs, key, n) && n <= |bs| && bs[n..] == []
    ensures ChunkLayout.TrimBlocks(bs, key) == []
  {
    ChunkLayout.DropCountIs(bs, key, n);
  }

  lemma LiveIsEntries<V(0)>(c: Chunk<V>)
    requires c.Valid()
    ensures c.LiveCells() == ChunkLayout.CellsOf(c.entries)
  {
    forall i | 0 <= i < |c.entries|
      ensures c.LiveCells()[i] == ChunkLayout.CellsOf(c.entries)[i]
    {
      assert c.keys[c.startIndex + i] == Key(c.entries[i].ts);
    }
  }

  lemma CellsAppend<V>(a: seq<Entry<V>>, b: seq<Entry<V>>)
    ensures ChunkLayout.CellsOf(a + b) == ChunkLayout.CellsOf(a) + ChunkLayout.CellsOf(b)
  {
  }

  lemma HeadCells<V>(es: seq<Entry<V>>, key: int, left: seq<Entry<V>>)
    requires IsHead(es, key, left)
    ensures ChunkLayout.CellsOf(left) <= ChunkLayout.CellsOf(es)
  {
  }

  /** What should be left, and one dead cell after it. */
  ghost predicate DeadEnds<V>(es: seq<Entry<V>>, key: int, live: seq<Cell>, dead: Cell) {
    && 0 < |live| <= |es| + 1 && CutAt(es, key, |live| - 1)
    && live == ChunkLayout.CellsOf(es[..|live| - 1]) + [dead]
    && (dead.Key? ==> dead.key < key)
  }

  /** A dead cell that joins the live ones is neither the key after them nor any key that was dropped. */
  lemma DeadJoins<V>(front: seq<Entry<V>>, es: seq<Entry<V>>, dropped: seq<Entry<V>>, dead: Cell, key: int)
    requires forall i :: 0 <= i < |dropped| ==> dropped[i].ts >= key
    requires Sorted(front + es) && es != [] && es[|es| - 1].ts < key && (dead.Key? ==> dead.key < key)
    ensures var live := ChunkLayout.CellsOf(front) + (ChunkLayout.CellsOf(es) + [dead]);
            && !(live <= ChunkLayout.CellsOf(front + es + dropped))
            && DeadEnds(front + es + dropped, key, live, dead)
  {
    var kept := front + es;
    var live, all, n := ChunkLayout.CellsOf(front) + (ChunkLayout.CellsOf(es) + [dead]), kept + dropped, |kept|;
    CellsAppend(front, es);
    assert live == ChunkLayout.CellsOf(kept) + [dead] && all[..n] == kept;
    forall i | 0 <= i < n
      ensures all[i].ts < key
    {
      assert all[i] == kept[i] && kept[n - 1] == es[|es| - 1];
    }
    assert live[n] == dead;
    assert n < |all| ==> all[n] == dropped[0] && ChunkLayout.CellsOf(all)[n] == Key(dropped[0].ts);
  }

  lemma CountsEntries<V(0)>(c: Chunk<V>)
    requires c.Valid()
    ensures |c.entries| == c.cursor - c.startIndex
  {
  }

  lemma DroppedFront<V>(es: seq<Entry<V>>, rest: seq<Entry<V>>, q: nat)
    requires q <= |es| && Sorted(es + rest)
    ensures (es + rest)[q..] == es[q..] + rest && Sorted(es[q..] + rest)
  {
    assert es + rest == es[..q] + (es[q..] + rest);
    SortedParts(es[..q], es[q..] + rest);
  }

  lemma ValuesNone<V>()
    ensures Values<V>([]) == []
  {
  }

  class Store<V(0)> {
    const defaultChunkSize: nat
    var chunksCache: seq<Chunk<V>>
    var chunks: seq<Chunk<V>>
    ghost var log: seq<Entry<V>>
    ghost var Repr: set<object>

    ghost predicate Owns(cs: seq<Chunk<V>>)
      reads this`Repr
    {
      forall c :: c in cs ==>
        c in Repr && c.keys in Repr && c.values in Repr && this !in c.Parts() && c.WellFormed() &&
        c.keys.Length == defaultChunkSize
    }

    /** No chunk is in both deques, none occurs twice, and no two share an array. */
    ghost predicate Layout()
      reads this`Repr, this`chunks, this`chunksCache
    {
      && this in Repr
      && defaultChunkSize > 0
      && Owns(chunks) && Owns(chunksCache)
      && Unshared(chunks + chunksCache)
      && |chunksCache| <= ChunkLayout.MAX_CACHE_SIZE
    }

    lemma LastIsApart(chunk: Chunk<V>)
      requires Layout() && chunks != [] && chunk == chunks[|chunks| - 1]
      ensures chunk in chunks && chunk in Repr && chunk.keys in Repr && chunk.values in Repr
      ensures forall c :: c in chunks[..|chunks| - 1] ==> c in chunks && c.Parts() !! chunk.Parts()
      ensures forall c :: c in chunks ==> c in chunks[..|chunks| - 1] || c == chunk
    {
      var front := chunks[..|chunks| - 1];
      assert chunks + chunksCache == front + [chunk] + chunksCache;
      UnsharedMiddle(front, chunk, chunksCache);
      assert forall c :: c in front ==> c in front + chunksCache;
    }

    ghost predicate Valid()
      reads this, Repr
      ensures Valid() ==> this in Repr
    {
      && Layout()
      && (forall c :: c in chunks ==> c.Valid() && !c.IsEmpty())
      && log == Flatten(chunks)
      && Sorted(log)
    }

    /** Nothing was dropped or cut yet: the cache is empty, and no dead cell holds a key. */
    ghost predicate Untouched()
      requires Layout()
      reads this, Repr
    {
      chunksCache == [] && forall c :: c in chunks ==> c.Untouched()
    }

    constructor (chunkSize: nat)
      requires chunkSize > 0
      ensures Valid() && Untouched() && fresh(Repr) && log == []
      ensures defaultChunkSize == chunkSize && BlocksOf(chunks) == []
    {
      defaultChunkSize := chunkSize;
      chunksCache, chunks := [], [];
      log := [];
      Repr := {this};
    }

    lemma EmptyIffNoChunks()
      requires Valid()
      ensures log == [] <==> chunks == []
      ensures chunks != [] ==> log[|log| - 1].ts == chunks[|chunks| - 1].LastKey()
      ensures chunks != [] ==> log[0].ts == chunks[0].FirstKey()
    {
      if chunks != [] {
        FlattenLast(chunks);
        assert chunks[0] in chunks && chunks[|chunks| - 1] in chunks;
      }
    }

    /** Pulls a chunk out of the cache, or makes a new one. */
    method AllocateChunk() returns (chunk: Chunk<V>)
      requires Valid()
      modifies Repr
      ensures Valid() && fresh(Repr - old(Repr))
      ensures chunks == old(chunks) && log == old(log)
      ensures Apart(chunks + chunksCache, chunk) && Owns([chunk])
      ensures chunk.Valid() && chunk.entries == [] && !chunk.IsFull() && chunk.chunkSize == defaultChunkSize
      ensures BlocksOf(chunks) == old(BlocksOf(chunks))
      ensures old(Untouched()) ==> Untouched() && chunk.Untouched()
    {
      hide Flatten, Sorted, Unshared, BlocksOf;
      if chunksCache == [] {
        chunk := new Chunk(defaultChunkSize);
        assert forall d :: d in chunks + chunksCache ==> d in chunks || d in chunksCache;
        Repr := Repr + chunk.Parts();
      } else {
        chunk := TakeCached();
      }
    }

    method TakeCached() returns (chunk: Chunk<V>)
      requires Valid() && chunksCache != []
      modifies Repr
      ensures Valid() && Repr == old(Repr)
      ensures chunks == old(chunks) && log == old(log)
      ensures Apart(chunks + chunksCache, chunk) && Owns([chunk])
      ensures chunk.Valid() && chunk.entries == [] && !chunk.IsFull() && chunk.chunkSize == defaultChunkSize
      ensures BlocksOf(chunks) == old(BlocksOf(chunks))
    {
      hide Flatten, Sorted, Unshared, BlocksOf;
      var n := |chunksCache| - 1;
      chunk := chunksCache[n];
      assert chunks + chunksCache == chunks + chunksCache[..n] + [chunk];
      UnsharedLast(chunks + chunksCache[..n], chunk);
      assert forall d :: d in chunks ==> d in chunks + chunksCache[..n] && d != chunk;
      chunksCache := chunksCache[..n];
      assert Layout();
      chunk.Reset();
      assert forall d :: d in chunks ==> d.Valid() && !d.IsEmpty();
    }

    method FreeChunk(chunk: Chunk<V>)
      requires Valid() && Owns([chunk]) && Apart(chunks + chunksCache, chunk)
      modifies this`chunksCache
      ensures Valid()
    {
      if |chunksCache| < ChunkLayout.MAX_CACHE_SIZE {
        UnsharedLast(chunks + chunksCache, chunk);
        assert chunks + (chunksCache + [chunk]) == chunks + chunksCache + [chunk];
        chunksCache := chunksCache + [chunk];
      }
    }

    /** Appends to the last chunk, which may still be empty. */
    method AppendToLast(chunk: Chunk<V>, key: int, value: V)
      requires Layout() && chunks != [] && chunk == chunks[|chunks| - 1]
      requires forall c :: c in chunks ==> c.Valid() && (c == chunk || !c.IsEmpty())
      requires log == Flatten(chunks) && Sorted(log) && (log == [] || log[|log| - 1].ts <= key)
      requires !chunk.IsFull()
      modifies Repr
      ensures Valid() && Repr == old(Repr) && log == old(log) + [Entry(key, value)]
      ensures chunks == old(chunks)
      ensures BlocksOf(chunks) ==
              old(BlocksOf(chunks[..|chunks| - 1])) + [ChunkLayout.Appended(old(BlockOf(chunk)), Entry(key, value))]
      ensures old(Untouched()) ==> Untouched()
    {
      hide Flatten, Sorted, Unshared, BlocksOf;
      LastIsApart(chunk);
      FlattenLast(chunks);
      SortedAppend(log, Entry(key, value));
      chunk.Append(key, value);
      log := log + [Entry(key, value)];
      FlattenLast(chunks);
      BlocksLast(chunks);
    }

    /** Pushes an empty chunk. */
    method PushChunk() returns (chunk: Chunk<V>)
      requires Valid()
      modifies Repr
      ensures Layout() && fresh(Repr - old(Repr)) && log == old(log) == Flatten(chunks)
      ensures chunks == old(chunks) + [chunk] && chunk.Valid() && !chunk.IsFull()
      ensures BlocksOf(old(chunks)) == old(BlocksOf(chunks)) &&
              BlockOf(chunk) == ChunkLayout.Block([], defaultChunkSize)
      ensures forall c :: c in chunks ==> c.Valid() && (c == chunk || !c.IsEmpty())
      ensures old(Untouched()) ==> Untouched()
    {
      hide Flatten, Sorted, Unshared, BlocksOf;
      chunk := AllocateChunk();
      UnsharedMiddle(chunks, chunk, chunksCache);
      chunks := chunks + [chunk];
      assert chunks[..|chunks| - 1] == old(chunks);
      FlattenLast(chunks);
    }

    method Put(key: int, value: V) returns (ok: bool)
      requires Valid()
      modifies Repr
      ensures Valid() && fresh(Repr - old(Repr))
      ensures ok <==> old(log) == [] || old(log)[|old(log)| - 1].ts <= key
      ensures log == if ok then old(log) + [Entry(key, value)] else old(log)
      ensures BlocksOf(chunks) == ChunkLayout.PutBlocks(old(BlocksOf(chunks)), Entry(key, value), defaultChunkSize)
      ensures old(Untouched()) ==> Untouched()
    {
      PutShape(chunks, Entry(key, value), defaultChunkSize);
      hide Flatten, Sorted, Unshared, Untouched, BlocksOf, ChunkLayout.PutBlocks;
      EmptyIffNoChunks();
      if chunks != [] && chunks[|chunks| - 1].LastKey() > key {
        return false;
      }
      if chunks == [] || chunks[|chunks| - 1].IsFull() {
        PutInNext(key, value);
      } else {
        AppendToLast(chunks[|chunks| - 1], key, value);
      }
      return true;
    }

    method PutInNext(key: int, value: V)
      requires Valid() && (log == [] || log[|log| - 1].ts <= key)
      modifies Repr
      ensures Valid() && fresh(Repr - old(Repr)) && log == old(log) + [Entry(key, value)]
      ensures BlocksOf(chunks) == old(BlocksOf(chunks)) + [ChunkLayout.Block([Entry(key, value)], defaultChunkSize)]
      ensures old(Untouched()) ==> Untouched()
    {
      hide Flatten, Sorted, Unshared, Untouched, BlocksOf;
      ghost var before := chunks;
      var chunk := PushChunk();
      assert chunks[..|chunks| - 1] == before;
      assert [] + [Entry(key, value)] == [Entry(key, value)];
      AppendToLast(chunk, key, value);
    }

    /** Removes the front chunk into the cache. */
    method ShiftChunk()
      requires Valid() && chunks != []
      modifies this
      ensures Valid() && Repr == old(Repr) && chunks == old(chunks)[1..]
      ensures old(log) == old(chunks[0].entries) + log
    {
      hide Sorted, Unshared;
      var chunk, rest := chunks[0], chunks[1..];
      assert chunks + chunksCache == [] + [chunk] + (rest + chunksCache);
      UnsharedMiddle([], chunk, rest + chunksCache);
      assert [] + (rest + chunksCache) == rest + chunksCache;
      SortedParts(chunk.entries, Flatten(rest));
      chunks := rest;
      log := Flatten(rest);
      FreeChunk(chunk);
    }

    /** Removes the back chunk into the cache. */
    method PopChunk()
      requires Valid() && chunks != []
      modifies this
      ensures Valid() && Repr == old(Repr) && chunks == old(chunks)[..|old(chunks)| - 1]
      ensures old(log) == log + old(chunks[|chunks| - 1].entries)
    {
      hide Sorted, Unshared, Flatten;
      var n := |chunks| - 1;
      var chunk, rest := chunks[n], chunks[..n];
      assert chunks + chunksCache == rest + [chunk] + chunksCache;
      UnsharedMiddle(rest, chunk, chunksCache);
      FlattenLast(chunks);
      SortedParts(Flatten(rest), chunk.entries);
      assert forall c :: c in rest ==> c in chunks;
      assert chunk in chunks;
      chunks := rest;
      log := Flatten(rest);
      FreeChunk(chunk);
    }

    lemma FirstIsApart(chunk: Chunk<V>)
      requires Layout() && chunks != [] && chunk == chunks[0]
      ensures chunk in chunks && chunk in Repr && chunk.keys in Repr && chunk.values in Repr
      ensures forall c :: c in chunks[1..] ==> c in chunks && c.Parts() !! chunk.Parts()
      ensures forall c :: c in chunks ==> c in chunks[1..] || c == chunk
    {
      var rest := chunks[1..];
      assert chunks + chunksCache == [] + [chunk] + (rest + chunksCache);
      UnsharedMiddle([], chunk, rest + chunksCache);
      assert forall c :: c in rest ==> c in [] + (rest + chunksCache);
    }

    method CutChunk(chunk: Chunk<V>, i: nat)
      requires Layout() && chunks != [] && chunk == chunks[0] && chunk in chunks && chunk.Valid()
      requires (forall c :: c in chunks ==> c.Valid() && !c.IsEmpty()) && chunk.startIndex <= i < chunk.cursor
      modifies chunk
      ensures Layout() && log == old(log) && forall c :: c in chunks ==> c.Valid() && !c.IsEmpty()
      ensures chunk.entries == old(chunk.entries)[i - old(chunk.startIndex)..]
      ensures BlockOf(chunk) == ChunkLayout.CutBlock(old(BlockOf(chunk)), i - old(chunk.startIndex))
      ensures Flatten(chunks[1..]) == old(Flatten(chunks[1..])) && BlocksOf(chunks[1..]) == old(BlocksOf(chunks[1..]))
    {
      hide Sorted, Unshared, Flatten, BlocksOf, ChunkLayout.CutBlock, Layout;
      FirstIsApart(chunk);
      assert chunk !in chunks[1..];
      chunk.CutFront(i);
      forall c | c in chunks
        ensures c.Valid() && !c.IsEmpty()
      {
        assert c != chunk ==> c in chunks[1..] && old(c.Valid() && !c.IsEmpty());
      }
    }

    /** Drops entries of the front chunk, but not all of them. */
    method DropFront(i: nat)
      requires Valid() && chunks != [] && chunks[0] in chunks && chunks[0].startIndex <= i < chunks[0].cursor
      modifies Repr
      ensures Valid() && Repr == old(Repr)
      ensures log == old(log)[i - old(chunks[0].startIndex)..]
      ensures BlocksOf(chunks) ==
              [ChunkLayout.CutBlock(old(BlockOf(chunks[0])), i - old(chunks[0].startIndex))] +
                old(BlocksOf(chunks[1..]))
    {
      var chunk := chunks[0];
      hide Sorted, Unshared, Flatten, BlocksOf, BlockOf, ChunkLayout.CutBlock, Chunk.Valid;
      FlattenFirst(chunks);
      ghost var q := i - chunk.startIndex;
      CountsEntries(chunk);
      DroppedFront(chunk.entries, Flatten(chunks[1..]), q);
      ghost var kept := log[q..];
      CutChunk(chunk, i);
      FlattenFirst(chunks);
      BlocksFirst(chunks);
      SetLog(kept);
    }

    ghost method SetLog(kept: seq<Entry<V>>)
      requires Layout() && (forall c :: c in chunks ==> c.Valid() && !c.IsEmpty())
      requires kept == Flatten(chunks) && Sorted(kept)
      modifies this`log
      ensures Valid() && log == kept && BlocksOf(chunks) == old(BlocksOf(chunks))
    {
      hide Sorted, Unshared, Flatten, BlocksOf;
      log := kept;
      assert Layout();
      forall c | c in chunks
        ensures c.Valid() && !c.IsEmpty()
      {
        assert old(c.Valid() && !c.IsEmpty());
      }
    }

    /** Cuts the front chunk, after chunks that lay below `startKey` have been dropped. */
    method CutFrontChunk(startKey: int, ghost dropped: seq<Entry<V>>)
      requires Valid() && chunks != [] && chunks[0] in chunks && chunks[0].LastKey() >= startKey
      requires forall i :: 0 <= i < |dropped| ==> dropped[i].ts < startKey
      modifies Repr
      ensures Valid() && Repr == old(Repr)
      ensures IsCut(dropped + old(log), startKey, log)
      ensures var b := old(BlockOf(chunks[0]));
              BlocksOf(chunks) ==
              [ChunkLayout.CutBlock(b, ChunkLayout.CutIndex(b.entries, startKey))] + old(BlocksOf(chunks[1..]))
    {
      hide Sorted, Unshared, IsCut, Flatten, CutAt, Chunk.SearchHolds, BlocksOf, ChunkLayout.CutBlock;
      hide ChunkLayout.CutIndex;
      var chunk := chunks[0];
      FlattenFirst(chunks);
      ghost var es, rest := chunk.entries, Flatten(chunks[1..]);
      var newStartIndex := chunk.FindFirstIndexOfGreaterEqualElements(startKey);
      ghost var q := newStartIndex - chunk.startIndex;
      CutInMiddle(dropped, es, rest, startKey, q);
      assert log[q..] == es[q..] + rest;
      DropFront(newStartIndex);
    }

    /** Keeps what lies at or above `startKey`: drops whole chunks, and some entries of the next. */
    method Trim(startKey: int)
      requires Valid()
      modifies Repr
      ensures Valid() && Repr == old(Repr)
      ensures IsCut(old(log), startKey, log)
      ensures BlocksOf(chunks) == ChunkLayout.TrimBlocks(old(BlocksOf(chunks)), startKey)
    {
      hide Sorted, Unshared, Flatten, IsCut, BlocksOf, CutAt, ChunkLayout.TrimBlocks, AllBelow, ChunkLayout.CutIndex;
      ghost var bs, dropped: seq<Entry<V>>, n: nat := BlocksOf(chunks), [], 0;
      NoneBelow(bs, startKey);
      while chunks != []
        invariant Valid() && Repr == old(Repr)
        invariant old(log) == dropped + log
        invariant forall i :: 0 <= i < |dropped| ==> dropped[i].ts < startKey
        invariant n <= |bs| && BlocksOf(chunks) == bs[n..] && AllBelow(bs, startKey, n)
        decreases |chunks|
      {
        var chunk := chunks[0];
        assert chunk in chunks;
        BlocksFirst(chunks);
        if chunk.LastKey() < startKey {
          BelowLast(chunk.entries, startKey);
          dropped := dropped + chunk.entries;
          OneMoreBelow(bs, startKey, n, BlockOf(chunk), BlocksOf(chunks[1..]));
          ShiftChunk();
          n := n + 1;
        } else {
          TrimShape(bs, startKey, n, BlockOf(chunk), BlocksOf(chunks[1..]));
          CutFrontChunk(startKey, dropped);
          return;
        }
      }
      CutOff(dropped, startKey);
      EmptyIffNoChunks();
      assert old(log) == dropped;
      BlocksNone(chunks);
      AllDropped(bs, startKey, n);
    }

    /** Drops the chunks at the back that lie at or above `endKey`. */
    method PopAbove(endKey: int) returns (ghost dropped: seq<Entry<V>>)
      requires Valid()
      modifies this
      ensures Valid() && Repr == old(Repr) && chunks <= old(chunks) && old(log) == log + dropped
      ensures forall i :: 0 <= i < |dropped| ==> dropped[i].ts >= endKey
      ensures forall i :: |chunks| <= i < |old(chunks)| ==> old(chunks[i] in chunks && chunks[i].FirstKey() >= endKey)
      ensures chunks != [] ==> chunks[|chunks| - 1] in chunks && chunks[|chunks| - 1].FirstKey() < endKey
      ensures chunks == [] ==> IsHead(old(log), endKey, log)
    {
      hide Sorted, Unshared, Flatten, IsHead;
      dropped := [];
      while chunks != []
        invariant Valid() && Repr == old(Repr) && chunks <= old(chunks)
        invariant old(log) == log + dropped
        invariant forall i :: 0 <= i < |dropped| ==> dropped[i].ts >= endKey
        invariant forall i :: |chunks| <= i < |old(chunks)| ==>
                    old(chunks[i] in chunks && chunks[i].FirstKey() >= endKey)
        decreases |chunks|
      {
        var chunk := chunks[|chunks| - 1];
        assert chunk in chunks;
        if chunk.FirstKey() >= endKey {
          AboveFirst(chunk.entries, endKey);
          dropped := chunk.entries + dropped;
          PopChunk();
        } else {
          return;
        }
      }
      EmptyIffNoChunks();
      HeadOff(dropped, endKey);
      assert old(log) == dropped;
    }

    /** Keeps what lies below `endKey`. */
    method TrimEnd(endKey: int)
      requires Valid()
      modifies Repr
      ensures Valid() && Repr == old(Repr)
      ensures IsHead(old(log), endKey, log)
    {
      hide Sorted, Unshared, Flatten, IsHead;
      ghost var dropped := PopAbove(endKey);
      if chunks != [] {
        CutBackChunk(endKey, dropped);
      }
    }

    method CutBackChunk(endKey: int, ghost dropped: seq<Entry<V>>)
      requires Valid() && chunks != [] && chunks[|chunks| - 1] in chunks && chunks[|chunks| - 1].FirstKey() < endKey
      requires forall i :: 0 <= i < |dropped| ==> dropped[i].ts >= endKey
      modifies Repr
      ensures Valid() && Repr == old(Repr)
      ensures IsHead(old(log) + dropped, endKey, log)
    {
      hide Sorted, Unshared, IsHead, Flatten;
      var chunk := chunks[|chunks| - 1];
      LastIsApart(chunk);
      FlattenLast(chunks);
      ghost var es, front := chunk.entries, Flatten(chunks[..|chunks| - 1]);
      var cursor := chunk.FindEnd(endKey);
      ghost var q := cursor - chunk.startIndex;
      HeadInMiddle(front, es, dropped, endKey, q);
      chunk.CutBack(cursor);
      log := front + es[..q];
      FlattenLast(chunks);
    }

    /** The keys that a reader of the whole store passes, holes included, when at most the last chunk
        is not as it should be. */
    ghost function LiveKeys(): seq<Cell>
      requires chunks != [] ==> chunks[|chunks| - 1].startIndex <= chunks[|chunks| - 1].cursor
      reads this, chunks, if chunks == [] then {} else {chunks[|chunks| - 1].keys}
    {
      if chunks == [] then []
      else
        ChunkLayout.CellsOf(Flatten(chunks[..|chunks| - 1])) + chunks[|chunks| - 1].LiveCells()
    }

    lemma LiveKeysAreLog()
      requires Valid()
      ensures chunks != [] ==> chunks[|chunks| - 1] in chunks && chunks[|chunks| - 1].Valid()
      ensures LiveKeys() == ChunkLayout.CellsOf(log)
    {
      if chunks != [] {
        var last := chunks[|chunks| - 1];
        assert last in chunks;
        FlattenLast(chunks);
        LiveIsEntries(last);
        hide Flatten, ChunkLayout.CellsOf, Chunk.LiveCells;
        CellsAppend(Flatten(chunks[..|chunks| - 1]), last.entries);
      }
    }

    /** What the code does for the upper bound: whole chunks at or above it go, and the last one is cut
        where the search, which passes one past the live cells, lands. The live keys of the store are
        a prefix of what they were, and then the right one, if and only if that search stays within
        the live cells. Otherwise `dead` joins them, a hole or a key below the bound; if nothing was
        stored behind the live cells before, this is what any bound above them does. */
    method TrimEndAsCoded(endKey: int) returns (ghost holds: bool, ghost dead: Cell)
      requires Valid()
      modifies Repr
      ensures Repr == old(Repr) && chunks <= old(chunks)
      ensures forall i :: |chunks| <= i < |old(chunks)| ==> old(chunks[i] in chunks && chunks[i].FirstKey() >= endKey)
      ensures chunks != [] ==>
                var c := chunks[|chunks| - 1];
                old(c in chunks && c.FirstKey() < endKey) && holds == old(c.SearchHolds(endKey)) &&
                c.startIndex <= c.cursor &&
                (old(c.Untouched() && c.LastKey() < endKey) ==> !holds && dead == Hole)
      ensures chunks == [] ==> holds
      ensures holds ==> Valid() && IsHead(old(log), endKey, log)
      ensures holds <==> LiveKeys() <= ChunkLayout.CellsOf(old(log))
      ensures !holds ==> DeadEnds(old(log), endKey, LiveKeys(), dead)
    {
      hide Sorted, Unshared, Flatten, IsHead, Chunk.SearchHolds, DeadEnds, Chunk.Untouched;
      holds, dead := true, Hole;
      ghost var dropped := PopAbove(endKey);
      if chunks == [] {
        assert LiveKeys() == [];
      } else {
        holds, dead := CutLastAsCoded(endKey, dropped);
      }
    }

    method CutLastAsCoded(endKey: int, ghost dropped: seq<Entry<V>>) 
      returns (ghost holds: bool, ghost dead: Cell)
      requires Valid() && chunks != [] && chunks[|chunks| - 1] in chunks && chunks[|chunks| - 1].FirstKey() < endKey
      requires forall i :: 0 <= i < |dropped| ==> dropped[i].ts >= endKey
      modifies Repr
      ensures Repr == old(Repr) && chunks == old(chunks)
      ensures holds == old(chunks[|chunks| - 1].SearchHolds(endKey))
      ensures chunks[|chunks| - 1].startIndex <= chunks[|chunks| - 1].cursor
      ensures holds ==> Valid() && IsHead(old(log) + dropped, endKey, log)
      ensures holds <==> LiveKeys() <= ChunkLayout.CellsOf(old(log) + dropped)
      ensures !holds ==> DeadEnds(old(log) + dropped, endKey, LiveKeys(), dead)
      ensures old(chunks[|chunks| - 1].Untouched() && chunks[|chunks| - 1].LastKey() < endKey) ==>
                !holds && dead == Hole
    {
      hide Sorted, Unshared, IsHead, Flatten, CutAt, ChunkLayout.CellsOf, Chunk.LiveCells, DeadEnds;
      var chunk := chunks[|chunks| - 1];
      LastIsApart(chunk);
      FlattenLast(chunks);
      LiveIsEntries(chunk);
      ghost var es, front := chunk.entries, Flatten(chunks[..|chunks| - 1]);
      holds := chunk.SearchHolds(endKey);
      dead := Searching.Read(chunk.keys[..], chunk.cursor);
      assert chunk.Untouched() ==> dead == Hole;
      assert !holds ==> es[|es| - 1].ts < endKey && (dead.Key? ==> dead.key < endKey);
      assert es[|es| - 1].ts < endKey && dead == Hole ==> !holds;
      hide Chunk.SearchHolds, Chunk.Untouched;
      chunk.CutBackAsCoded(endKey);
      if holds {
        ghost var q := chunk.cursor - chunk.startIndex;
        HeadInMiddle(front, es, dropped, endKey, q);
        log := front + es[..q];
        FlattenLast(chunks);
        LiveKeysAreLog();
        HeadCells(old(log) + dropped, endKey, log);
      } else {
        DeadJoins(front, es, dropped, dead, endKey);
      }
    }

    /** The two-argument form. */
    method TrimBetween(startKey: int, endKey: int)
      requires Valid()
      modifies Repr
      ensures Valid() && Repr == old(Repr)
      ensures exists mid :: IsHead(old(log), endKey, mid) && IsCut(mid, startKey, log)
    {
      hide IsHead, IsCut;
      TrimEnd(endKey);
      Trim(startKey);
    }

    // -------------------------------------------------------------- reading

    method FirstKey() returns (key: Option<int>)
      requires Valid()
      ensures key == if log == [] then None else Some(log[0].ts)
    {
      EmptyIffNoChunks();
      if chunks == [] {
        return None;
      }
      assert chunks[0] in chunks;
      return Some(chunks[0].FirstKey());
    }

    method LastKey() returns (key: Option<int>)
      requires Valid()
      ensures key == if log == [] then None else Some(log[|log| - 1].ts)
    {
      EmptyIffNoChunks();
      if chunks == [] {
        return None;
      }
      assert chunks[|chunks| - 1] in chunks;
      return Some(chunks[|chunks| - 1].LastKey());
    }

    method Size() returns (result: nat)
      requires Valid()
      ensures result == |log|
    {
      hide Sorted, Unshared, Flatten;
      result := 0;
      var k := 0;
      FlattenFirst(chunks[..0]);
      while k < |chunks|
        invariant 0 <= k <= |chunks|
        invariant result == |Flatten(chunks[..k])|
      {
        var chunk := chunks[k];
        assert chunk in chunks;
        assert chunks[..k + 1][..k] == chunks[..k];
        FlattenLast(chunks[..k + 1]);
        result := result + (chunk.cursor - chunk.startIndex);
        k := k + 1;
      }
      assert chunks[..k] == chunks;
    }

    lemma FlattenTo(k: nat)
      requires Valid() && k < |chunks|
      ensures chunks[k] in chunks
      ensures Flatten(chunks[..k + 1]) == Flatten(chunks[..k]) + chunks[k].entries
      ensures log == Flatten(chunks[..k + 1]) + Flatten(chunks[k + 1..])
    {
      var a, b := chunks[..k + 1], chunks[k + 1..];
      assert a[..k] == chunks[..k];
      FlattenLast(a);
      FlattenAppend(a, b);
      assert chunks == a + b;
    }

    lemma FlattenEnds()
      requires Valid()
      ensures Flatten(chunks[..0]) == [] && Flatten(chunks[..|chunks|]) == log
    {
      assert chunks[..|chunks|] == chunks;
    }

    /** Where reading starts in chunk `k`, and what reading it up to `endKey` comes to. */
    method StartIn(k: nat, startKey: int, endKey: int, foundStart: bool, ghost p: nat, ghost read: seq<Entry<V>>)
      returns (startIndex: nat, ghost p': nat)
      requires Valid() && k < |chunks| && chunks[k] in chunks && (foundStart || startKey <= chunks[k].LastKey())
      requires Reading(Flatten(chunks[..k]), startKey, endKey, foundStart, p, read)
      requires foundStart ==> CutAt(log, startKey, p)
      ensures chunks[k].startIndex <= startIndex <= chunks[k].cursor && CutAt(log, startKey, p')
      ensures var more := UpTo(chunks[k].entries[startIndex - chunks[k].startIndex..], endKey);
              Reading(Flatten(chunks[..k + 1]), startKey, endKey, true, p', read + more)
    {
      hide Sorted, Unshared, Flatten, CutAt, UpTo, IsRange, Reading, Values, Chunk.SearchHolds;
      var chunk := chunks[k];
      FlattenTo(k);
      startIndex := chunk.startIndex;
      if !foundStart {
        startIndex := chunk.FindFirstIndexOfGreaterEqualElements(startKey);
      }
      ghost var q := startIndex - chunk.startIndex;
      p' := NextChunk(Flatten(chunks[..k]), chunk.entries, Flatten(chunks[k + 1..]), startKey, endKey, foundStart,
                      p, q, read);
    }

    lemma Skipped(k: nat, startKey: int, endKey: int, p: nat, read: seq<Entry<V>>)
      requires Valid() && k < |chunks| && chunks[k] in chunks && startKey > chunks[k].LastKey()
      requires Reading(Flatten(chunks[..k]), startKey, endKey, false, p, read)
      ensures Reading(Flatten(chunks[..k + 1]), startKey, endKey, false, p, read)
    {
      hide Sorted, Unshared, Flatten, Reading;
      FlattenTo(k);
      SkipChunk(Flatten(chunks[..k]), chunks[k].entries, startKey, endKey, p, read);
    }

    /** Collects the entries with keys from `startKey` (less some at `startKey`) up to `endKey`. */
    method Range(startKey: int, endKey: int) returns (result: seq<Entry<V>>)
      requires Valid()
      ensures IsRange(log, startKey, endKey, result)
    {
      hide Sorted, Unshared, Flatten, CutAt, UpTo, IsRange, Reading;
      result := [];
      var foundStart := false;
      ghost var p: nat := 0;
      var k := 0;
      FlattenEnds();
      StartsReading<V>(startKey, endKey);
      while k < |chunks|
        invariant 0 <= k <= |chunks|
        invariant Reading(Flatten(chunks[..k]), startKey, endKey, foundStart, p, result)
        invariant foundStart ==> CutAt(log, startKey, p)
      {
        var chunk := chunks[k];
        assert chunk in chunks;
        if !foundStart && startKey > chunk.LastKey() {
          Skipped(k, startKey, endKey, p, result);
        } else {
          var startIndex;
          startIndex, p := StartIn(k, startKey, endKey, foundStart, p, result);
          var more := chunk.Read(startIndex, endKey);
          result := result + more;
          foundStart := true;
        }
        k := k + 1;
      }
      DoneReading(log, startKey, endKey, foundStart, p, result);
    }

    /** The same walk, copying values; whole chunks that are read from index 0 are copied at once. */
    method GetValues(startKey: int, endKey: int) returns (result: seq<V>)
      requires Valid()
      ensures exists es :: IsRange(log, startKey, endKey, es) && result == Values(es)
    {
      hide Sorted, Unshared, Flatten, CutAt, UpTo, IsRange, Reading, Values;
      result := [];
      var foundStart := false;
      ghost var p: nat, read: seq<Entry<V>> := 0, [];
      var k := 0;
      FlattenEnds();
      StartsReading<V>(startKey, endKey);
      ValuesNone<V>();
      while k < |chunks|
        invariant 0 <= k <= |chunks|
        invariant Reading(Flatten(chunks[..k]), startKey, endKey, foundStart, p, read)
        invariant foundStart ==> CutAt(log, startKey, p)
        invariant result == Values(read)
      {
        var chunk := chunks[k];
        assert chunk in chunks;
        if !foundStart && startKey > chunk.LastKey() {
          Skipped(k, startKey, endKey, p, read);
        } else {
          var startIndex;
          startIndex, p := StartIn(k, startKey, endKey, foundStart, p, read);
          var more := chunk.ReadValues(startIndex, endKey);
          ghost var es := UpTo(chunk.entries[startIndex - chunk.startIndex..], endKey);
          ValuesAppend(read, es);
          read := read + es;
          result := result + more;
          foundStart := true;
        }
        k := k + 1;
      }
      DoneReading(log, startKey, endKey, foundStart, p, read);
    }

    /** With one argument the upper bound is the last key. */
    method GetValuesFrom(startKey: int) returns (result: seq<V>)
      requires Valid()
      ensures exists es :: IsCut(log, startKey, es) && result == Values(es)
    {
      hide Sorted, Unshared, Flatten, CutAt, UpTo, IsRange, IsCut;
      EmptyIffNoChunks();
      if chunks == [] {
        CutOff(log, startKey);
        result := [];
      } else {
        var last := LastKey();
        var endKey := last.value;
        result := GetValues(startKey, endKey);
        ghost var es :| IsRange(log, startKey, endKey, es) && result == Values(es);
        RangeToLast(log, startKey, es);
      }
    }

    method Clear()
      requires Valid()
      modifies this
      ensures Valid() && Repr == old(Repr) && log == [] && BlocksOf(chunks) == []
    {
      hide Sorted, Unshared, Flatten;
      UnsharedSuffix(chunks, chunksCache);
      chunks := [];
      log := [];
      FlattenFirst<V>([]);
      SortedNone<V>();
      assert [] + chunksCache == chunksCache;
    }

    /** Without arguments all values are copied into an array of the right size. */
    method GetAllValues() returns (result: array<V>)
      requires Valid()
      ensures fresh(result) && result[..] == Values(log)
    {
      hide Sorted, Unshared, Flatten;
      var valuesSize := Size();
      result := new V[valuesSize];
      var valuesIndex, k := 0, 0;
      FlattenEnds();
      while k < |chunks|
        invariant 0 <= k <= |chunks|
        invariant Valid() && fresh(result) && result.Length == |log|
        invariant valuesIndex == |Flatten(chunks[..k])| <= |log|
        invariant result[..valuesIndex] == Values(Flatten(chunks[..k]))
      {
        var chunk := chunks[k];
        FlattenTo(k);
        ghost var before := result[..valuesIndex];
        var length := chunk.cursor - chunk.startIndex;
        chunk.CopyValues(result, length, valuesIndex);
        ValuesAppend(Flatten(chunks[..k]), chunk.entries);
        assert result[..valuesIndex + length] == before + Values(chunk.entries);
        valuesIndex := valuesIndex + length;
        k := k + 1;
      }
    }
  }

  /** Two entries in a chunk of four, and everything up to 5 is to stay: a hole joins the live cells. */
  method DeadCellComesToLife() returns (store: Store<int>)
    ensures fresh(store) && |store.chunks| == 1 && store.chunks[0].startIndex <= store.chunks[0].cursor
    ensures store.LiveKeys() == [Key(1), Key(2), Hole]
  {
    store := TwoEntries();
    OnlyChunk(store);
    hide *;
    var _, dead := store.TrimEndAsCoded(5);
    OnlyAll(store.LiveKeys(), dead);
  }

  method TwoEntries() returns (store: Store<int>)
    ensures store.Valid() && store.Untouched() && fresh(store) && fresh(store.Repr)
    ensures store.log == [Entry(1, 10), Entry(2, 20)] && |store.chunks| == 1
  {
    store := new Store(4);
    hide *;
    AddTwo(store, Entry(1, 10), Entry(2, 20));
  }

  method AddTwo(store: Store<int>, one: Entry<int>, two: Entry<int>)
    requires store.Valid() && store.Untouched() && store.log == [] && BlocksOf(store.chunks) == []
    requires store.defaultChunkSize == 4 && one.ts <= two.ts
    modifies store.Repr
    ensures store.Valid() && store.Untouched() && fresh(store.Repr - old(store.Repr))
    ensures store.log == [one, two] && |store.chunks| == 1
  {
    hide *;
    PutTwo(one, two);
    var a := store.Put(one.ts, one.val);
    assert store.log == [one];
    var b := store.Put(two.ts, two.val);
    BlocksAt(store.chunks);
  }

  lemma OnlyChunk(store: Store<int>)
    requires store.Valid() && store.Untouched() && |store.chunks| == 1
    requires store.log == [Entry(1, 10), Entry(2, 20)]
    ensures var c := store.chunks[0];
            c in store.chunks && c.Valid() && !c.IsEmpty() && c.Untouched() && c.FirstKey() == 1 && c.LastKey() == 2
  {
    assert store.chunks[0] in store.chunks;
    store.EmptyIffNoChunks();
  }

  lemma PutTwo(one: Entry<int>, two: Entry<int>)
    requires one.ts <= two.ts
    ensures ChunkLayout.PutBlocks(ChunkLayout.PutBlocks([], one, 4), two, 4) == [ChunkLayout.Block([one, two], 4)]
    ensures [] + [one] + [two] == [one, two]
  {
    var first := ChunkLayout.Block([one], 4);
    assert ChunkLayout.PutBlocks([], one, 4) == [] + [first] == [first];
    hide ChunkLayout.PutBlocks;
    PutOnLast([], first, two, 4);
    assert [one] + [two] == [one, two] && [] + [ChunkLayout.Appended(first, two)] == [ChunkLayout.Appended(first, two)];
  }

  lemma OnlyAll(live: seq<Cell>, dead: Cell)
    requires DeadEnds([Entry(1, 10), Entry(2, 20)], 5, live, dead)
    ensures live == [Key(1), Key(2), dead]
  {
    var es := [Entry(1, 10), Entry(2, 20)];
    assert es[1].ts < 5;
    assert |live| == 3 && es[..2] == es;
    assert ChunkLayout.CellsOf(es) == [Key(1), Key(2)];
  }
}
