/** The binary search behind every chunk lookup, including what it does past the live cells. */
module Searching {
  datatype Result<+T> = Ok(value: T) | BadRequest(message: string)

  /** A JavaScript array cell: a hole reads as undefined, which compares false with every key. */
  datatype Cell = Hole | Key(key: int)

  function Read(cells: seq<Cell>, i: nat): Cell {
    if i < |cells| then cells[i] else Hole
  }

  function Middle(low: nat, hi: int): (m: nat)
    requires low <= hi
    ensures low <= m <= hi && (low < hi ==> m < hi)
  {
    (low + hi) / 2
  }

  /** The loop of `binarySearch` as a function of its three variables. */
  function Search(cells: seq<Cell>, needle: int, low: nat, hi: int, mid: nat): int
    decreases hi + 1 - low
  {
    if low > hi then -1 - mid
    else
      var m: int := Middle(low, hi);
      match Read(cells, m)
      case Key(d) =>
        if d == needle then m
        else if d > needle then Search(cells, needle, low, m - 1, m)
        else Search(cells, needle, m + 1, hi, m + 1)
      case Hole => Search(cells, needle, m + 1, hi, m + 1)
  }

  method BinarySearch(haystack: array<Cell>, needle: int, low: int, hi: int) returns (r: Result<int>)
    ensures r.Ok? <==> 0 <= low <= hi <= haystack.Length
    ensures r.Ok? ==> r.value == Search(haystack[..], needle, low, hi, 0)
  {
    if low > hi {
      return BadRequest("The start index is higher than the end index.");
    }
    if low < 0 || hi > haystack.Length {
      return BadRequest("Index is out of bounds.");
    }
    var lo, h, mid := low, hi, 0;
    while lo <= h
      invariant 0 <= lo && h <= hi && 0 <= mid
      invariant Search(haystack[..], needle, lo, h, mid) == Search(haystack[..], needle, low, hi, 0)
      decreases h + 1 - lo
    {
      mid := Middle(lo, h);
      var d := if mid < haystack.Length then haystack[mid] else Hole;
      if d == Key(needle) {
        return Ok(mid);
      } else if d.Key? && d.key > needle {
        h := mid - 1;
      } else {
        mid := mid + 1;
        lo := mid;
      }
    }
    return Ok(-1 - mid);
  }

  /** Cells `low` to `hi - 1` hold keys in nondecreasing order. */
  predicate SortedCells(cells: seq<Cell>, low: nat, hi: nat) {
    && hi <= |cells|
    && (forall i :: low <= i < hi ==> cells[i].Key?)
    && (forall i, j :: low <= i <= j < hi ==> cells[i].key <= cells[j].key)
  }

  /** What the caller is promised: an index holding the needle, or the complement of the place where
      it would have to be inserted. */
  predicate FoundOrInsertion(cells: seq<Cell>, needle: int, low: nat, hi: nat, r: int)
    requires SortedCells(cells, low, hi)
  {
    if r >= 0 then low <= r < hi && cells[r].key == needle
    else
      var p := -(r + 1);
      && low <= p <= hi
      && (forall i :: low <= i < p ==> cells[i].key < needle)
      && (forall i :: p <= i < hi ==> cells[i].key > needle)
  }

  lemma {:induction false} SearchSorted(cells: seq<Cell>, needle: int, low: nat, hi: int, mid: nat)
    requires -1 <= hi && low <= hi + 1 && SortedCells(cells, low, hi + 1)
    requires low == hi + 1 ==> mid == low
    ensures FoundOrInsertion(cells, needle, low, hi + 1, Search(cells, needle, low, hi, mid))
    decreases hi + 1 - low
  {
    if low <= hi {
      var m: int := Middle(low, hi);
      if cells[m].key > needle {
        SearchSorted(cells, needle, low, m - 1, m);
      } else if cells[m].key < needle {
        SearchSorted(cells, needle, m + 1, hi, m + 1);
      }
    }
  }

  /** With the first dead cell passed as the inclusive upper bound, a needle that is not above the
      last live key is searched for among the live cells only. */
  lemma {:induction false} SearchLive(cells: seq<Cell>, needle: int, low: nat, cursor: nat, mid: nat)
    requires low < cursor && SortedCells(cells, low, cursor) && needle <= cells[cursor - 1].key
    ensures FoundOrInsertion(cells, needle, low, cursor, Search(cells, needle, low, cursor, mid))
    decreases cursor - low
  {
    var m: int := Middle(low, cursor);
    if cells[m].key > needle {
      SearchSorted(cells, needle, low, m - 1, m);
    } else if cells[m].key < needle {
      SearchLive(cells, needle, m + 1, cursor, m + 1);
    }
  }

  lemma {:induction false} SearchBelow(cells: seq<Cell>, other: seq<Cell>, needle: int, low: nat, hi: int, mid: nat)
    requires hi < |cells| && hi < |other| && forall i :: low <= i <= hi ==> cells[i] == other[i]
    ensures Search(cells, needle, low, hi, mid) == Search(other, needle, low, hi, mid)
    decreases hi + 1 - low
  {
    if low <= hi {
      var m: int := Middle(low, hi);
      SearchBelow(cells, other, needle, low, m - 1, m);
      SearchBelow(cells, other, needle, m + 1, hi, m + 1);
    }
  }

  /** The dead cell is never read: changing it, or anything after it, changes nothing. */
  lemma {:induction false} DeadCellNotRead(cells: seq<Cell>, other: seq<Cell>, needle: int, low: nat, cursor: nat,
                                           mid: nat)
    requires low < cursor && SortedCells(cells, low, cursor) && needle <= cells[cursor - 1].key
    requires cursor <= |other| && cells[..cursor] == other[..cursor]
    ensures Search(cells, needle, low, cursor, mid) == Search(other, needle, low, cursor, mid)
    decreases cursor - low
  {
    var m: int := Middle(low, cursor);
    assert forall i :: 0 <= i < cursor ==> cells[i] == cells[..cursor][i] == other[..cursor][i] == other[i];
    if cells[m].key > needle {
      SearchBelow(cells, other, needle, low, m - 1, m);
    } else if cells[m].key < needle {
      DeadCellNotRead(cells, other, needle, m + 1, cursor, m + 1);
    }
  }

  /** One turn of the loop. */
  lemma SearchStep(cells: seq<Cell>, needle: int, low: nat, hi: int, mid: nat)
    ensures Search(cells, needle, low, hi, mid) ==
            if low > hi then -1 - mid
            else
              var m: int := Middle(low, hi);
              if Read(cells, m) == Key(needle) then m
              else if Read(cells, m).Key? && Read(cells, m).key > needle then Search(cells, needle, low, m - 1, m)
              else Search(cells, needle, m + 1, hi, m + 1)
  {
  }

  lemma MiddleMoved(pad: seq<Cell>, cells: seq<Cell>, low: nat, hi: int)
    requires low <= hi
    ensures var m: int := Middle(low, hi);
            Middle(|pad| + low, |pad| + hi) == |pad| + m && Read(pad + cells, |pad| + m) == Read(cells, m)
  {
  }

  /** The search does not care where in the array the cells lie. */
  lemma {:induction false} SearchMoved(pad: seq<Cell>, cells: seq<Cell>, needle: int, low: nat, hi: int, mid: nat)
    ensures var r := Search(cells, needle, low, hi, mid);
            Search(pad + cells, needle, |pad| + low, |pad| + hi, |pad| + mid) == if r < 0 then r - |pad| else r + |pad|
    decreases hi + 1 - low
  {
    hide Search, Middle, Read;
    SearchStep(cells, needle, low, hi, mid);
    SearchStep(pad + cells, needle, |pad| + low, |pad| + hi, |pad| + mid);
    if low <= hi {
      var m: int := Middle(low, hi);
      MiddleMoved(pad, cells, low, hi);
      SearchMoved(pad, cells, needle, low, m - 1, m);
      SearchMoved(pad, cells, needle, m + 1, hi, m + 1);
    }
  }

  function PowerOfTwo(k: nat): (p: nat)
    ensures p > 0
  {
    if k == 0 then 1 else 2 * PowerOfTwo(k - 1)
  }

  /** How many cells the search reads. */
  function Probes(cells: seq<Cell>, needle: int, low: nat, hi: int): nat
    decreases hi + 1 - low
  {
    if low > hi then 0
    else
      var m: int := Middle(low, hi);
      if Read(cells, m) == Key(needle) then 1
      else if Read(cells, m).Key? && Read(cells, m).key > needle then 1 + Probes(cells, needle, low, m - 1)
      else 1 + Probes(cells, needle, m + 1, hi)
  }

  /** No more than the logarithm of the length: every probe halves what is left. */
  lemma {:induction false} LogarithmicProbes(cells: seq<Cell>, needle: int, low: nat, hi: int, k: nat)
    requires hi - low + 1 < PowerOfTwo(k)
    ensures Probes(cells, needle, low, hi) <= k
    decreases hi + 1 - low
  {
    if low <= hi {
      var m: int := Middle(low, hi);
      if Read(cells, m).Key? && Read(cells, m).key > needle {
        LogarithmicProbes(cells, needle, low, m - 1, k - 1);
      } else if Read(cells, m) != Key(needle) {
        LogarithmicProbes(cells, needle, m + 1, hi, k - 1);
      }
    }
  }

  /** Among equal keys the search finds the one in the middle. */
  lemma EqualKeys(cells: seq<Cell>, needle: int, low: nat, cursor: nat)
    requires low < cursor <= |cells| && forall i :: low <= i < cursor ==> cells[i] == Key(needle)
    ensures Search(cells, needle, low, cursor, 0) == (low + cursor) / 2
  {
  }

  /** A needle above every live key is looked for in the dead cell, and what lies there decides. */
  lemma {:induction false} SearchPastEnd(cells: seq<Cell>, needle: int, low: nat, cursor: nat, mid: nat)
    requires low <= cursor && SortedCells(cells, low, cursor)
    requires forall i :: low <= i < cursor ==> cells[i].key < needle
    ensures Search(cells, needle, low, cursor, mid) ==
            (match Read(cells, cursor)
             case Key(d) => if d == needle then cursor else if d > needle then -1 - cursor else -2 - cursor
             case Hole => -2 - cursor)
    decreases cursor - low
  {
    var m: int := Middle(low, cursor);
    if m < cursor {
      SearchPastEnd(cells, needle, m + 1, cursor, m + 1);
    }
  }

  function IndexOf(r: int): int {
    if r < 0 then -(r + 1) else r
  }

  /** The inclusive bound gives an index within the live cells or right behind them if and only if
      the needle is at most the last live key or the dead cell holds a key that is not below it. */
  lemma InclusiveBoundExact(cells: seq<Cell>, needle: int, low: nat, cursor: nat)
    requires low < cursor && SortedCells(cells, low, cursor)
    ensures IndexOf(Search(cells, needle, low, cursor, 0)) <= cursor <==>
            needle <= cells[cursor - 1].key || (Read(cells, cursor).Key? && Read(cells, cursor).key >= needle)
  {
    if needle <= cells[cursor - 1].key {
      SearchLive(cells, needle, low, cursor, 0);
    } else {
      SearchPastEnd(cells, needle, low, cursor, 0);
    }
  }

  /** Two live cells and the key 5: a hole is passed, a removed 3 comes back, a removed 7 does no harm. */
  lemma DeadCellPassed()
    ensures IndexOf(Search([Key(1), Key(2), Hole, Hole], 5, 0, 2, 0)) == 3
    ensures IndexOf(Search([Key(1), Key(2), Key(3), Hole], 5, 0, 2, 0)) == 3
    ensures IndexOf(Search([Key(1), Key(2), Key(7), Hole], 5, 0, 2, 0)) == 2
  {
    SearchPastEnd([Key(1), Key(2), Hole, Hole], 5, 0, 2, 0);
    SearchPastEnd([Key(1), Key(2), Key(3), Hole], 5, 0, 2, 0);
    SearchPastEnd([Key(1), Key(2), Key(7), Hole], 5, 0, 2, 0);
  }
}
