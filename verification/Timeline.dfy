/** Key-sorted sequences of entries: what the chunked store stands for. */
module Timeline {
  import opened Optional

  datatype Entry<+V> = Entry(ts: int, val: V)

  predicate Sorted<V>(es: seq<Entry<V>>) {
    forall i, j :: 0 <= i <= j < |es| ==> es[i].ts <= es[j].ts
  }

  predicate StrictlySorted<V>(es: seq<Entry<V>>) {
    forall i, j :: 0 <= i < j < |es| ==> es[i].ts < es[j].ts
  }

  lemma SortedAppend<V>(es: seq<Entry<V>>, e: Entry<V>)
    requires Sorted(es) && (es == [] || es[|es| - 1].ts <= e.ts)
    ensures Sorted(es + [e])
  {
  }

  lemma SortedParts<V>(a: seq<Entry<V>>, b: seq<Entry<V>>)
    requires Sorted(a + b)
    ensures Sorted(a) && Sorted(b)
    ensures forall i, j :: 0 <= i < |a| && 0 <= j < |b| ==> a[i].ts <= b[j].ts
  {
    var c := a + b;
    assert forall i :: 0 <= i < |a| ==> a[i] == c[i];
    assert forall j :: 0 <= j < |b| ==> b[j] == c[|a| + j];
  }

  lemma BelowLast<V>(es: seq<Entry<V>>, k: int)
    requires Sorted(es) && es != [] && es[|es| - 1].ts < k
    ensures forall i :: 0 <= i < |es| ==> es[i].ts < k
  {
  }

  /** `p` separates the entries below `k` from those above it. Entries at `k` may lie on both sides,
      but when one lies before `p` then another one lies behind it. */
  predicate CutAt<V>(es: seq<Entry<V>>, k: int, p: nat) {
    && p <= |es|
    && (forall i :: 0 <= i < p ==> es[i].ts <= k)
    && (forall i :: p <= i < |es| ==> es[i].ts >= k)
    && (p > 0 && es[p - 1].ts == k ==> p < |es| && es[p].ts == k)
  }

  /** What is left when everything below `k`, and possibly some of the entries at `k`, is removed. */
  ghost predicate IsCut<V>(es: seq<Entry<V>>, k: int, left: seq<Entry<V>>) {
    exists p: nat :: CutAt(es, k, p) && left == es[p..]
  }

  lemma CutOff<V>(es: seq<Entry<V>>, k: int)
    requires forall i :: 0 <= i < |es| ==> es[i].ts < k
    ensures IsCut(es, k, [])
  {
    assert CutAt(es, k, |es|) && es[|es|..] == [];
  }

  /** A cut inside `b` cuts the whole, when `a` lies below the key. */
  lemma CutInMiddle<V>(a: seq<Entry<V>>, b: seq<Entry<V>>, c: seq<Entry<V>>, k: int, q: nat)
    requires forall i :: 0 <= i < |a| ==> a[i].ts < k
    requires Sorted(b + c) && CutAt(b, k, q) && b != [] && b[|b| - 1].ts >= k
    ensures q < |b| && Sorted(b[q..]) && Sorted(b[q..] + c)
    ensures CutAt(a + (b + c), k, |a| + q) && IsCut(a + (b + c), k, b[q..] + c)
  {
    var all, tail := a + (b + c), b + c;
    SortedParts(b, c);
    assert all[|a| + q..] == tail[q..] == b[q..] + c;
    forall i | 0 <= i < |all|
      ensures all[i] == if i < |a| then a[i] else if i < |a| + |b| then b[i - |a|] else c[i - |a| - |b|]
    {
    }
    forall j | 0 <= j < |c| ensures c[j].ts >= k {
      assert b[|b| - 1].ts <= c[j].ts;
    }
    assert CutAt(all, k, |a| + q);
  }

  /** What is left when everything above `k`, and possibly some of the entries at `k`, is removed. */
  ghost predicate IsHead<V>(es: seq<Entry<V>>, k: int, left: seq<Entry<V>>) {
    exists p: nat :: CutAt(es, k, p) && left == es[..p]
  }

  lemma HeadOff<V>(es: seq<Entry<V>>, k: int)
    requires forall i :: 0 <= i < |es| ==> es[i].ts >= k
    ensures IsHead(es, k, [])
  {
    assert CutAt(es, k, 0) && es[..0] == [];
  }

  /** A cut inside `b` cuts the whole, when `c` lies at or above the key. */
  lemma HeadInMiddle<V>(a: seq<Entry<V>>, b: seq<Entry<V>>, c: seq<Entry<V>>, k: int, q: nat)
    requires forall i :: 0 <= i < |c| ==> c[i].ts >= k
    requires Sorted(a + b) && CutAt(b, k, q) && b != [] && b[0].ts < k
    ensures q > 0 && Sorted(b[..q]) && Sorted(a + b[..q]) && IsHead((a + b) + c, k, a + b[..q])
  {
    var all, head := (a + b) + c, a + b;
    SortedParts(a, b);
    assert all[..|a| + q] == head[..|a| + q] == a + b[..q];
    forall i | 0 <= i < |all|
      ensures all[i] == if i < |a| then a[i] else if i < |a| + |b| then b[i - |a|] else c[i - |a| - |b|]
    {
    }
    forall i | 0 <= i < |a| ensures a[i].ts <= k {
      assert a[i].ts <= b[0].ts;
    }
    assert CutAt(all, k, |a| + q);
  }

  lemma AboveFirst<V>(es: seq<Entry<V>>, k: int)
    requires Sorted(es) && es != [] && es[0].ts >= k
    ensures forall i :: 0 <= i < |es| ==> es[i].ts >= k
  {
  }

  function Values<V>(es: seq<Entry<V>>): (r: seq<V>)
    ensures |r| == |es|
  {
    seq(|es|, i requires 0 <= i < |es| => es[i].val)
  }

  /** The entries before the first one above `k`. */
  function UpTo<V>(es: seq<Entry<V>>, k: int): (r: seq<Entry<V>>) {
    if es == [] || es[0].ts > k then [] else [es[0]] + UpTo(es[1..], k)
  }

  /** What reading from `lo` to `hi` may give: all entries in bounds but possibly some at `lo`. */
  ghost predicate IsRange<V>(es: seq<Entry<V>>, lo: int, hi: int, result: seq<Entry<V>>) {
    exists p: nat :: CutAt(es, lo, p) && result == UpTo(es[p..], hi)
  }

  lemma RangeIsPart<V>(es: seq<Entry<V>>, lo: int, hi: int, result: seq<Entry<V>>)
    requires Sorted(es) && IsRange(es, lo, hi, result)
    ensures forall i :: 0 <= i < |result| ==> result[i] in es && lo <= result[i].ts <= hi
  {
    var p: nat :| CutAt(es, lo, p) && result == UpTo(es[p..], hi);
    UpToIsPrefix(es[p..], hi);
    forall i | 0 <= i < |result| ensures result[i] == es[p + i] {
      assert result[i] == es[p..][i];
    }
  }

  lemma RangeToLast<V>(es: seq<Entry<V>>, lo: int, result: seq<Entry<V>>)
    requires Sorted(es) && es != [] && IsRange(es, lo, es[|es| - 1].ts, result)
    ensures IsCut(es, lo, result)
  {
    var p: nat :| CutAt(es, lo, p) && result == UpTo(es[p..], es[|es| - 1].ts);
    UpToAll(es[p..], es[|es| - 1].ts);
  }

  lemma ValuesAppend<V>(a: seq<Entry<V>>, b: seq<Entry<V>>)
    ensures Values(a + b) == Values(a) + Values(b)
  {
  }

  lemma SortedNone<V>()
    ensures Sorted<V>([])
  {
  }

  /** The entries with keys from `lo` to `hi`, in order. */
  function Between<V>(es: seq<Entry<V>>, lo: int, hi: int): seq<Entry<V>> {
    if es == [] then []
    else if lo <= es[0].ts <= hi then [es[0]] + Between(es[1..], lo, hi)
    else Between(es[1..], lo, hi)
  }

  /** The entries with keys from `lo` on. */
  function From<V>(es: seq<Entry<V>>, lo: int): seq<Entry<V>> {
    if es == [] then []
    else if lo <= es[0].ts then [es[0]] + From(es[1..], lo)
    else From(es[1..], lo)
  }

  lemma {:induction false} UpToAppend<V>(a: seq<Entry<V>>, b: seq<Entry<V>>, k: int)
    requires Sorted(a + b)
    ensures UpTo(a + b, k) == UpTo(a, k) + UpTo(b, k)
    decreases |a|
  {
    var c := a + b;
    if a == [] {
      assert c == b;
    } else {
      assert c[0] == a[0] && c[1..] == a[1..] + b;
      if a[0].ts > k {
        if b != [] {
          assert c[|a|] == b[0];
        }
      } else {
        UpToAppend(a[1..], b, k);
      }
    }
  }

  lemma {:induction false} UpToAll<V>(es: seq<Entry<V>>, k: int)
    requires forall i :: 0 <= i < |es| ==> es[i].ts <= k
    ensures UpTo(es, k) == es
  {
    if es != [] {
      UpToAll(es[1..], k);
    }
  }

  lemma {:induction false} UpToIsPrefix<V>(es: seq<Entry<V>>, k: int)
    requires Sorted(es)
    ensures |UpTo(es, k)| <= |es| && UpTo(es, k) == es[..|UpTo(es, k)|]
    ensures forall i :: 0 <= i < |UpTo(es, k)| ==> es[i].ts <= k
    ensures forall i :: |UpTo(es, k)| <= i < |es| ==> es[i].ts > k
    decreases |es|
  {
    if es != [] && es[0].ts <= k {
      UpToIsPrefix(es[1..], k);
    }
  }

  lemma {:induction false} FromAppend<V>(a: seq<Entry<V>>, b: seq<Entry<V>>, lo: int)
    ensures From(a + b, lo) == From(a, lo) + From(b, lo)
    decreases |a|
  {
    if a == [] {
      assert a + b == b;
    } else {
      assert (a + b)[1..] == a[1..] + b;
      FromAppend(a[1..], b, lo);
    }
  }

  lemma {:induction false} NoneBetween<V>(es: seq<Entry<V>>, lo: int, hi: int)
    requires forall i :: 0 <= i < |es| ==> es[i].ts < lo || hi < es[i].ts
    ensures Between(es, lo, hi) == []
  {
    if es != [] {
      NoneBetween(es[1..], lo, hi);
    }
  }

  lemma {:induction false} AllBetween<V>(es: seq<Entry<V>>, lo: int, hi: int)
    requires forall i :: 0 <= i < |es| ==> lo <= es[i].ts <= hi
    ensures Between(es, lo, hi) == es
  {
    if es != [] {
      AllBetween(es[1..], lo, hi);
    }
  }

  lemma {:induction false} FromIsBetween<V>(es: seq<Entry<V>>, lo: int, hi: int)
    requires forall i :: 0 <= i < |es| ==> es[i].ts <= hi
    ensures From(es, lo) == Between(es, lo, hi)
  {
    if es != [] {
      FromIsBetween(es[1..], lo, hi);
    }
  }

  /** With distinct keys a cut is exact, and cutting is filtering by key. */
  lemma CutIsExact<V>(es: seq<Entry<V>>, k: int, p: nat)
    requires StrictlySorted(es) && CutAt(es, k, p)
    ensures forall i :: 0 <= i < p ==> es[i].ts < k
  {
  }

  lemma {:induction false} UpToIsBetween<V>(es: seq<Entry<V>>, lo: int, hi: int)
    requires Sorted(es) && forall i :: 0 <= i < |es| ==> es[i].ts >= lo
    ensures UpTo(es, hi) == Between(es, lo, hi)
  {
    if es != [] {
      if es[0].ts > hi {
        NoneBetween(es, lo, hi);
      } else {
        UpToIsBetween(es[1..], lo, hi);
      }
    }
  }

  lemma {:induction false} BetweenSkips<V>(es: seq<Entry<V>>, lo: int, hi: int, p: nat)
    requires p <= |es| && forall i :: 0 <= i < p ==> es[i].ts < lo
    ensures Between(es, lo, hi) == Between(es[p..], lo, hi)
  {
    if p > 0 {
      BetweenSkips(es[1..], lo, hi, p - 1);
      assert es[1..][p - 1..] == es[p..];
    }
  }

  lemma CutThenUpTo<V>(es: seq<Entry<V>>, lo: int, hi: int, p: nat)
    requires StrictlySorted(es) && CutAt(es, lo, p)
    ensures UpTo(es[p..], hi) == Between(es, lo, hi)
  {
    CutIsExact(es, lo, p);
    BetweenSkips(es, lo, hi, p);
    UpToIsBetween(es[p..], lo, hi);
  }

  lemma {:induction false} FromSkips<V>(es: seq<Entry<V>>, lo: int, p: nat)
    requires p <= |es| && forall i :: 0 <= i < p ==> es[i].ts < lo
    ensures From(es, lo) == From(es[p..], lo)
  {
    if p > 0 {
      FromSkips(es[1..], lo, p - 1);
      assert es[1..][p - 1..] == es[p..];
    }
  }

  lemma {:induction false} AllFrom<V>(es: seq<Entry<V>>, lo: int)
    requires forall i :: 0 <= i < |es| ==> es[i].ts >= lo
    ensures From(es, lo) == es
  {
    if es != [] {
      AllFrom(es[1..], lo);
    }
  }

  lemma CutIsFrom<V>(es: seq<Entry<V>>, lo: int, p: nat)
    requires StrictlySorted(es) && CutAt(es, lo, p)
    ensures es[p..] == From(es, lo)
  {
    CutIsExact(es, lo, p);
    FromSkips(es, lo, p);
    AllFrom(es[p..], lo);
  }

  /** The value written last at `k`. */
  function LastAt<V>(es: seq<Entry<V>>, k: int): Option<V> {
    if es == [] then None
    else if es[|es| - 1].ts == k then Some(es[|es| - 1].val)
    else LastAt(es[..|es| - 1], k)
  }

  /** It is the value of the last entry with that key. */
  lemma {:induction false} LastAtExact<V>(es: seq<Entry<V>>, k: int)
    ensures LastAt(es, k).None? <==> forall j :: 0 <= j < |es| ==> es[j].ts != k
    ensures forall v :: LastAt(es, k) == Some(v) <==> exists j :: WrittenLast(es, k, v, j)
  {
    if es != [] {
      var n := |es| - 1;
      LastAtExact(es[..n], k);
      if es[n].ts == k {
        assert WrittenLast(es, k, es[n].val, n);
      } else {
        forall v, j | WrittenLast(es[..n], k, v, j)
          ensures WrittenLast(es, k, v, j)
        {
        }
        forall v, j | WrittenLast(es, k, v, j)
          ensures WrittenLast(es[..n], k, v, j)
        {
        }
      }
    }
  }

  ghost predicate WrittenLast<V>(es: seq<Entry<V>>, k: int, v: V, j: int) {
    0 <= j < |es| && es[j] == Entry(k, v) && forall i :: j < i < |es| ==> es[i].ts != k
  }

  lemma {:induction false} LastAtAppend<V>(a: seq<Entry<V>>, b: seq<Entry<V>>, k: int)
    ensures LastAt(a + b, k) == if LastAt(b, k).Some? then LastAt(b, k) else LastAt(a, k)
    decreases |b|
  {
    if b == [] {
      assert a + b == a;
    } else {
      assert (a + b)[..|a + b| - 1] == a + b[..|b| - 1];
      LastAtAppend(a, b[..|b| - 1], k);
    }
  }

  lemma {:induction false} LastAtNone<V>(es: seq<Entry<V>>, k: int)
    ensures LastAt(es, k).None? <==> forall i :: 0 <= i < |es| ==> es[i].ts != k
  {
    if es != [] {
      LastAtNone(es[..|es| - 1], k);
    }
  }

  /** A cut loses no last-written value at or above its key, however often keys repeat. */
  lemma CutKeepsLast<V>(es: seq<Entry<V>>, lo: int, p: nat, k: int)
    requires Sorted(es) && CutAt(es, lo, p) && lo <= k
    ensures LastAt(es[p..], k) == LastAt(es, k)
  {
    var a, b := es[..p], es[p..];
    assert es == a + b;
    LastAtAppend(a, b, k);
    LastAtNone(a, k);
    LastAtNone(b, k);
    if p > 0 && es[p - 1].ts == k {
      assert b[0].ts == k;
    }
  }

  lemma UpToKeepsLast<V>(es: seq<Entry<V>>, hi: int, k: int)
    requires Sorted(es) && k <= hi
    ensures LastAt(UpTo(es, hi), k) == LastAt(es, k)
  {
    UpToIsPrefix(es, hi);
    var n := |UpTo(es, hi)|;
    assert es == es[..n] + es[n..];
    LastAtAppend(es[..n], es[n..], k);
    LastAtNone(es[n..], k);
  }

  /** Cutting what is left of a cut. */
  lemma CutTwice<V>(es: seq<Entry<V>>, k: int, p: nat, k': int, q: nat)
    requires Sorted(es) && CutAt(es, k, p) && k <= k' && CutAt(es[p..], k', q)
    ensures CutAt(es, k', p + q)
  {
    var tail := es[p..];
    forall i | 0 <= i < p + q ensures es[i].ts <= k' {
      if i >= p {
        assert es[i] == tail[i - p];
      }
    }
    forall i | p + q <= i < |es| ensures es[i].ts >= k' {
      assert es[i] == tail[i - p];
    }
    if p + q > 0 && es[p + q - 1].ts == k' && q == 0 {
      assert es[p] == tail[0];
    }
  }

  // ---------------------------------------------------------------- exact results

  /** With distinct keys, trimming from below keeps exactly the keys in bounds. */
  lemma TrimIsExact<V>(es: seq<Entry<V>>, k: int, left: seq<Entry<V>>)
    requires StrictlySorted(es) && IsCut(es, k, left)
    ensures left == From(es, k)
  {
    var p: nat :| CutAt(es, k, p) && left == es[p..];
    CutIsFrom(es, k, p);
  }

  /** With distinct keys, reading is filtering by key. */
  lemma RangeIsExact<V>(es: seq<Entry<V>>, lo: int, hi: int, result: seq<Entry<V>>)
    requires StrictlySorted(es) && IsRange(es, lo, hi, result)
    ensures result == Between(es, lo, hi)
  {
    var p: nat :| CutAt(es, lo, p) && result == UpTo(es[p..], hi);
    CutThenUpTo(es, lo, hi, p);
  }

  /** With distinct keys, the two-argument trim keeps exactly the keys from `lo` to below `hi`. */
  lemma TrimBetweenIsExact<V>(es: seq<Entry<V>>, lo: int, hi: int, mid: seq<Entry<V>>, left: seq<Entry<V>>)
    requires StrictlySorted(es) && IsHead(es, hi, mid) && IsCut(mid, lo, left)
    ensures left == Between(es, lo, hi - 1)
  {
    hide Between;
    var p: nat :| CutAt(es, hi, p) && mid == es[..p];
    CutIsExact(es, hi, p);
    BetweenStops(es, lo, hi - 1, p);
    TrimIsExact(mid, lo, left);
    FromIsBetween(mid, lo, hi - 1);
  }

  lemma {:induction false} BetweenStops<V>(es: seq<Entry<V>>, lo: int, hi: int, p: nat)
    requires p <= |es| && forall i :: p <= i < |es| ==> es[i].ts > hi
    ensures Between(es, lo, hi) == Between(es[..p], lo, hi)
    decreases |es|
  {
    if p == 0 {
      NoneBetween(es, lo, hi);
    } else {
      assert es[1..][..p - 1] == es[..p][1..];
      BetweenStops(es[1..], lo, hi, p - 1);
    }
  }

  /** With repeated keys a trim still keeps everything above the key, and the value last written at
      every key that is not below it. */
  lemma TrimKeepsLast<V>(es: seq<Entry<V>>, lo: int, left: seq<Entry<V>>, k: int)
    requires Sorted(es) && IsCut(es, lo, left) && lo <= k
    ensures LastAt(left, k) == LastAt(es, k)
    ensures From(left, lo + 1) == From(es, lo + 1)
  {
    var p: nat :| CutAt(es, lo, p) && left == es[p..];
    CutKeepsLast(es, lo, p, k);
    FromSkips(es, lo + 1, p);
  }

  /** So does reading: every key in bounds has its last-written value in what is read. */
  lemma RangeKeepsLast<V>(es: seq<Entry<V>>, lo: int, hi: int, result: seq<Entry<V>>, k: int)
    requires Sorted(es) && IsRange(es, lo, hi, result) && lo <= k <= hi
    ensures LastAt(result, k) == LastAt(es, k)
  {
    var p: nat :| CutAt(es, lo, p) && result == UpTo(es[p..], hi);
    CutKeepsLast(es, lo, p, k);
    UpToKeepsLast(es[p..], hi, k);
  }

  lemma {:induction false} FromFrom<V>(es: seq<Entry<V>>, a: int, b: int)
    requires a <= b
    ensures From(From(es, a), b) == From(es, b)
  {
    if es != [] {
      FromFrom(es[1..], a, b);
      if es[0].ts >= a {
        assert From(es, a)[1..] == From(es[1..], a);
      }
    }
  }

  lemma {:induction false} BetweenFrom<V>(es: seq<Entry<V>>, a: int, lo: int, hi: int)
    requires a <= lo
    ensures Between(From(es, a), lo, hi) == Between(es, lo, hi)
  {
    if es != [] {
      BetweenFrom(es[1..], a, lo, hi);
      if es[0].ts >= a {
        assert From(es, a)[1..] == From(es[1..], a);
      }
    }
  }

  lemma {:induction false} FromIsPart<V>(es: seq<Entry<V>>, a: int)
    ensures forall e :: e in From(es, a) ==> e in es && e.ts >= a
  {
    if es != [] {
      FromIsPart(es[1..], a);
    }
  }

  lemma StrictCons<V>(e: Entry<V>, es: seq<Entry<V>>)
    requires StrictlySorted(es) && forall i :: 0 <= i < |es| ==> e.ts < es[i].ts
    ensures StrictlySorted([e] + es)
  {
    var all := [e] + es;
    forall i, j | 0 <= i < j < |all| ensures all[i].ts < all[j].ts {
      assert all[j] == es[j - 1] && (i > 0 ==> all[i] == es[i - 1]);
    }
  }

  lemma {:induction false} FromStrict<V>(es: seq<Entry<V>>, a: int)
    requires StrictlySorted(es)
    ensures StrictlySorted(From(es, a))
    ensures forall e :: e in From(es, a) ==> e in es && e.ts >= a
  {
    FromIsPart(es, a);
    if es != [] {
      var e, rest := es[0], es[1..];
      var tail := From(rest, a);
      FromStrict(rest, a);
      forall i | 0 <= i < |tail| ensures e.ts < tail[i].ts {
        assert tail[i] in rest;
      }
      StrictCons(e, tail);
    }
  }

  lemma FromPush<V>(es: seq<Entry<V>>, e: Entry<V>, a: int)
    requires e.ts >= a
    ensures From(es + [e], a) == From(es, a) + [e]
  {
    FromAppend(es, [e], a);
    assert [e][1..] == [];
  }
}
