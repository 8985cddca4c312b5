/** Pushed values meeting pull requests: the buffer behind an async iterator. */
module AsyncIteration {
  import opened Optional

  /** What a request is answered with. */
  datatype Item<+T> = Next(value: T) | Done | Fail(error: string)

  datatype Promise<+T> = Pending | Settled(item: Item<T>)

  /** Every promise handed out, the requests still waiting, and the items nobody has asked for. */
  datatype Channel<+T> = Channel(promises: seq<Promise<T>>, waiting: seq<nat>, queue: seq<Item<T>>)

  predicate Proper<T>(c: Channel<T>) {
    && (forall k :: 0 <= k < |c.waiting| ==> c.waiting[k] < |c.promises|)
    && (c.waiting == [] || c.queue == [])
  }

  /** An item goes to the request that has waited longest, or into the queue. */
  function Put<T>(c: Channel<T>, item: Item<T>): Channel<T>
    requires Proper(c)
  {
    if c.waiting == [] then c.(queue := c.queue + [item])
    else c.(promises := c.promises[c.waiting[0] := Settled(item)], waiting := c.waiting[1..])
  }

  function Ask<T>(c: Channel<T>): Channel<T> {
    if c.queue == [] then c.(promises := c.promises + [Pending], waiting := c.waiting + [|c.promises|])
    else c.(promises := c.promises + [Settled(c.queue[0])], queue := c.queue[1..])
  }

  /** All the given requests are answered with the end of the iteration. */
  function EndAll<T>(promises: seq<Promise<T>>, waiting: seq<nat>): (r: seq<Promise<T>>)
    ensures |r| == |promises|
    ensures forall i :: 0 <= i < |r| ==> r[i] == if i in waiting then Settled(Done) else promises[i]
  {
    seq(|promises|, i requires 0 <= i < |promises| => if i in waiting then Settled(Done) else promises[i])
  }

  function Flush<T>(c: Channel<T>): Channel<T> {
    c.(promises := EndAll(c.promises, c.waiting), waiting := [])
  }

  // ---------------------------------------------------------------- AsyncIterationBuffer

  class AsyncIterationBuffer<T> {
    var requests: seq<nat>
    var queue: seq<Item<T>>
    var promises: seq<Promise<T>>

    function View(): Channel<T>
      reads this
    {
      Channel(promises, requests, queue)
    }

    ghost predicate Valid()
      reads this
    {
      Proper(View()) && Distinct(View())
    }

    constructor (data: seq<T>)
      ensures Valid() && View() == Channel([], [], Nexts(data))
    {
      requests, queue, promises := [], [], [];
      new;
      var i := 0;
      while i < |data|
        invariant 0 <= i <= |data| && Valid() && View() == Channel([], [], Nexts(data[..i]))
      {
        Push(data[i]);
        assert data[..i + 1] == data[..i] + [data[i]];
        i := i + 1;
      }
      assert data[..i] == data;
    }

    /** Resolves the promise of the request that has waited longest. */
    method Answer(item: Item<T>)
      requires Valid() && requests != []
      modifies this`requests, this`promises
      ensures Valid() && View() == Put(old(View()), item)
      ensures old(promises[requests[0]]) == Pending
    {
      var first := requests[0];
      requests := requests[1..];
      promises := promises[first := Settled(item)];
    }

    method PushItem(item: Item<T>)
      requires Valid()
      modifies this
      ensures Valid() && View() == Put(old(View()), item)
    {
      if |requests| > 0 {
        Answer(item);
      } else {
        queue := queue + [item];
      }
    }

    method Push(value: T)
      requires Valid()
      modifies this
      ensures Valid() && View() == Put(old(View()), Next(value))
    {
      PushItem(Next(value));
    }

    method Throw(error: string)
      requires Valid()
      modifies this
      ensures Valid() && View() == Put(old(View()), Fail(error))
    {
      PushItem(Fail(error));
    }

    /** Ends the iteration, after a last value if one is given. */
    method End(value: Option<T>)
      requires Valid()
      modifies this
      ensures Valid()
      ensures View() == Put(if value.Some? then Put(old(View()), Next(value.value)) else old(View()), Done)
    {
      if value.Some? {
        Push(value.value);
      }
      PushItem(Done);
    }

    /** Hands out a promise, already settled if something is queued. */
    method GetNext() returns (promise: nat)
      requires Valid()
      modifies this
      ensures Valid() && View() == Ask(old(View())) && promise == |old(promises)|
    {
      promise := |promises|;
      if |queue| > 0 {
        promises := promises + [Settled(queue[0])];
        queue := queue[1..];
      } else {
        promises := promises + [Pending];
        requests := requests + [promise];
      }
    }

    /** Every waiting request is answered once, in order, with the end; queued items stay. */
    method Return()
      requires Valid()
      modifies this
      ensures Valid() && View() == Flush(old(View()))
    {
      ghost var was := requests;
      ghost var k := 0;
      while |requests| > 0
        invariant Valid() && 0 <= k <= |was| && requests == was[k..] && queue == old(queue)
        invariant promises == EndAll(old(promises), was[..k])
        decreases |requests|
      {
        Answer(Done);
        assert was[..k + 1] == was[..k] + [was[k]];
        k := k + 1;
      }
      assert was[..k] == was;
    }
  }

  /** Exactly the waiting requests are pending, and each waits once, in the order it was made. */
  ghost predicate Distinct<T>(c: Channel<T>) {
    && (forall j, k :: 0 <= j < k < |c.waiting| ==> c.waiting[j] < c.waiting[k])
    && (forall i :: 0 <= i < |c.promises| ==> (c.promises[i] == Pending <==> i in c.waiting))
  }

  lemma EndOneMore<T>(promises: seq<Promise<T>>, waiting: seq<nat>, k: nat)
    requires k < |waiting| && waiting[k] < |promises|
    ensures EndAll(promises, waiting[k..]) == EndAll(promises, waiting[k + 1..])[waiting[k] := Settled(Done)]
  {
    assert waiting[k..] == [waiting[k]] + waiting[k + 1..];
  }

  /** Answering the latest request leaves exactly the others waiting. */
  lemma EndLatest<T>(c: Channel<T>)
    requires Proper(c) && Distinct(c) && c.waiting != []
    ensures var w := c.waiting; var last := w[|w| - 1];
            var c' := c.(waiting := w[..|w| - 1], promises := c.promises[last := Settled(Done)]);
            c.promises[last] == Pending && Proper(c') && Distinct(c')
  {
    var w := c.waiting;
    var last := w[|w| - 1];
    assert w == w[..|w| - 1] + [last];
    assert c.promises[last] == Pending;
    forall i | 0 <= i < |c.promises|
      ensures i in w <==> i == last || i in w[..|w| - 1]
    {
    }
  }

  function Nexts<T>(data: seq<T>): (items: seq<Item<T>>)
    ensures |items| == |data| && forall i :: 0 <= i < |data| ==> items[i] == Next(data[i])
  {
    seq(|data|, i requires 0 <= i < |data| => Next(data[i]))
  }

  // ---------------------------------------------------------------- createAsyncIterator

  /** The iterator's channel, and whether it still listens. */
  datatype Iter<+T> = Iter(channel: Channel<T>, listening: bool)

  /** An undefined event is ignored. */
  function PushEvent<T>(x: Iter<T>, event: Option<T>): Iter<T>
    requires Proper(x.channel)
  {
    if event.None? then x else x.(channel := Put(x.channel, Next(event.value)))
  }

  function AskNext<T>(x: Iter<T>): Iter<T> {
    if x.listening then x.(channel := Ask(x.channel))
    else x.(channel := x.channel.(promises := x.channel.promises + [Settled(Done)]))
  }

  function Released<T>(x: Iter<T>): Iter<T> {
    if x.listening then Iter(Flush(x.channel).(queue := []), false) else x
  }

  class EventIterator<T> {
    var pullSeries: seq<nat>
    var pushSeries: seq<Item<T>>
    var promises: seq<Promise<T>>
    var listening: bool

    function View(): Iter<T>
      reads this
    {
      Iter(Channel(promises, pullSeries, pushSeries), listening)
    }

    ghost predicate Valid()
      reads this
    {
      && Proper(View().channel) && Distinct(View().channel)
      && (!listening ==> pullSeries == [])
    }

    constructor ()
      ensures Valid() && View() == Iter(Channel([], [], []), true)
    {
      pullSeries, pushSeries, promises, listening := [], [], [], true;
    }

    method PushValue(event: Option<T>)
      requires Valid()
      modifies this
      ensures Valid() && View() == PushEvent(old(View()), event)
    {
      if event == None {
        return;
      }
      if |pullSeries| > 0 {
        var resolver := pullSeries[0];
        assert promises[resolver] == Pending;
        pullSeries := pullSeries[1..];
        promises := promises[resolver := Settled(Next(event.value))];
      } else {
        pushSeries := pushSeries + [Next(event.value)];
      }
    }

    method PullValue() returns (promise: nat)
      requires Valid() && listening
      modifies this
      ensures Valid() && View() == AskNext(old(View())) && promise == |old(promises)|
    {
      promise := |promises|;
      if |pushSeries| > 0 {
        promises := promises + [Settled(pushSeries[0])];
        pushSeries := pushSeries[1..];
      } else {
        promises := promises + [Pending];
        pullSeries := pullSeries + [promise];
      }
    }

    method GetNext() returns (promise: nat)
      requires Valid()
      modifies this
      ensures Valid() && View() == AskNext(old(View())) && promise == |old(promises)|
    {
      if listening {
        promise := PullValue();
      } else {
        Release();
        promise := |promises|;
        promises := promises + [Settled(Done)];
      }
    }

    /** Every waiting request is answered once, the latest first, with the end; what is queued is dropped. */
    method Release()
      requires Valid()
      modifies this
      ensures Valid() && View() == Released(old(View()))
    {
      if listening {
        listening := false;
        ghost var was := pullSeries;
        while |pullSeries| > 0
          invariant pullSeries <= was && pushSeries == old(pushSeries) && !listening
          invariant Proper(View().channel) && Distinct(View().channel)
          invariant promises == EndAll(old(promises), was[|pullSeries|..])
          decreases |pullSeries|
        {
          ghost var k := |pullSeries| - 1;
          EndOneMore(old(promises), was, k);
          var resolve := pullSeries[|pullSeries| - 1];
          assert resolve < |promises|;
          hide EndAll, Distinct, Proper;
          EndLatest(View().channel);
          pullSeries := pullSeries[..|pullSeries| - 1];
          promises := promises[resolve := Settled(Done)];
        }
        assert was[|pullSeries|..] == was;
        pushSeries := [];
      }
    }
  }
}
