/** First in, first out: every interleaving of pushes, requests and releases. */
module AsyncIterationRuns {
  import opened AsyncIteration
  import opened Optional

  // ---------------------------------------------------------------- the buffer

  datatype Op<+T> = Push(item: Item<T>) | Request | Return

  /** The channel, with every item ever pushed, the requests that got one, in the order in which they
      got it, and the requests that a return ended. */
  datatype Trace<T> = Trace(channel: Channel<T>, items: seq<Item<T>>, served: seq<nat>, ended: set<nat>)

  ghost function Step<T>(tr: Trace<T>, op: Op<T>): Trace<T>
    requires Proper(tr.channel)
  {
    var c := tr.channel;
    match op
    case Push(item) =>
      Trace(Put(c, item), tr.items + [item],
            if c.waiting == [] then tr.served else tr.served + [c.waiting[0]], tr.ended)
    case Request =>
      Trace(Ask(c), tr.items, if c.queue == [] then tr.served else tr.served + [|c.promises|], tr.ended)
    case Return =>
      tr.(channel := Flush(c), ended := tr.ended + set i | i in c.waiting)
  }

  /** The j-th item went to the j-th request served, and the items not yet handed out are queued. */
  ghost predicate Fed<T>(tr: Trace<T>) {
    var c := tr.channel;
    && |tr.served| <= |tr.items| && c.queue == tr.items[|tr.served|..]
    && forall j :: 0 <= j < |tr.served| ==>
         tr.served[j] < |c.promises| && c.promises[tr.served[j]] == Settled(tr.items[j])
  }

  /** Requests are served in the order they were made, and those waiting were made after all those served. */
  ghost predicate InOrder<T>(tr: Trace<T>) {
    && (forall j, k :: 0 <= j < k < |tr.served| ==> tr.served[j] < tr.served[k])
    && (forall j, k :: 0 <= j < |tr.served| && 0 <= k < |tr.channel.waiting| ==> tr.served[j] < tr.channel.waiting[k])
    && (forall j :: 0 <= j < |tr.served| ==> tr.served[j] < |tr.channel.promises|)
  }

  /** Every request was served, or ended by a return, or is waiting, and only one of these. */
  ghost predicate Accounted<T>(tr: Trace<T>) {
    var c := tr.channel;
    && (forall i :: i in tr.ended ==> i < |c.promises| && c.promises[i] == Settled(Done) && i !in tr.served)
    && (forall i :: 0 <= i < |c.promises| ==> i in tr.served || i in tr.ended || i in c.waiting)
    && (forall i :: i in tr.served ==> i < |c.promises| && c.promises[i] != Pending)
  }

  ghost predicate Matched<T>(tr: Trace<T>) {
    Proper(tr.channel) && Distinct(tr.channel) && Fed(tr) && InOrder(tr) && Accounted(tr)
  }

  lemma StepKeepsChannel<T>(tr: Trace<T>, op: Op<T>)
    requires Proper(tr.channel) && Distinct(tr.channel)
    ensures Proper(Step(tr, op).channel) && Distinct(Step(tr, op).channel)
  {
    var c, r := tr.channel, Step(tr, op).channel;
    if op.Push? && c.waiting != [] {
      assert c.waiting == [c.waiting[0]] + c.waiting[1..] && r.waiting == c.waiting[1..];
      forall i | 0 <= i < |c.promises|
        ensures i in c.waiting <==> i == c.waiting[0] || i in r.waiting
      {
      }
    } else if op.Request? && c.queue == [] {
      assert r.waiting == c.waiting + [|c.promises|];
    }
  }

  lemma StepFeeds<T>(tr: Trace<T>, op: Op<T>)
    requires Matched(tr)
    ensures Fed(Step(tr, op))
  {
    hide Accounted;
    var c, r := tr.channel, Step(tr, op);
    if op.Push? {
      if c.waiting != [] {
        var first := c.waiting[0];
        assert first in c.waiting && r.served == tr.served + [first];
      }
    } else if op.Request? {
      if c.queue != [] {
        assert r.served == tr.served + [|c.promises|];
      }
    } else {
      forall j | 0 <= j < |r.served|
        ensures r.channel.promises[r.served[j]] == Settled(r.items[j])
      {
        assert tr.served[j] !in c.waiting;
      }
    }
  }

  lemma StepKeepsOrder<T>(tr: Trace<T>, op: Op<T>)
    requires Proper(tr.channel) && Distinct(tr.channel) && InOrder(tr)
    ensures InOrder(Step(tr, op))
  {
    var c, r := tr.channel, Step(tr, op);
    if op.Push? {
      if c.waiting != [] {
        assert r.served == tr.served + [c.waiting[0]];
      }
    } else if op.Request? {
      if c.queue != [] {
        assert r.served == tr.served + [|c.promises|];
      } else {
        assert r.channel.waiting == c.waiting + [|c.promises|];
      }
    }
  }

  lemma StepAccounts<T>(tr: Trace<T>, op: Op<T>)
    requires Proper(tr.channel) && Distinct(tr.channel) && Accounted(tr)
    ensures Accounted(Step(tr, op))
  {
    var c, r := tr.channel, Step(tr, op);
    if op.Push? {
      if c.waiting != [] {
        var first := c.waiting[0];
        assert first in c.waiting && r.served == tr.served + [first];
        assert forall i :: i in r.served <==> i in tr.served || i == first;
        assert forall i :: i in c.waiting ==> i == first || i in r.channel.waiting;
      }
    } else if op.Request? {
      var n := |c.promises|;
      if c.queue != [] {
        assert r.served == tr.served + [n];
        assert forall i :: i in r.served <==> i in tr.served || i == n;
      } else {
        assert r.channel.waiting == c.waiting + [n];
        assert forall i :: i in r.channel.waiting <==> i in c.waiting || i == n;
      }
    }
  }

  lemma MatchedStep<T>(tr: Trace<T>, op: Op<T>)
    requires Matched(tr)
    ensures Matched(Step(tr, op))
  {
    StepKeepsChannel(tr, op);
    StepFeeds(tr, op);
    StepKeepsOrder(tr, op);
    StepAccounts(tr, op);
  }

  ghost function After<T>(ops: seq<Op<T>>): (tr: Trace<T>)
    ensures Matched(tr)
  {
    if ops == [] then Trace(Channel([], [], []), [], [], {})
    else
      var before := After(ops[..|ops| - 1]);
      MatchedStep(before, ops[|ops| - 1]);
      Step(before, ops[|ops| - 1])
  }

  function Pushed<T>(ops: seq<Op<T>>): seq<Item<T>> {
    if ops == [] then []
    else Pushed(ops[..|ops| - 1]) + (if ops[|ops| - 1].Push? then [ops[|ops| - 1].item] else [])
  }

  function Requests<T>(ops: seq<Op<T>>): nat {
    if ops == [] then 0 else Requests(ops[..|ops| - 1]) + (if ops[|ops| - 1].Request? then 1 else 0)
  }

  lemma {:induction false} HistoryKept<T>(ops: seq<Op<T>>)
    ensures After(ops).items == Pushed(ops) && |After(ops).channel.promises| == Requests(ops)
  {
    if ops != [] {
      HistoryKept(ops[..|ops| - 1]);
    }
  }

  /** Whatever the interleaving: requests and items never wait for one another at once, the j-th item
      pushed is the answer to the j-th request served, the rest are queued in order, and every request
      is answered by one item, or by a return, or is still pending. */
  lemma BufferFifo<T>(ops: seq<Op<T>>)
    ensures var tr, items := After(ops), Pushed(ops);
            var c := tr.channel;
            && |c.promises| == Requests(ops)
            && (c.waiting == [] || c.queue == [])
            && |tr.served| <= |items| && c.queue == items[|tr.served|..]
            && (forall j :: 0 <= j < |tr.served| ==>
                  tr.served[j] < |c.promises| && c.promises[tr.served[j]] == Settled(items[j]))
            && (forall j, k :: 0 <= j < k < |tr.served| ==> tr.served[j] < tr.served[k])
            && (forall i :: 0 <= i < |c.promises| ==>
                  i in tr.served || (i in tr.ended && c.promises[i] == Settled(Done)) || c.promises[i] == Pending)
  {
    HistoryKept(ops);
    var tr := After(ops);
    hide After;
    assert Fed(tr) && InOrder(tr) && Accounted(tr) && Distinct(tr.channel);
  }

  predicate NeverReturns<T>(ops: seq<Op<T>>) {
    forall k :: 0 <= k < |ops| ==> !ops[k].Return?
  }

  ghost predicate Straight<T>(tr: Trace<T>) {
    && |tr.served| == (if |tr.items| < |tr.channel.promises| then |tr.items| else |tr.channel.promises|)
    && (forall j :: 0 <= j < |tr.served| ==> tr.served[j] == j)
    && |tr.channel.waiting| == |tr.channel.promises| - |tr.served|
    && (forall k :: 0 <= k < |tr.channel.waiting| ==> tr.channel.waiting[k] == |tr.served| + k)
  }

  lemma StraightStep<T>(tr: Trace<T>, op: Op<T>)
    requires Matched(tr) && Straight(tr) && !op.Return?
    ensures Straight(Step(tr, op))
  {
    hide Distinct, Accounted, InOrder;
  }

  lemma {:induction false} StraightRun<T>(ops: seq<Op<T>>)
    requires NeverReturns(ops)
    ensures Straight(After(ops))
  {
    if ops != [] {
      var before := ops[..|ops| - 1];
      StraightRun(before);
      StraightStep(After(before), ops[|ops| - 1]);
    }
  }

  /** Without a return the k-th request gets the k-th item, and waits until there is one. */
  lemma KthGetsKth<T>(ops: seq<Op<T>>, k: nat)
    requires NeverReturns(ops) && k < Requests(ops)
    ensures |After(ops).channel.promises| == Requests(ops)
    ensures After(ops).channel.promises[k] == if k < |Pushed(ops)| then Settled(Pushed(ops)[k]) else Pending
  {
    HistoryKept(ops);
    StraightRun(ops);
    var tr := After(ops);
    hide After;
    assert Fed(tr) && Distinct(tr.channel);
    if k < |tr.served| {
      assert tr.served[k] == k;
    } else {
      assert tr.channel.waiting[k - |tr.served|] == k;
    }
  }

  // ---------------------------------------------------------------- the event iterator

  datatype Call<+T> = Event(value: Option<T>) | NextCall | ReleaseCall

  function StepIter<T>(x: Iter<T>, call: Call<T>): Iter<T>
    requires Proper(x.channel)
  {
    match call
    case Event(value) => PushEvent(x, value)
    case NextCall => AskNext(x)
    case ReleaseCall => Released(x)
  }

  function AfterCalls<T>(calls: seq<Call<T>>): (x: Iter<T>)
    ensures Proper(x.channel)
  {
    if calls == [] then Iter(Channel([], [], []), true)
    else StepIter(AfterCalls(calls[..|calls| - 1]), calls[|calls| - 1])
  }

  predicate WasReleased<T>(calls: seq<Call<T>>) {
    calls != [] && (WasReleased(calls[..|calls| - 1]) || calls[|calls| - 1].ReleaseCall?)
  }

  /** The defined events, and the number of requests, before the first release. */
  function Accepted<T>(calls: seq<Call<T>>): seq<T> {
    if calls == [] then []
    else
      var last := calls[|calls| - 1];
      Accepted(calls[..|calls| - 1]) +
      (if !WasReleased(calls[..|calls| - 1]) && last.Event? && last.value.Some? then [last.value.value] else [])
  }

  function Asked<T>(calls: seq<Call<T>>): nat {
    if calls == [] then 0
    else Asked(calls[..|calls| - 1]) +
         (if !WasReleased(calls[..|calls| - 1]) && calls[|calls| - 1].NextCall? then 1 else 0)
  }

  function AskedEver<T>(calls: seq<Call<T>>): nat {
    if calls == [] then 0 else AskedEver(calls[..|calls| - 1]) + (if calls[|calls| - 1].NextCall? then 1 else 0)
  }

  /** What the k-th request must have been answered, in terms of the calls alone. */
  function Expected<T>(accepted: seq<T>, asked: nat, released: bool, k: nat): Promise<T> {
    if k < asked && k < |accepted| then Settled(Next(accepted[k]))
    else if released then Settled(Done)
    else Pending
  }

  ghost predicate Answers<T>(x: Iter<T>, accepted: seq<T>, asked: nat, ever: nat, released: bool) {
    && Proper(x.channel) && x.listening == !released && |x.channel.promises| == ever >= asked
    && (!released ==> ever == asked)
    && (forall k :: 0 <= k < ever ==> x.channel.promises[k] == Expected(accepted, asked, released, k))
    && (released ==> x.channel.waiting == [])
    && (!released ==>
          && x.channel.queue == Nexts(if asked < |accepted| then accepted[asked..] else [])
          && |x.channel.waiting| == (if |accepted| < asked then asked - |accepted| else 0)
          && forall k :: 0 <= k < |x.channel.waiting| ==> x.channel.waiting[k] == |accepted| + k)
  }

  lemma EventAnswers<T>(x: Iter<T>, accepted: seq<T>, asked: nat, ever: nat, released: bool, value: Option<T>)
    requires Answers(x, accepted, asked, ever, released)
    ensures Answers(StepIter(x, Event(value)),
                    if !released && value.Some? then accepted + [value.value] else accepted, asked, ever, released)
  {
    if !released && value.Some? {
      var more := accepted + [value.value];
      if asked <= |accepted| {
        assert more[asked..] == (if asked < |accepted| then accepted[asked..] else []) + [value.value];
      }
    }
  }

  lemma NextsTail<T>(items: seq<T>, n: nat)
    requires n < |items|
    ensures Nexts(items[n..])[1..] == Nexts(if n + 1 < |items| then items[n + 1..] else [])
  {
    var tail := items[n..];
    assert |tail| > 0 && tail[1..] == items[n + 1..];
    forall k | 0 <= k < |tail| - 1
      ensures Nexts(tail)[1..][k] == Nexts(tail[1..])[k]
    {
      assert Nexts(tail)[1..][k] == Nexts(tail)[k + 1] && tail[1..][k] == tail[k + 1];
    }
  }

  lemma NextAnswers<T>(x: Iter<T>, accepted: seq<T>, asked: nat, ever: nat, released: bool)
    requires Answers(x, accepted, asked, ever, released)
    ensures Answers(StepIter(x, NextCall), accepted, if released then asked else asked + 1, ever + 1, released)
  {
    if !released && asked < |accepted| {
      var q := x.channel.queue;
      assert q == Nexts(accepted[asked..]) && q[0] == Next(accepted[asked]);
      NextsTail(accepted, asked);
    }
  }

  lemma ReleaseAnswers<T>(x: Iter<T>, accepted: seq<T>, asked: nat, ever: nat, released: bool)
    requires Answers(x, accepted, asked, ever, released)
    ensures Answers(StepIter(x, ReleaseCall), accepted, asked, ever, true)
  {
    if !released {
      var w := x.channel.waiting;
      forall k | 0 <= k < ever
        ensures k in w <==> k >= |accepted|
      {
        if k >= |accepted| {
          assert w[k - |accepted|] == k;
        }
      }
    }
  }

  lemma {:induction false} AnswersRun<T>(calls: seq<Call<T>>)
    ensures Answers(AfterCalls(calls), Accepted(calls), Asked(calls), AskedEver(calls), WasReleased(calls))
  {
    hide Answers, StepIter;
    if calls == [] {
      AnswersNone<T>();
    } else {
      var before, last := calls[..|calls| - 1], calls[|calls| - 1];
      AnswersRun(before);
      var x, a, n, e, r := AfterCalls(before), Accepted(before), Asked(before), AskedEver(before), WasReleased(before);
      assert a + [] == a;
      match last {
        case Event(value) => EventAnswers(x, a, n, e, r, value);
        case NextCall => NextAnswers(x, a, n, e, r);
        case ReleaseCall => ReleaseAnswers(x, a, n, e, r);
      }
    }
  }

  lemma AnswersNone<T>()
    ensures Answers<T>(Iter(Channel([], [], []), true), [], 0, 0, false)
  {
  }

  /** For every interleaving of events, requests and releases: the k-th request made before the
      release gets the k-th defined event accepted before it; the others are pending until the
      release, and are then all answered with the end, as are the requests made later. */
  lemma IteratorFifo<T>(calls: seq<Call<T>>, k: nat)
    requires k < AskedEver(calls)
    ensures var promises := AfterCalls(calls).channel.promises;
            && |promises| == AskedEver(calls)
            && promises[k] == (if k < Asked(calls) && k < |Accepted(calls)| then Settled(Next(Accepted(calls)[k]))
                               else if WasReleased(calls) then Settled(Done)
                               else Pending)
  {
    AnswersRun(calls);
  }
}
