/** Writes to a store, buffered, coalesced and sent in batches while a lock is held. */
module WriteCaching {
  import opened Optional

  /** A place in the store: a plain key, or a field of a hash. */
  datatype Cell = Plain(key: string) | Field(key: string, field: string)

  datatype Datum = Num(n: int) | Text(s: string)

  type Store = Cell -> Option<Datum>

  datatype Write =
    | Incr(key: string, amount: int)
    | HIncr(key: string, amounts: map<string, int>)
    | Set(key: string, value: Datum)
    | HMSet(key: string, values: map<string, Datum>)

  // ---------------------------------------------------------------- one write at a time

  datatype Effect = Untouched | Add(amount: int) | Put(value: Datum)

  function EffectOf(w: Write, c: Cell): Effect {
    match w
    case Incr(key, amount) => if c == Plain(key) then Add(amount) else Untouched
    case HIncr(key, amounts) =>
      if c.Field? && c.key == key && c.field in amounts then Add(amounts[c.field]) else Untouched
    case Set(key, value) => if c == Plain(key) then Put(value) else Untouched
    case HMSet(key, values) =>
      if c.Field? && c.key == key && c.field in values then Put(values[c.field]) else Untouched
  }

  /** Adding to a missing cell creates it; adding to text is refused and changes nothing. */
  function AddTo(d: Option<Datum>, amount: int): Option<Datum> {
    match d
    case None => Some(Num(amount))
    case Some(Num(n)) => Some(Num(n + amount))
    case Some(Text(_)) => d
  }

  function Perform(d: Option<Datum>, e: Effect): Option<Datum> {
    match e
    case Untouched => d
    case Add(amount) => AddTo(d, amount)
    case Put(value) => Some(value)
  }

  function PerformAll(d: Option<Datum>, ws: seq<Write>, c: Cell): Option<Datum> {
    if ws == [] then d
    else Perform(PerformAll(d, ws[..|ws| - 1], c), EffectOf(ws[|ws| - 1], c))
  }

  /** What a reader sees: a counter that does not exist reads as zero. */
  function Reading(d: Option<Datum>): Datum {
    if d.Some? then d.value else Num(0)
  }

  // ---------------------------------------------------------------- the buffer

  /** The net increment of every cell, and the last value put into it. */
  datatype Buffer = Buffer(adds: Cell -> int, puts: Cell -> Option<Datum>)

  function NoAdd(c: Cell): int { 0 }

  function NoPut(c: Cell): Option<Datum> { None }

  function EmptyBuffer(): Buffer {
    Buffer(NoAdd, NoPut)
  }

  function AddedTo(net: int, e: Effect): int {
    if e.Add? then net + e.amount else net
  }

  function PutOver(last: Option<Datum>, e: Effect): Option<Datum> {
    if e.Put? then Some(e.value) else last
  }

  function Buffered(b: Buffer, w: Write): Buffer {
    Buffer(c => AddedTo(b.adds(c), EffectOf(w, c)), c => PutOver(b.puts(c), EffectOf(w, c)))
  }

  function BufferedAll(ws: seq<Write>): Buffer {
    if ws == [] then EmptyBuffer() else Buffered(BufferedAll(ws[..|ws| - 1]), ws[|ws| - 1])
  }

  /** Increments that come to zero are not sent. */
  function AddNonzero(d: Option<Datum>, amount: int): Option<Datum> {
    if amount == 0 then d else AddTo(d, amount)
  }

  function PutIfAny(d: Option<Datum>, put: Option<Datum>): Option<Datum> {
    if put.Some? then put else d
  }

  /** A batch sends plain increments before plain values, but hash values before hash increments. */
  function AfterBatch(b: Buffer, c: Cell, d: Option<Datum>): Option<Datum> {
    match c
    case Plain(_) => PutIfAny(AddNonzero(d, b.adds(c)), b.puts(c))
    case Field(_, _) => AddNonzero(PutIfAny(d, b.puts(c)), b.adds(c))
  }

  // ---------------------------------------------------------------- coalescing

  function Sum(ws: seq<Write>, c: Cell): int {
    if ws == [] then 0 else AddedTo(Sum(ws[..|ws| - 1], c), EffectOf(ws[|ws| - 1], c))
  }

  function Last(ws: seq<Write>, c: Cell): Option<Datum> {
    if ws == [] then None else PutOver(Last(ws[..|ws| - 1], c), EffectOf(ws[|ws| - 1], c))
  }

  /** What one write asks to be added to a cell, read off its own arguments. */
  function AmountFor(w: Write, c: Cell): int {
    if w.Incr? && c.Plain? && c.key == w.key then w.amount
    else if w.HIncr? && c.Field? && c.key == w.key && c.field in w.amounts then w.amounts[c.field]
    else 0
  }

  function ValueFor(w: Write, c: Cell): Option<Datum> {
    if w.Set? && c.Plain? && c.key == w.key then Some(w.value)
    else if w.HMSet? && c.Field? && c.key == w.key && c.field in w.values then Some(w.values[c.field])
    else None
  }

  function Requested(ws: seq<Write>, c: Cell): int {
    if ws == [] then 0 else Requested(ws[..|ws| - 1], c) + AmountFor(ws[|ws| - 1], c)
  }

  function LastValue(ws: seq<Write>, c: Cell): Option<Datum> {
    if ws == [] then None
    else
      var v := ValueFor(ws[|ws| - 1], c);
      if v.Some? then v else LastValue(ws[..|ws| - 1], c)
  }

  /** The net increment is what the writes asked for, and the last value the one they gave last. */
  lemma {:induction false} SumIsRequested(ws: seq<Write>, c: Cell)
    ensures Sum(ws, c) == Requested(ws, c) && Last(ws, c) == LastValue(ws, c)
  {
    if ws != [] {
      SumIsRequested(ws[..|ws| - 1], c);
    }
  }

  predicate Counts(ws: seq<Write>, c: Cell) {
    ws != [] && (Counts(ws[..|ws| - 1], c) || EffectOf(ws[|ws| - 1], c).Add?)
  }

  /** The increments since the last value was put. */
  function SinceLast(ws: seq<Write>, c: Cell): int {
    if ws == [] || EffectOf(ws[|ws| - 1], c).Put? then 0
    else AddedTo(SinceLast(ws[..|ws| - 1], c), EffectOf(ws[|ws| - 1], c))
  }

  lemma {:induction false} BufferHoldsNet(ws: seq<Write>, c: Cell)
    ensures BufferedAll(ws).adds(c) == Sum(ws, c) && BufferedAll(ws).puts(c) == Last(ws, c)
  {
    if ws != [] {
      BufferHoldsNet(ws[..|ws| - 1], c);
    }
  }

  /** One write by itself, sent as a batch or performed at once: on every store an increment by `n`
      makes a cell that reads `m` read `m + n`, whatever text it finds stays, a value is what the cell
      holds then, and all other cells stay as they are. */
  lemma OneWriteArrives(w: Write, c: Cell, d: Option<Datum>)
    ensures var batch, direct := AfterBatch(BufferedAll([w]), c, d), PerformAll(d, [w], c);
            && Reading(batch) == Reading(direct)
            && (ValueFor(w, c).Some? ==> batch == ValueFor(w, c))
            && (ValueFor(w, c).None? ==>
                  Reading(batch) == if Reading(d).Num? then Num(Reading(d).n + AmountFor(w, c)) else Reading(d))
            && (ValueFor(w, c).None? && AmountFor(w, c) == 0 ==> batch == d)
  {
    var one := [w];
    assert one[..0] == [] && one[|one| - 1] == w;
    assert Sum([], c) == 0 && Last([], c) == None && PerformAll(d, [], c) == d;
    BufferHoldsNet(one, c);
  }

  /** The separate writes in terms of the net increment, the last value and the increments since. */
  predicate Summarised(d: Option<Datum>, after: Option<Datum>, last: Option<Datum>, counts: bool, sum: int,
                       since: int) {
    && after == (if last.Some? then AddNonzero(last, since) else if counts then AddTo(d, sum) else d)
    && (last.None? ==> since == sum)
    && (!counts ==> sum == 0 && since == 0)
  }

  lemma SummaryStep(d: Option<Datum>, after: Option<Datum>, last: Option<Datum>, counts: bool, sum: int, since: int,
                    e: Effect)
    requires Summarised(d, after, last, counts, sum, since)
    ensures Summarised(d, Perform(after, e), PutOver(last, e), counts || e.Add?, AddedTo(sum, e),
                       if e.Put? then 0 else AddedTo(since, e))
  {
  }

  lemma {:induction false} PerformAllSummary(d: Option<Datum>, ws: seq<Write>, c: Cell)
    ensures Summarised(d, PerformAll(d, ws, c), Last(ws, c), Counts(ws, c), Sum(ws, c), SinceLast(ws, c))
  {
    if ws != [] {
      hide EffectOf, Summarised, Perform, PutOver, AddedTo;
      var rest, e := ws[..|ws| - 1], EffectOf(ws[|ws| - 1], c);
      PerformAllSummary(d, rest, c);
      SummaryStep(d, PerformAll(d, rest, c), Last(rest, c), Counts(rest, c), Sum(rest, c), SinceLast(rest, c), e);
    }
  }

  /** The increments that a batch puts on the wrong side of the last value of the cell: those after
      it for a plain key, those before it for a hash field. */
  function Misplaced(ws: seq<Write>, c: Cell): int {
    if c.Plain? then SinceLast(ws, c) else Sum(ws, c) - SinceLast(ws, c)
  }

  /** The batch reads like the separate writes exactly when the cell was never given a numeric value,
      or the increments on the wrong side of the last one cancel out. */
  lemma CoalescingExact(d: Option<Datum>, ws: seq<Write>, c: Cell)
    ensures Reading(AfterBatch(BufferedAll(ws), c, d)) == Reading(PerformAll(d, ws, c)) <==>
            !(Last(ws, c).Some? && Last(ws, c).value.Num?) || Misplaced(ws, c) == 0
  {
    BufferHoldsNet(ws, c);
    PerformAllSummary(d, ws, c);
  }

  /** The stores are the same, not only alike to a reader, exactly when in addition the cell is not a
      missing counter whose increments came to zero. */
  lemma CoalescingCreates(d: Option<Datum>, ws: seq<Write>, c: Cell)
    ensures AfterBatch(BufferedAll(ws), c, d) == PerformAll(d, ws, c) <==>
            && (!(Last(ws, c).Some? && Last(ws, c).value.Num?) || Misplaced(ws, c) == 0)
            && !(d.None? && Last(ws, c).None? && Counts(ws, c) && Sum(ws, c) == 0)
  {
    BufferHoldsNet(ws, c);
    PerformAllSummary(d, ws, c);
  }

  /** Each cell is either counted or given values, not both. */
  ghost predicate OneKind(ws: seq<Write>) {
    forall c :: Counts(ws, c) ==> Last(ws, c).None?
  }

  lemma CoalescingPreserves(store: Store, ws: seq<Write>)
    requires OneKind(ws)
    ensures forall c :: Reading(AfterBatch(BufferedAll(ws), c, store(c))) == Reading(PerformAll(store(c), ws, c))
  {
    forall c
      ensures Reading(AfterBatch(BufferedAll(ws), c, store(c))) == Reading(PerformAll(store(c), ws, c))
    {
      CoalescingExact(store(c), ws, c);
      PerformAllSummary(store(c), ws, c);
    }
  }

  /** With both kinds on one cell the batch can differ, in opposite ways for keys and hash fields. */
  lemma MixedKindsDiffer()
    ensures var ws := [Set("k", Num(5)), Incr("k", 1)];
            && Reading(PerformAll(None, ws, Plain("k"))) == Num(6)
            && Reading(AfterBatch(BufferedAll(ws), Plain("k"), None)) == Num(5)
    ensures var ws := [HIncr("k", map["f" := 1]), HMSet("k", map["f" := Num(5)])];
            && Reading(PerformAll(None, ws, Field("k", "f"))) == Num(5)
            && Reading(AfterBatch(BufferedAll(ws), Field("k", "f"), None)) == Num(6)
  {
    var a, b := Set("k", Num(5)), Incr("k", 1);
    var c := Plain("k");
    assert [a, b][..1] == [a] && [a][..0] == [];
    BufferHoldsNet([a, b], c);
    assert Last([a], c) == Some(Num(5)) && Sum([a], c) == 0;
    var x, y := HIncr("k", map["f" := 1]), HMSet("k", map["f" := Num(5)]);
    var f := Field("k", "f");
    assert [x, y][..1] == [x] && [x][..0] == [];
    BufferHoldsNet([x, y], f);
    assert Last([x], f) == None && Sum([x], f) == 1;
    assert PerformAll(None, [x], f) == Some(Num(1));
  }

  // ---------------------------------------------------------------- the commands of a batch

  datatype Command =
    | IncrBy(key: string, amount: int)
    | MSet(values: map<string, Datum>)
    | HMSetAll(key: string, values: map<string, Datum>)
    | HIncrBy(key: string, field: string, amount: int)

  function CommandEffect(cmd: Command, c: Cell): Effect {
    match cmd
    case IncrBy(key, amount) => if c == Plain(key) then Add(amount) else Untouched
    case MSet(values) => if c.Plain? && c.key in values then Put(values[c.key]) else Untouched
    case HMSetAll(key, values) =>
      if c.Field? && c.key == key && c.field in values then Put(values[c.field]) else Untouched
    case HIncrBy(key, field, amount) => if c == Field(key, field) then Add(amount) else Untouched
  }

  function Exec(cmds: seq<Command>, c: Cell, d: Option<Datum>): Option<Datum> {
    if cmds == [] then d else Perform(Exec(cmds[..|cmds| - 1], c, d), CommandEffect(cmds[|cmds| - 1], c))
  }

  lemma {:induction false} ExecThen(a: seq<Command>, b: seq<Command>, c: Cell, d: Option<Datum>)
    ensures Exec(a + b, c, d) == Exec(b, c, Exec(a, c, d))
  {
    if b == [] {
      assert a + b == a;
    } else {
      ExecThen(a, b[..|b| - 1], c, d);
      assert (a + b)[..|a + b| - 1] == a + b[..|b| - 1];
    }
  }

  lemma ExecPush(cmds: seq<Command>, cmd: Command, c: Cell, d: Option<Datum>)
    ensures Exec(cmds + [cmd], c, d) == Perform(Exec(cmds, c, d), CommandEffect(cmd, c))
  {
    assert (cmds + [cmd])[..|cmds|] == cmds;
  }

  /** The net increments of the part of the buffer whose keys are in `done`. */
  function PlainAdd(incr: map<string, int>, done: set<string>, c: Cell): int {
    if c.Plain? && c.key in done && c.key in incr then incr[c.key] else 0
  }

  function FieldAdd(hincr: map<string, map<string, int>>, done: set<string>, c: Cell): int {
    if c.Field? && c.key in done && c.key in hincr && c.field in hincr[c.key] then hincr[c.key][c.field] else 0
  }

  function OneKeyAdd(key: string, update: map<string, int>, done: set<string>, c: Cell): int {
    if c.Field? && c.key == key && c.field in done && c.field in update then update[c.field] else 0
  }

  function PlainPut(values: map<string, Datum>, c: Cell): Option<Datum> {
    if c.Plain? && c.key in values then Some(values[c.key]) else None
  }

  function FieldPut(hset: map<string, map<string, Datum>>, done: set<string>, c: Cell): Option<Datum> {
    if c.Field? && c.key in done && c.key in hset && c.field in hset[c.key] then Some(hset[c.key][c.field]) else None
  }

  method HandleIncr(incr: map<string, int>) returns (cmds: seq<Command>)
    ensures forall c, d :: Exec(cmds, c, d) == AddNonzero(d, PlainAdd(incr, incr.Keys, c))
    ensures cmds == [] <==> forall k :: k in incr ==> incr[k] == 0
  {
    cmds := [];
    var rest := incr.Keys;
    while rest != {}
      invariant rest <= incr.Keys
      invariant forall c, d :: Exec(cmds, c, d) == AddNonzero(d, PlainAdd(incr, incr.Keys - rest, c))
      invariant cmds == [] <==> forall k :: k in incr.Keys - rest ==> incr[k] == 0
      decreases |rest|
    {
      var key :| key in rest;
      if incr[key] != 0 {
        forall c, d
          ensures Exec(cmds + [IncrBy(key, incr[key])], c, d) ==
                  AddNonzero(d, PlainAdd(incr, incr.Keys - (rest - {key}), c))
        {
          ExecPush(cmds, IncrBy(key, incr[key]), c, d);
        }
        cmds := cmds + [IncrBy(key, incr[key])];
      }
      rest := rest - {key};
    }
    assert incr.Keys - rest == incr.Keys;
  }

  method HandleFields(key: string, update: map<string, int>) returns (cmds: seq<Command>)
    ensures forall c, d :: Exec(cmds, c, d) == AddNonzero(d, OneKeyAdd(key, update, update.Keys, c))
    ensures cmds == [] <==> forall f :: f in update ==> update[f] == 0
  {
    cmds := [];
    var rest := update.Keys;
    while rest != {}
      invariant rest <= update.Keys
      invariant forall c, d :: Exec(cmds, c, d) == AddNonzero(d, OneKeyAdd(key, update, update.Keys - rest, c))
      invariant cmds == [] <==> forall f :: f in update.Keys - rest ==> update[f] == 0
      decreases |rest|
    {
      var field :| field in rest;
      if update[field] != 0 {
        forall c, d
          ensures Exec(cmds + [HIncrBy(key, field, update[field])], c, d) ==
                  AddNonzero(d, OneKeyAdd(key, update, update.Keys - (rest - {field}), c))
        {
          ExecPush(cmds, HIncrBy(key, field, update[field]), c, d);
        }
        cmds := cmds + [HIncrBy(key, field, update[field])];
      }
      rest := rest - {field};
    }
    assert update.Keys - rest == update.Keys;
  }

  ghost predicate AllZero(hincr: map<string, map<string, int>>, done: set<string>) {
    forall k, f :: k in done && k in hincr && f in hincr[k] ==> hincr[k][f] == 0
  }

  method HandleHIncr(hincr: map<string, map<string, int>>) returns (cmds: seq<Command>)
    ensures forall c, d :: Exec(cmds, c, d) == AddNonzero(d, FieldAdd(hincr, hincr.Keys, c))
    ensures cmds == [] <==> AllZero(hincr, hincr.Keys)
  {
    cmds := [];
    var rest := hincr.Keys;
    while rest != {}
      invariant rest <= hincr.Keys
      invariant forall c, d :: Exec(cmds, c, d) == AddNonzero(d, FieldAdd(hincr, hincr.Keys - rest, c))
      invariant cmds == [] <==> AllZero(hincr, hincr.Keys - rest)
      decreases |rest|
    {
      var key :| key in rest;
      var more := HandleFields(key, hincr[key]);
      forall c, d
        ensures Exec(cmds + more, c, d) == AddNonzero(d, FieldAdd(hincr, hincr.Keys - (rest - {key}), c))
      {
        ExecThen(cmds, more, c, d);
      }
      cmds := cmds + more;
      rest := rest - {key};
    }
    assert hincr.Keys - rest == hincr.Keys;
  }

  method HandleSet(values: map<string, Datum>) returns (cmds: seq<Command>)
    ensures forall c, d :: Exec(cmds, c, d) == PutIfAny(d, PlainPut(values, c))
    ensures cmds == [] <==> values == map[]
  {
    if values == map[] {
      return [];
    }
    cmds := [MSet(values)];
    forall c, d
      ensures Exec(cmds, c, d) == PutIfAny(d, PlainPut(values, c))
    {
      ExecPush([], MSet(values), c, d);
      assert [] + [MSet(values)] == cmds;
    }
  }

  method HandleHSet(hset: map<string, map<string, Datum>>) returns (cmds: seq<Command>)
    ensures forall c, d :: Exec(cmds, c, d) == PutIfAny(d, FieldPut(hset, hset.Keys, c))
    ensures cmds == [] <==> hset == map[]
  {
    cmds := [];
    var rest := hset.Keys;
    while rest != {}
      invariant rest <= hset.Keys
      invariant forall c, d :: Exec(cmds, c, d) == PutIfAny(d, FieldPut(hset, hset.Keys - rest, c))
      invariant cmds == [] <==> hset.Keys - rest == {}
      decreases |rest|
    {
      var key :| key in rest;
      forall c, d
        ensures Exec(cmds + [HMSetAll(key, hset[key])], c, d) ==
                PutIfAny(d, FieldPut(hset, hset.Keys - (rest - {key}), c))
      {
        ExecPush(cmds, HMSetAll(key, hset[key]), c, d);
      }
      assert key in hset.Keys - (rest - {key});
      cmds := cmds + [HMSetAll(key, hset[key])];
      rest := rest - {key};
    }
    assert hset.Keys - rest == hset.Keys;
  }

  // ---------------------------------------------------------------- the cache

  /** The four maps of the cache hold the abstract buffer. */
  ghost predicate Holds(incr: map<string, int>, hincr: map<string, map<string, int>>,
                        sets: map<string, Datum>, hset: map<string, map<string, Datum>>, buf: Buffer) {
    forall c ::
      && buf.adds(c) == PlainAdd(incr, incr.Keys, c) + FieldAdd(hincr, hincr.Keys, c)
      && buf.puts(c) == PutIfAny(PlainPut(sets, c), FieldPut(hset, hset.Keys, c))
  }

  ghost predicate Quiet(b: Buffer) {
    forall c :: b.adds(c) == 0 && b.puts(c) == None
  }

  function CountAt(counts: map<string, int>, f: string): int {
    if f in counts then counts[f] else 0
  }

  /** `temp` is `counts` with the entries of `update` added whose names are not in `rest`. */
  ghost predicate Merged(temp: map<string, int>, counts: map<string, int>, update: map<string, int>,
                         rest: set<string>) {
    forall f :: CountAt(temp, f) == CountAt(counts, f) + (if f in rest then 0 else CountAt(update, f))
  }

  lemma MergeOne(temp: map<string, int>, counts: map<string, int>, update: map<string, int>, rest: set<string>,
                 k: string)
    requires Merged(temp, counts, update, rest) && k in rest && k in update
    ensures Merged(temp[k := CountAt(temp, k) + update[k]], counts, update, rest - {k})
  {
  }

  /** Adds every entry of an update to the counts. */
  method MergeCounts(counts: map<string, int>, update: map<string, int>) returns (temp: map<string, int>)
    ensures Merged(temp, counts, update, {})
  {
    assert Merged(counts, counts, update, update.Keys);
    hide Merged;
    temp := counts;
    var rest := update.Keys;
    while rest != {}
      invariant rest <= update.Keys
      invariant Merged(temp, counts, update, rest)
      decreases |rest|
    {
      var k :| k in rest;
      MergeOne(temp, counts, update, rest, k);
      temp := temp[k := CountAt(temp, k) + update[k]];
      rest := rest - {k};
    }
  }

  /** One cache: its buffer, its flags and the batches it has sent but not heard about. */
  datatype Instance = Instance(buf: Buffer, changed: bool, flushing: bool, inflight: seq<Buffer>)

  const FRESH := Instance(EmptyBuffer(), false, false, [])

  function Wrote(x: Instance, w: Write): Instance {
    x.(buf := Buffered(x.buf, w), changed := true)
  }

  function Cleared(x: Instance): Instance {
    x.(buf := EmptyBuffer(), changed := false)
  }

  /** `sends` tells whether the buffer came to any commands at all. */
  function Begun(x: Instance, hasLock: bool, sends: bool): Instance {
    if x.flushing then x
    else if !hasLock then Cleared(x)
    else if !x.changed then x
    else if sends then Cleared(x).(flushing := true, inflight := x.inflight + [x.buf])
    else Cleared(x)
  }

  function Ended(x: Instance): Instance {
    if x.inflight == [] then x else x.(flushing := false, inflight := x.inflight[1..])
  }

  class WriteCache {
    var incr: map<string, int>
    var hincr: map<string, map<string, int>>
    var sets: map<string, Datum>
    var hset: map<string, map<string, Datum>>
    var changed: bool
    var isFlushing: bool
    ghost var buf: Buffer
    ghost var inflight: seq<Buffer>

    ghost function View(): Instance
      reads this
    {
      Instance(buf, changed, isFlushing, inflight)
    }

    ghost predicate Kept()
      reads this`incr, this`hincr, this`sets, this`hset, this`changed, this`buf
    {
      && Holds(incr, hincr, sets, hset, buf)
      && (!changed ==> incr == map[] && hincr == map[] && sets == map[] && hset == map[])
    }

    ghost predicate Valid()
      reads this
    {
      Kept() && |inflight| == if isFlushing then 1 else 0
    }

    constructor ()
      ensures Valid() && View() == FRESH
    {
      incr, hincr, sets, hset := map[], map[], map[], map[];
      changed, isFlushing := false, false;
      buf, inflight := EmptyBuffer(), [];
    }

    method Incr(key: string, value: int)
      requires Valid()
      modifies this`incr, this`changed, this`buf
      ensures Valid() && View() == Wrote(old(View()), Write.Incr(key, value))
    {
      incr := incr[key := (if key in incr then incr[key] else 0) + value];
      changed := true;
      buf := Buffered(buf, Write.Incr(key, value));
    }

    method HIncr(key: string, update: map<string, int>)
      requires Valid()
      modifies this`hincr, this`changed, this`buf
      ensures Valid() && View() == Wrote(old(View()), Write.HIncr(key, update))
    {
      ghost var before := hincr;
      IncrementValues(key, update);
      changed := true;
      buf := Buffered(buf, Write.HIncr(key, update));
      forall c
        ensures FieldAdd(hincr, hincr.Keys, c) ==
                AddedTo(FieldAdd(before, before.Keys, c), EffectOf(Write.HIncr(key, update), c))
      {
        if c.Field? && c.key == key {
          assert CountAt(hincr[key], c.field) ==
                 CountAt(if key in before then before[key] else map[], c.field) + CountAt(update, c.field);
        }
      }
    }

    method IncrementValues(key: string, update: map<string, int>)
      modifies this`hincr
      ensures key in hincr && hincr == old(hincr)[key := hincr[key]]
      ensures var counts := if key in old(hincr) then old(hincr)[key] else map[];
              Merged(hincr[key], counts, update, {})
    {
      var temp := MergeCounts(if key in hincr then hincr[key] else map[], update);
      hincr := hincr[key := temp];
    }

    method HMSet(key: string, update: map<string, Datum>)
      requires Valid()
      modifies this`hset, this`changed, this`buf
      ensures Valid() && View() == Wrote(old(View()), Write.HMSet(key, update))
    {
      var existing := if key in hset then hset[key] else map[];
      hset := hset[key := existing + update];
      changed := true;
      buf := Buffered(buf, Write.HMSet(key, update));
    }

    method HSet(key: string, field: string, value: Datum)
      requires Valid()
      modifies this`hset, this`changed, this`buf
      ensures Valid() && View() == Wrote(old(View()), Write.HMSet(key, map[field := value]))
    {
      HMSet(key, map[field := value]);
      changed := true;
    }

    method Set(key: string, value: Datum)
      requires Valid()
      modifies this`sets, this`changed, this`buf
      ensures Valid() && View() == Wrote(old(View()), Write.Set(key, value))
    {
      sets := sets[key := value];
      changed := true;
      buf := Buffered(buf, Write.Set(key, value));
    }

    method ClearBuffer()
      modifies this`incr, this`hincr, this`sets, this`hset, this`changed, this`buf
      ensures Kept() && View() == Cleared(old(View()))
    {
      hincr, hset, incr, sets := map[], map[], map[], map[];
      changed := false;
      buf := EmptyBuffer();
    }

    /** The batch has on every cell the effect of the buffer, and is empty only if that is none. */
    method ProcessBuffer() returns (batch: seq<Command>)
      requires Kept()
      ensures forall c, d :: Exec(batch, c, d) == AfterBatch(buf, c, d)
      ensures (batch == [] ==> Quiet(buf)) && (batch != [] ==> changed)
    {
      batch := [];
      if changed {
        var a := HandleIncr(incr);
        var b := HandleSet(sets);
        var e := HandleHSet(hset);
        var f := HandleHIncr(hincr);
        batch := a + b + e + f;
        forall c, d
          ensures Exec(batch, c, d) == AfterBatch(buf, c, d)
        {
          ExecThen(a + b + e, f, c, d);
          ExecThen(a + b, e, c, d);
          ExecThen(a, b, c, d);
        }
      }
    }

    /** The first half of a flush: the buffer is dropped without the lock, and else sent as one batch,
        which stays in flight until EndFlush. Nothing happens while a batch is in flight. */
    method BeginFlush(hasLock: bool) returns (batch: seq<Command>)
      requires Valid()
      modifies this
      ensures Valid() && View() == Begun(old(View()), hasLock, batch != [])
      ensures batch != [] ==> hasLock && !old(isFlushing) && old(changed) && inflight == [old(buf)]
      ensures batch != [] ==> forall c, d :: Exec(batch, c, d) == AfterBatch(old(buf), c, d)
      ensures batch == [] && hasLock && !old(isFlushing) ==> Quiet(old(buf))
    {
      batch := [];
      if isFlushing {
        return;
      }
      isFlushing := true;
      if !hasLock {
        ClearBuffer();
        isFlushing := false;
        return;
      }
      ghost var sent := buf;
      if changed {
        batch := ProcessBuffer();
        ClearBuffer();
      }
      if batch == [] {
        isFlushing := false;
        return;
      }
      inflight := inflight + [sent];
    }

    /** The second half, whether the batch was executed or failed. */
    method EndFlush()
      requires Valid() && isFlushing
      modifies this`isFlushing, this`inflight
      ensures Valid() && View() == Ended(old(View()))
    {
      isFlushing := false;
      inflight := [];
    }
  }

  /** Any one increment, flushed. */
  method FlushOneIncr(key: string, n: int) returns (batch: seq<Command>)
    ensures forall c, d, m :: Reading(d) == Num(m) ==>
              Reading(Exec(batch, c, d)) == Num(m + if c == Plain(key) then n else 0)
  {
    var cache := new WriteCache();
    cache.Incr(key, n);
    batch := cache.BeginFlush(true);
    OneFlushed(Write.Incr(key, n), batch);
  }

  method FlushOneHIncr(key: string, update: map<string, int>) returns (batch: seq<Command>)
    ensures forall c, d, m :: Reading(d) == Num(m) ==>
              Reading(Exec(batch, c, d)) ==
              Num(m + if c.Field? && c.key == key && c.field in update then update[c.field] else 0)
  {
    var cache := new WriteCache();
    cache.HIncr(key, update);
    batch := cache.BeginFlush(true);
    OneFlushed(Write.HIncr(key, update), batch);
  }

  /** A batch of one increment, or none when it comes to nothing. */
  lemma OneFlushed(w: Write, batch: seq<Command>)
    requires w.Incr? || w.HIncr?
    requires batch != [] ==> forall c, d :: Exec(batch, c, d) == AfterBatch(Buffered(EmptyBuffer(), w), c, d)
    requires batch == [] ==> Quiet(Buffered(EmptyBuffer(), w))
    ensures forall c, d, m :: Reading(d) == Num(m) ==> Reading(Exec(batch, c, d)) == Num(m + AmountFor(w, c))
  {
    var one := [w];
    assert one[..0] == [] && one[|one| - 1] == w;
    assert BufferedAll(one) == Buffered(BufferedAll([]), w) && BufferedAll([]) == EmptyBuffer();
    forall c, d, m | Reading(d) == Num(m)
      ensures Reading(Exec(batch, c, d)) == Num(m + AmountFor(w, c))
    {
      OneWriteArrives(w, c, d);
      if batch == [] {
        assert BufferedAll(one).adds(c) == 0;
        SumIsRequested(one, c);
        BufferHoldsNet(one, c);
      }
    }
  }
}
