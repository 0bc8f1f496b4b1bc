/** Hourly usage rollups: recording, querying and retention, against the plain log of calls. */
module Usage {
  import opened Common
  import opened Text
  import opened Timestamps
  import Keys

  datatype Series = Series(application: string, capability: string, statusClass: string, provider: string, cached: bool)

  datatype RollupKey = RollupKey(bucket: string, series: Series)

  datatype Totals = Totals(requests: nat, tokens: nat, queries: nat)

  const NONE := Totals(0, 0, 0)

  datatype Call = Call(at: int, series: Series, tokens: nat, queries: nat)

  /** The CHECK constraints of usage_rollups. */
  predicate Checked(s: Series) {
    s.capability in Keys.CAPABILITIES && s.statusClass in {"success", "error"}
  }

  predicate InTime(t: int) { 0 <= t < END }

  function KeyOf(c: Call): RollupKey
    requires InTime(c.at)
  {
    HourFloorRange(c.at);
    RollupKey(IsoAt(HourFloor(c.at)), c.series)
  }

  function Add(t: Totals, c: Call): Totals {
    Totals(t.requests + 1, t.tokens + c.tokens, t.queries + c.queries)
  }

  /** The upsert; a row violating a constraint leaves the table as it was. */
  function Record(table: map<RollupKey, Totals>, c: Call): map<RollupKey, Totals>
    requires InTime(c.at)
  {
    var k := KeyOf(c);
    if !Checked(c.series) then table
    else table[k := Add(if k in table then table[k] else NONE, c)]
  }

  predicate CutoffInTime(at: int, days: int) { InTime(at) && 0 <= days && Days(days) <= at }

  /** Timestamp text of `days` days ago. */
  function Since(at: int, days: int): string
    requires CutoffInTime(at, days)
  {
    IsoAt(at - Days(days))
  }

  /** WHERE bucket_hour >= since; what DELETE ... WHERE bucket_hour < since leaves. */
  function NotBefore(table: map<RollupKey, Totals>, since: string): map<RollupKey, Totals> {
    map k | k in table && !LexLess(k.bucket, since) :: table[k]
  }

  function Prune(table: map<RollupKey, Totals>, at: int, days: int): map<RollupKey, Totals>
    requires CutoffInTime(at, days)
  {
    NotBefore(table, Since(at, days))
  }

  /** The rows that the usage query selects. */
  function Query(table: map<RollupKey, Totals>, at: int, days: int): map<RollupKey, Totals>
    requires CutoffInTime(at, days)
  {
    NotBefore(table, Since(at, days))
  }

  type Row = (RollupKey, Totals)

  /** The rows of a table, each once, ordered by their bucket's text. */
  ghost predicate Lists(rows: seq<Row>, table: map<RollupKey, Totals>) {
    && |rows| == |table|
    && (forall i | 0 <= i < |rows| :: rows[i].0 in table && table[rows[i].0] == rows[i].1)
    && (forall i, j | 0 <= i < j < |rows| :: rows[i].0 != rows[j].0)
    && (forall i, j | 0 <= i < j < |rows| ::
          rows[i].0.bucket == rows[j].0.bucket || LexLess(rows[i].0.bucket, rows[j].0.bucket))
  }

  class UsageStore {
    var table: map<RollupKey, Totals>

    constructor ()
      ensures table == map[]
    {
      table := map[];
    }

    /** INSERT ... ON CONFLICT DO UPDATE; false stands for the integrity error. */
    method RecordUsage(now: int, series: Series, tokens: nat, queries: nat) returns (ok: bool)
      requires InTime(now)
      modifies this
      ensures ok <==> Checked(series)
      ensures table == Record(old(table), Call(now, series, tokens, queries))
    {
      hide At, Iso, HourFloor;
      if series.capability !in Keys.CAPABILITIES || series.statusClass !in {"success", "error"} {
        return false;
      }
      ReplaceIsHourFloor(now);
      var key := RollupKey(Iso(At(now).(minute := 0, second := 0, micro := 0)), series);
      if key in table {
        var row := table[key];
        table := table[key := Totals(row.requests + 1, row.tokens + tokens, row.queries + queries)];
      } else {
        table := table[key := Totals(1, tokens, queries)];
      }
      ok := true;
    }

    method UsageRows(now: int, days: int) returns (rows: seq<Row>)
      requires CutoffInTime(now, days)
      ensures Lists(rows, Query(table, now, days))
    {
      var selected := NotBefore(table, IsoAt(now - Days(days)));
      rows := InBucketOrder(selected);
    }

    method PruneUsage(now: int, retentionDays: int) returns (removed: nat)
      requires CutoffInTime(now, retentionDays)
      modifies this
      ensures table == Prune(old(table), now, retentionDays)
      ensures removed == |old(table)| - |table|
    {
      var cutoff := IsoAt(now - Days(retentionDays));
      var kept := NotBefore(table, cutoff);
      SubsetSize(kept.Keys, table.Keys);
      assert |kept.Keys| == |kept| && |table.Keys| == |table|;
      removed := |table| - |kept|;
      table := kept;
    }
  }

  /** ORDER BY bucket_hour */
  method InBucketOrder(selected: map<RollupKey, Totals>) returns (rows: seq<Row>)
    ensures Lists(rows, selected)
  {
    hide LexLess;
    rows := [];
    var todo := selected.Keys;
    while todo != {}
      invariant todo <= selected.Keys && |rows| + |todo| == |selected.Keys|
      invariant forall i | 0 <= i < |rows| ::
        rows[i].0 in selected && rows[i].0 !in todo && selected[rows[i].0] == rows[i].1
      invariant forall i, j | 0 <= i < j < |rows| :: rows[i].0 != rows[j].0
      invariant forall i, j | 0 <= i < j < |rows| ::
        rows[i].0.bucket == rows[j].0.bucket || LexLess(rows[i].0.bucket, rows[j].0.bucket)
      invariant forall i, k | 0 <= i < |rows| && k in todo ::
        rows[i].0.bucket == k.bucket || LexLess(rows[i].0.bucket, k.bucket)
      decreases |todo|
    {
      FirstBucket(todo);
      var k :| k in todo && forall d | d in todo :: d.bucket == k.bucket || LexLess(k.bucket, d.bucket);
      rows := rows + [(k, selected[k])];
      todo := todo - {k};
    }
    assert |selected.Keys| == |selected|;
  }

  lemma FirstBucket(keys: set<RollupKey>)
    requires keys != {}
    ensures exists k :: k in keys && forall d | d in keys :: d.bucket == k.bucket || LexLess(k.bucket, d.bucket)
  {
    var buckets := set k | k in keys :: k.bucket;
    var any :| any in keys;
    assert any.bucket in buckets;
    Least(buckets);
    var m :| m in buckets && forall d | d in buckets :: d == m || LexLess(m, d);
    var k :| k in keys && k.bucket == m;
    assert forall d | d in keys :: d.bucket in buckets;
  }

  lemma SubsetSize<T>(a: set<T>, b: set<T>)
    requires a <= b
    ensures |a| <= |b|
  {
    assert b == a + (b - a);
  }

  // ---------------------------------------------------------------- runs

  datatype Op = RecordOp(call: Call) | PruneOp(at: int, days: int)

  function Time(op: Op): int {
    match op
    case RecordOp(c) => c.at
    case PruneOp(at, _) => at
  }

  ghost predicate WellFormed(op: Op) {
    match op
    case RecordOp(c) => InTime(c.at)
    case PruneOp(at, days) => CutoffInTime(at, days) && days >= 1
  }

  /** A nondecreasing clock, and retention of at least one day as the configuration demands. */
  ghost predicate History(ops: seq<Op>) {
    && (forall i | 0 <= i < |ops| :: WellFormed(ops[i]))
    && (forall i, j | 0 <= i < j < |ops| :: Time(ops[i]) <= Time(ops[j]))
  }

  ghost function Apply(table: map<RollupKey, Totals>, op: Op): map<RollupKey, Totals>
    requires WellFormed(op)
  {
    match op
    case RecordOp(c) => Record(table, c)
    case PruneOp(at, days) => Prune(table, at, days)
  }

  ghost function Run(table: map<RollupKey, Totals>, ops: seq<Op>): map<RollupKey, Totals>
    requires History(ops)
  {
    if ops == [] then table else Apply(Run(table, ops[..|ops| - 1]), ops[|ops| - 1])
  }

  /** The reference: totals over all logged calls of a key whose hour starts at or after the cutoff. */
  ghost function Fold(ops: seq<Op>, k: RollupKey, cutoff: int): Totals
    requires History(ops)
  {
    if ops == [] then NONE
    else
      var rest := Fold(ops[..|ops| - 1], k, cutoff);
      match ops[|ops| - 1]
      case PruneOp(_, _) => rest
      case RecordOp(c) => if Checked(c.series) && KeyOf(c) == k && HourFloor(c.at) >= cutoff then Add(rest, c) else rest
  }

  /** The highest cutoff that pruning has applied so far; 0, the first instant, before any. */
  ghost function Cutoff(ops: seq<Op>): (c: int)
    requires History(ops)
    ensures 0 <= c < END
    ensures ops != [] ==> c == 0 || c + Days(1) <= Time(ops[|ops| - 1])
  {
    if ops == [] then 0
    else
      var rest := Cutoff(ops[..|ops| - 1]);
      match ops[|ops| - 1]
      case RecordOp(_) => rest
      case PruneOp(at, days) => Max(rest, at - Days(days))
  }

  lemma {:induction false} FoldBelowCutoff(ops: seq<Op>, k: RollupKey, cutoff: int)
    requires History(ops) && InTime(cutoff) && LexLess(k.bucket, IsoAt(cutoff))
    ensures Fold(ops, k, cutoff) == NONE
  {
    if ops != [] {
      FoldBelowCutoff(ops[..|ops| - 1], k, cutoff);
      match ops[|ops| - 1]
      case PruneOp(_, _) =>
      case RecordOp(c) =>
        HourFloorRange(c.at);
        TextOrderIsTimeOrder(HourFloor(c.at), cutoff);
    }
  }

  lemma {:induction false} FoldAboveCutoffs(ops: seq<Op>, k: RollupKey, lo: int, hi: int)
    requires History(ops) && 0 <= lo <= hi < END && !LexLess(k.bucket, IsoAt(hi))
    ensures Fold(ops, k, hi) == Fold(ops, k, lo)
  {
    if ops != [] {
      FoldAboveCutoffs(ops[..|ops| - 1], k, lo, hi);
      match ops[|ops| - 1]
      case PruneOp(_, _) =>
      case RecordOp(c) =>
        HourFloorRange(c.at);
        TextOrderIsTimeOrder(HourFloor(c.at), hi);
    }
  }

  /** The table is the fold of the calls whose hour starts at or after the cutoff. */
  ghost predicate TableIsFoldFrom(table: map<RollupKey, Totals>, ops: seq<Op>, cutoff: int)
    requires History(ops)
  {
    forall k :: var f := Fold(ops, k, cutoff);
      (k in table <==> f.requests > 0) && (k in table ==> table[k] == f)
  }

  ghost predicate TableIsFold(table: map<RollupKey, Totals>, ops: seq<Op>)
    requires History(ops)
  {
    TableIsFoldFrom(table, ops, Cutoff(ops))
  }

  lemma OneMoreRecord(ops: seq<Op>, c: Call)
    requires History(ops + [RecordOp(c)]) && History(ops) && InTime(c.at)
    ensures var all := ops + [RecordOp(c)];
      && Cutoff(all) == Cutoff(ops) <= HourFloor(c.at)
      && forall k, cutoff :: Fold(all, k, cutoff) ==
           if Checked(c.series) && KeyOf(c) == k && HourFloor(c.at) >= cutoff
           then Add(Fold(ops, k, cutoff), c) else Fold(ops, k, cutoff)
  {
    hide IsoAt, KeyOf;
    var all := ops + [RecordOp(c)];
    assert all[..|all| - 1] == ops && all[|all| - 1] == RecordOp(c);
    assert WellFormed(all[|all| - 1]);
    HourFloorRange(c.at);
    assert c.at % HOUR < HOUR;
  }

  lemma RecordKeepsFold(table: map<RollupKey, Totals>, ops: seq<Op>, c: Call)
    requires History(ops + [RecordOp(c)]) && History(ops) && TableIsFold(table, ops)
    requires InTime(c.at)
    ensures TableIsFold(Record(table, c), ops + [RecordOp(c)])
  {
    hide IsoAt, KeyOf, Fold, Cutoff, HourFloor, Checked;
    OneMoreRecord(ops, c);
    var cutoff := Cutoff(ops);
    forall k ensures var f := Fold(ops + [RecordOp(c)], k, cutoff);
      (k in Record(table, c) <==> f.requests > 0) && (k in Record(table, c) ==> Record(table, c)[k] == f)
    {
      EmptyFold(ops, k, cutoff);
      assert (k in table <==> Fold(ops, k, cutoff).requests > 0) && (k in table ==> table[k] == Fold(ops, k, cutoff));
    }
  }

  lemma {:induction false} EmptyFold(ops: seq<Op>, k: RollupKey, cutoff: int)
    requires History(ops)
    ensures Fold(ops, k, cutoff).requests == 0 ==> Fold(ops, k, cutoff) == NONE
  {
    if ops != [] { EmptyFold(ops[..|ops| - 1], k, cutoff); }
  }

  lemma PruneKeepsFold(table: map<RollupKey, Totals>, ops: seq<Op>, at: int, days: int)
    requires History(ops + [PruneOp(at, days)]) && History(ops) && TableIsFold(table, ops)
    requires CutoffInTime(at, days) && days >= 1
    ensures TableIsFold(Prune(table, at, days), ops + [PruneOp(at, days)])
  {
    var all := ops + [PruneOp(at, days)];
    assert all[..|all| - 1] == ops && all[|all| - 1] == PruneOp(at, days);
    var before, cut := Cutoff(ops), at - Days(days);
    assert Cutoff(all) == Max(before, cut);
    forall k ensures var f := Fold(all, k, Cutoff(all));
      (k in Prune(table, at, days) <==> f.requests > 0)
        && (k in Prune(table, at, days) ==> Prune(table, at, days)[k] == f) {
      assert Fold(all, k, Cutoff(all)) == Fold(ops, k, Cutoff(all));
      PruneOneKey(table, ops, at, days, k);
    }
  }

  lemma PruneOneKey(table: map<RollupKey, Totals>, ops: seq<Op>, at: int, days: int, k: RollupKey)
    requires History(ops) && TableIsFold(table, ops)
    requires CutoffInTime(at, days)
    ensures var f := Fold(ops, k, Max(Cutoff(ops), at - Days(days)));
      (k in Prune(table, at, days) <==> f.requests > 0) && (k in Prune(table, at, days) ==> table[k] == f)
  {
    hide IsoAt;
    var before, cut := Cutoff(ops), at - Days(days);
    assert (k in table <==> Fold(ops, k, before).requests > 0) && (k in table ==> table[k] == Fold(ops, k, before));
    if LexLess(k.bucket, IsoAt(cut)) {
      if before <= cut {
        FoldBelowCutoff(ops, k, cut);
      } else {
        TextOrderIsTimeOrder(cut, before);
        LessTransitive(k.bucket, IsoAt(cut), IsoAt(before));
        FoldBelowCutoff(ops, k, before);
      }
    } else if before <= cut {
      FoldAboveCutoffs(ops, k, before, cut);
    }
  }

  /** After any sequence of recordings and prunings under a nondecreasing clock, the rollup table is the
      fold of exactly the calls whose hour starts at or after the highest cutoff applied: per key the
      requests, tokens and queries of those calls, and no row for any other key. */
  lemma {:induction false} RollupIsFold(ops: seq<Op>)
    requires History(ops)
    ensures TableIsFold(Run(map[], ops), ops)
  {
    if ops != [] {
      var front, op := ops[..|ops| - 1], ops[|ops| - 1];
      RollupIsFold(front);
      assert front + [op] == ops;
      assert WellFormed(op);
      match op
      case RecordOp(c) => RecordKeepsFold(Run(map[], front), front, c);
      case PruneOp(at, days) => PruneKeepsFold(Run(map[], front), front, at, days);
    }
  }

  // ---------------------------------------------------------------- the reference in plain sums

  const HOUR_US: int := 60 * 60 * 1000000

  /** The call belongs to the row: the row's bucket is the text of the start of the call's hour, all five
      columns are equal, and the row's CHECK constraints hold. */
  ghost predicate Belongs(c: Call, k: RollupKey) {
    && 0 <= c.at < END && k.bucket == IsoAt(c.at - c.at % HOUR_US)
    && c.series.application == k.series.application
    && c.series.capability == k.series.capability
    && c.series.statusClass == k.series.statusClass
    && c.series.provider == k.series.provider
    && c.series.cached == k.series.cached
    && (c.series.capability == "ai" || c.series.capability == "search" || c.series.capability == "fetch")
    && (c.series.statusClass == "success" || c.series.statusClass == "error")
  }

  /** The logged calls of a row whose hour starts at or after the cutoff, in order. */
  ghost function CallsOf(ops: seq<Op>, k: RollupKey, cutoff: int): seq<Call> {
    if ops == [] then []
    else
      var op := ops[|ops| - 1];
      CallsOf(ops[..|ops| - 1], k, cutoff)
      + if op.RecordOp? && Belongs(op.call, k) && op.call.at - op.call.at % HOUR_US >= cutoff then [op.call] else []
  }

  function TokensOf(calls: seq<Call>): nat {
    if calls == [] then 0 else TokensOf(calls[..|calls| - 1]) + calls[|calls| - 1].tokens
  }

  function QueriesOf(calls: seq<Call>): nat {
    if calls == [] then 0 else QueriesOf(calls[..|calls| - 1]) + calls[|calls| - 1].queries
  }

  lemma BelongsIs(c: Call, k: RollupKey)
    requires InTime(c.at)
    ensures Belongs(c, k) <==> Checked(c.series) && KeyOf(c) == k
    ensures c.at - c.at % HOUR_US == HourFloor(c.at)
  {
    hide IsoAt;
    HourFloorRange(c.at);
    assert c.at == c.at / HOUR_US * HOUR_US + c.at % HOUR_US;
  }

  lemma OneMoreCall(calls: seq<Call>, c: Call)
    ensures TokensOf(calls + [c]) == TokensOf(calls) + c.tokens
    ensures QueriesOf(calls + [c]) == QueriesOf(calls) + c.queries
  {
    assert (calls + [c])[..|calls|] == calls;
  }

  lemma {:induction false} FoldIsSums(ops: seq<Op>, k: RollupKey, cutoff: int)
    requires History(ops)
    ensures var calls := CallsOf(ops, k, cutoff);
      Fold(ops, k, cutoff) == Totals(|calls|, TokensOf(calls), QueriesOf(calls))
  {
    hide IsoAt, Belongs, KeyOf, HourFloor;
    if ops != [] {
      var front, op := ops[..|ops| - 1], ops[|ops| - 1];
      FoldIsSums(front, k, cutoff);
      assert WellFormed(op);
      var calls := CallsOf(front, k, cutoff);
      if op.RecordOp? {
        BelongsIs(op.call, k);
        OneMoreCall(calls, op.call);
      }
      assert calls + [] == calls;
    }
  }

  /** After any history the table has, for each row, the number of its logged calls that start at or after the
      highest cutoff, the sum of their tokens and the sum of their queries; and no row without such a call. */
  lemma RollupIsSums(ops: seq<Op>, k: RollupKey)
    requires History(ops)
    ensures var table, calls := Run(map[], ops), CallsOf(ops, k, Cutoff(ops));
      && (k in table <==> calls != [])
      && (k in table ==>
            table[k].requests == |calls| && table[k].tokens == TokensOf(calls) && table[k].queries == QueriesOf(calls))
  {
    RollupIsFold(ops);
    FoldIsSums(ops, k, Cutoff(ops));
  }

  /** The cutoff of the i-th operation, a prune. */
  function CutoffOf(ops: seq<Op>, i: nat): int
    requires i < |ops| && ops[i].PruneOp?
  {
    ops[i].at - Days(ops[i].days)
  }

  lemma {:induction false} CutoffCovers(ops: seq<Op>, i: nat)
    requires History(ops) && i < |ops| && ops[i].PruneOp?
    ensures CutoffOf(ops, i) <= Cutoff(ops)
  {
    if i < |ops| - 1 {
      assert ops[..|ops| - 1][i] == ops[i];
      CutoffCovers(ops[..|ops| - 1], i);
    }
  }

  lemma {:induction false} CutoffReached(ops: seq<Op>)
    requires History(ops)
    ensures Cutoff(ops) == 0 || exists i: nat :: i < |ops| && ops[i].PruneOp? && CutoffOf(ops, i) == Cutoff(ops)
  {
    if ops != [] {
      var n := |ops| - 1;
      CutoffReached(ops[..n]);
      if Cutoff(ops[..n]) == Cutoff(ops) && Cutoff(ops) != 0 {
        var i: nat :| i < n && ops[i].PruneOp? && CutoffOf(ops[..n], i) == Cutoff(ops);
        assert CutoffOf(ops, i) == Cutoff(ops);
      } else if Cutoff(ops) != 0 {
        assert CutoffOf(ops, n) == Cutoff(ops);
      }
    }
  }

  /** A prune is the one that counts exactly when no other has cut later, which an operator can check
      before changing the retention; with one retention setting the latest prune always is. */
  lemma LatestCutoffIsHighest(ops: seq<Op>, i: nat)
    requires History(ops) && i < |ops| && ops[i].PruneOp?
    ensures Cutoff(ops) == CutoffOf(ops, i) <==>
              forall j: nat | j < |ops| && ops[j].PruneOp? :: CutoffOf(ops, j) <= CutoffOf(ops, i)
    ensures (forall j | i < j < |ops| :: ops[j].RecordOp?)
            && (forall j | 0 <= j < i && ops[j].PruneOp? :: ops[j].days == ops[i].days) ==>
              Cutoff(ops) == CutoffOf(ops, i)
  {
    forall j: nat | j < |ops| && ops[j].PruneOp? ensures CutoffOf(ops, j) <= Cutoff(ops) {
      CutoffCovers(ops, j);
    }
    assert WellFormed(ops[i]);
    CutoffReached(ops);
    assert forall j | 0 <= j < i :: Time(ops[j]) <= Time(ops[i]);
  }

  /** A logged call that a lower cutoff would count and the highest one does not. */
  ghost predicate Forgotten(ops: seq<Op>, c: Call, lower: int)
    requires History(ops)
  {
    RecordOp(c) in ops && InTime(c.at) && Checked(c.series) && lower <= HourFloor(c.at) < Cutoff(ops)
  }

  lemma {:induction false} SameFold(ops: seq<Op>, k: RollupKey, lo: int, hi: int)
    requires History(ops) && lo <= hi
    requires forall c | RecordOp(c) in ops && InTime(c.at) && Checked(c.series) :: !(lo <= HourFloor(c.at) < hi)
    ensures Fold(ops, k, lo) == Fold(ops, k, hi)
  {
    if ops != [] {
      assert ops[|ops| - 1] in ops && WellFormed(ops[|ops| - 1]);
      SameFold(ops[..|ops| - 1], k, lo, hi);
    }
  }

  /** Below the highest cutoff: the table is the fold from a lower cutoff, that of the latest prune for
      one, exactly when no logged call has its hour between the two. */
  lemma FoldFromLowerExactly(ops: seq<Op>, lower: int)
    requires History(ops) && 0 <= lower <= Cutoff(ops)
    ensures TableIsFoldFrom(Run(map[], ops), ops, lower) <==> !exists c :: Forgotten(ops, c, lower)
  {
    hide IsoAt, HourFloor, KeyOf;
    RollupIsFold(ops);
    var table := Run(map[], ops);
    if c :| Forgotten(ops, c, lower) {
      RecordedCounts(ops, c, lower);
      FoldHas(ops, c);
      assert Fold(ops, KeyOf(c), lower).requests > 0 && KeyOf(c) !in table;
    } else {
      forall k ensures Fold(ops, k, lower) == Fold(ops, k, Cutoff(ops)) {
        forall c | RecordOp(c) in ops && InTime(c.at) && Checked(c.series)
          ensures !(lower <= HourFloor(c.at) < Cutoff(ops))
        {
          assert !Forgotten(ops, c, lower);
        }
        SameFold(ops, k, lower, Cutoff(ops));
      }
    }
  }

  /** SQL's text comparison of a call's bucket with a cutoff is the comparison of the two instants. */
  lemma BucketBefore(c: Call, cut: int)
    requires InTime(c.at) && InTime(cut)
    ensures LexLess(KeyOf(c).bucket, IsoAt(cut)) <==> HourFloor(c.at) < cut
  {
    hide IsoAt;
    HourFloorRange(c.at);
    TextOrderIsTimeOrder(HourFloor(c.at), cut);
  }

  lemma PruneRemoves(table: map<RollupKey, Totals>, at: int, days: int, c: Call)
    requires CutoffInTime(at, days) && InTime(c.at)
    ensures KeyOf(c) in Prune(table, at, days) <==> KeyOf(c) in table && HourFloor(c.at) >= at - Days(days)
  {
    hide IsoAt;
    BucketBefore(c, at - Days(days));
  }

  /** When retention grows, the latest cutoff is not enough: a call newer than it can be gone already. */
  lemma GrowingRetentionDoesNotRestore(t: int, series: Series)
    requires Days(31) <= t && t + Days(2) < END && Checked(series)
    ensures var c := Call(t, series, 0, 0);
      var ops := [RecordOp(c), PruneOp(t + Days(2), 1), PruneOp(t + Days(2), 30)];
      && History(ops)
      && HourFloor(t) >= (t + Days(2)) - Days(30)
      && KeyOf(c) !in Run(map[], ops)
  {
    hide IsoAt;
    var c, at := Call(t, series, 0, 0), t + Days(2);
    var ops := [RecordOp(c), PruneOp(at, 1), PruneOp(at, 30)];
    HourFloorRange(t);
    assert t % HOUR < HOUR;
    assert History(ops);
    var two := ops[..2];
    assert two[..1] == [RecordOp(c)] && two[1] == PruneOp(at, 1) && ops[2] == PruneOp(at, 30);
    PruneRemoves(Run(map[], two[..1]), at, 1, c);
    assert Run(map[], two) == Prune(Run(map[], two[..1]), at, 1);
    PruneRemoves(Run(map[], two), at, 30, c);
    assert Run(map[], ops) == Prune(Run(map[], two), at, 30);
  }

  // ---------------------------------------------------------------- pruning is invisible to queries

  ghost predicate AgreeFrom(a: map<RollupKey, Totals>, b: map<RollupKey, Totals>, cut: string) {
    forall k: RollupKey | !LexLess(k.bucket, cut) :: (k in a <==> k in b) && (k in a ==> a[k] == b[k])
  }

  lemma {:induction false} RunsAgree(a: map<RollupKey, Totals>, b: map<RollupKey, Totals>, cut: string, ops: seq<Op>)
    requires History(ops) && AgreeFrom(a, b, cut)
    ensures AgreeFrom(Run(a, ops), Run(b, ops), cut)
  {
    if ops != [] {
      RunsAgree(a, b, cut, ops[..|ops| - 1]);
      assert WellFormed(ops[|ops| - 1]);
    }
  }

  lemma AgreeFromLater(a: map<RollupKey, Totals>, b: map<RollupKey, Totals>, cut: string, since: string)
    requires AgreeFrom(a, b, cut) && (cut == since || LexLess(cut, since))
    ensures AgreeFrom(a, b, since)
  {
    forall k: RollupKey | !LexLess(k.bucket, since)
      ensures !LexLess(k.bucket, cut)
    {
      if LexLess(k.bucket, cut) && cut != since {
        LessTransitive(k.bucket, cut, since);
      }
    }
  }

  lemma SinceOrder(at: int, retention: int, later: int, days: int)
    requires CutoffInTime(at, retention) && CutoffInTime(later, days) && at <= later && days <= retention
    ensures Since(at, retention) == Since(later, days) || LexLess(Since(at, retention), Since(later, days))
  {
    hide IsoAt;
    TextOrderIsTimeOrder(at - Days(retention), later - Days(days));
  }

  lemma PrunedAgrees(table: map<RollupKey, Totals>, at: int, days: int)
    requires CutoffInTime(at, days)
    ensures AgreeFrom(Prune(table, at, days), table, Since(at, days))
  {
  }

  lemma AgreeingQueries(a: map<RollupKey, Totals>, b: map<RollupKey, Totals>, at: int, days: int)
    requires CutoffInTime(at, days) && AgreeFrom(a, b, Since(at, days))
    ensures Query(a, at, days) == Query(b, at, days)
  {
  }

  /** Pruning with a retention of R days, at any point of any history, changes no later query of d <= R
      days, whatever is recorded and pruned in between. */
  lemma PruningIsInvisible(table: map<RollupKey, Totals>, at: int, retention: int, ops: seq<Op>, later: int, days: int)
    requires CutoffInTime(at, retention) && CutoffInTime(later, days) && History(ops)
    requires at <= later && days <= retention
    ensures Query(Run(Prune(table, at, retention), ops), later, days) == Query(Run(table, ops), later, days)
  {
    hide IsoAt;
    var a, b := Run(Prune(table, at, retention), ops), Run(table, ops);
    PrunedAgrees(table, at, retention);
    RunsAgree(Prune(table, at, retention), table, Since(at, retention), ops);
    SinceOrder(at, retention, later, days);
    AgreeFromLater(a, b, Since(at, retention), Since(later, days));
    AgreeingQueries(a, b, later, days);
  }

  lemma QueryHas(table: map<RollupKey, Totals>, at: int, days: int, c: Call)
    requires CutoffInTime(at, days) && InTime(c.at)
    ensures KeyOf(c) in Query(table, at, days) <==> KeyOf(c) in table && HourFloor(c.at) >= at - Days(days)
  {
    hide IsoAt;
    BucketBefore(c, at - Days(days));
  }

  lemma FoldHas(ops: seq<Op>, c: Call)
    requires History(ops) && RecordOp(c) in ops && Checked(c.series) && InTime(c.at)
    ensures Fold(ops, KeyOf(c), Cutoff(ops)).requests > 0 <==> HourFloor(c.at) >= Cutoff(ops)
  {
    hide IsoAt;
    if HourFloor(c.at) >= Cutoff(ops) {
      RecordedCounts(ops, c, Cutoff(ops));
    } else {
      BucketBefore(c, Cutoff(ops));
      FoldBelowCutoff(ops, KeyOf(c), Cutoff(ops));
    }
  }

  /** The query selects exactly the recorded calls' hours that start within the last `days` days, as far
      as pruning has kept them. */
  lemma QuerySelectsRecentHours(ops: seq<Op>, c: Call, later: int, days: int)
    requires History(ops) && CutoffInTime(later, days) && RecordOp(c) in ops && Checked(c.series)
    requires InTime(c.at)
    ensures KeyOf(c) in Query(Run(map[], ops), later, days) <==>
            var hour := c.at - c.at % HOUR_US;
            hour >= later - days * 24 * 60 * 60 * 1000000 && hour >= Cutoff(ops)
  {
    hide IsoAt;
    var table := Run(map[], ops);
    QueryHas(table, later, days, c);
    FoldHas(ops, c);
    RollupIsFold(ops);
    var k := KeyOf(c);
    assert k in table <==> Fold(ops, k, Cutoff(ops)).requests > 0;
  }

  lemma {:induction false} RecordedCounts(ops: seq<Op>, c: Call, cutoff: int)
    requires History(ops) && RecordOp(c) in ops && Checked(c.series) && InTime(c.at) && HourFloor(c.at) >= cutoff
    ensures Fold(ops, KeyOf(c), cutoff).requests > 0
  {
    if ops[|ops| - 1] != RecordOp(c) {
      RecordedCounts(ops[..|ops| - 1], c, cutoff);
    }
  }
}
