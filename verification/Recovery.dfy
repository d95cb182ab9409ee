/** Recovery in batches: the same rows as one bulk recovery, and a backlog that is always drained. */
module Recovery {
  import opened Domain
  import opened Queue
  import opened Invariants
  import S = Store

  /** All listed rows recovered at once. */
  function Bulk(cfg: Config, rows: seq<Row>, list: WorkList): seq<Row> {
    seq(|rows|, i requires 0 <= i < |rows| =>
      if list.Lists(rows[i]) then Recovered(cfg, rows[i], list.now) else rows[i])
  }

  function Batches(cfg: Config, rows: seq<Row>, list: WorkList, sizes: seq<nat>): (after: seq<Row>)
    ensures |after| == |rows|
  {
    if sizes == [] then rows
    else RecoverBatch(cfg, Batches(cfg, rows, list, sizes[..|sizes| - 1]), list, sizes[|sizes| - 1])
  }

  /** Some listed rows have been recovered, and nothing else has changed. */
  ghost predicate Partial(cfg: Config, before: seq<Row>, after: seq<Row>, list: WorkList) {
    && |after| == |before|
    && forall j :: 0 <= j < |before| ==>
         after[j] == before[j] || (list.Lists(before[j]) && after[j] == Recovered(cfg, before[j], list.now))
  }

  lemma BatchIsPartial(cfg: Config, before: seq<Row>, rows: seq<Row>, list: WorkList, limit: nat)
    requires list.Expired? && Partial(cfg, before, rows, list)
    ensures Partial(cfg, before, RecoverBatch(cfg, rows, list, limit), list)
  {
    var after := RecoverBatch(cfg, rows, list, limit);
    forall j | 0 <= j < |before|
      ensures after[j] == before[j] || (list.Lists(before[j]) && after[j] == Recovered(cfg, before[j], list.now))
    {
      BatchPointwise(cfg, rows, list, limit, j);
    }
  }

  /** A partial recovery that has left nothing on the list is the bulk recovery. */
  lemma DrainedIsBulk(cfg: Config, before: seq<Row>, after: seq<Row>, list: WorkList)
    requires Partial(cfg, before, after, list) && First(list, after) < 0
    ensures after == Bulk(cfg, before, list)
  {
    forall j | 0 <= j < |before| ensures after[j] == Bulk(cfg, before, list)[j] {
      assert !list.Lists(after[j]);
    }
  }

  /** Recovered in bulk, every row whose lease has run out is released, and every other row is left alone. */
  lemma BulkReleases(cfg: Config, rows: seq<Row>, now: int, locked: set<Id>, j: nat)
    requires j < |rows| && Shape(rows[j])
    ensures var after := Bulk(cfg, rows, Expired(now, locked));
            if RunOut(rows[j], now, locked) then Released(cfg, rows[j], after[j], now) else after[j] == rows[j]
  {
  }

  /** A batch of size n takes n rows off the list, or all of them. */
  lemma {:induction false} BatchShrinksBacklog(cfg: Config, rows: seq<Row>, list: WorkList, limit: nat)
    requires list.Expired?
    ensures var left := Backlog(RecoverBatch(cfg, rows, list, limit), list);
            left == if limit <= Backlog(rows, list) then Backlog(rows, list) - limit else 0
    decreases limit
  {
    if limit > 0 {
      var front := RecoverBatch(cfg, rows, list, limit - 1);
      var i := First(list, front);
      BatchShrinksBacklog(cfg, rows, list, limit - 1);
      EmptyBacklog(front, list);
      if i >= 0 { BacklogUpdate(front, list, i, Recovered(cfg, front[i], list.now)); }
    }
  }

  function Sum(sizes: seq<nat>): nat {
    if sizes == [] then 0 else Sum(sizes[..|sizes| - 1]) + sizes[|sizes| - 1]
  }

  lemma {:induction false} BatchesShrinkBacklog(cfg: Config, rows: seq<Row>, list: WorkList, sizes: seq<nat>)
    requires list.Expired?
    ensures Partial(cfg, rows, Batches(cfg, rows, list, sizes), list)
    ensures var left := Backlog(Batches(cfg, rows, list, sizes), list);
            left == if Sum(sizes) <= Backlog(rows, list) then Backlog(rows, list) - Sum(sizes) else 0
  {
    if sizes != [] {
      var front, last := sizes[..|sizes| - 1], sizes[|sizes| - 1];
      BatchesShrinkBacklog(cfg, rows, list, front);
      BatchIsPartial(cfg, rows, Batches(cfg, rows, list, front), list, last);
      BatchShrinksBacklog(cfg, Batches(cfg, rows, list, front), list, last);
    }
  }

  /** Batches of any sizes equal the bulk recovery exactly when together they cover the backlog. */
  lemma BatchesEqualBulk(cfg: Config, rows: seq<Row>, list: WorkList, sizes: seq<nat>)
    requires list.Expired?
    ensures Batches(cfg, rows, list, sizes) == Bulk(cfg, rows, list) <==> Sum(sizes) >= Backlog(rows, list)
  {
    var after := Batches(cfg, rows, list, sizes);
    BatchesShrinkBacklog(cfg, rows, list, sizes);
    EmptyBacklog(after, list);
    if First(list, after) < 0 {
      DrainedIsBulk(cfg, rows, after, list);
    } else {
      assert list.Lists(after[First(list, after)]);
      BulkListsNothing(cfg, rows, list);
    }
  }

  lemma BulkListsNothing(cfg: Config, rows: seq<Row>, list: WorkList)
    requires list.Expired?
    ensures forall j :: 0 <= j < |rows| ==> !list.Lists(Bulk(cfg, rows, list)[j])
  {
  }

  /**
   The recovery loop, until a call reports that nothing was left. A call may run into its
   deadline, committed or not, unless it has at most one row to recover; then the batch is
   halved. The loop still ends, with the rows of one bulk recovery.
   */
  method Drain(store: S.Store, timesOut: (nat, nat) -> bool, commits: nat -> bool) returns (calls: nat)
    requires store.Valid() && S.Stored(store.db.rows)
    requires forall call: nat, size: nat :: size <= 1 ==> !timesOut(call, size)
    modifies store.db, store`recoveryBatchSize
    ensures store.Valid() && store.recoveryBatchSize <= old(store.recoveryBatchSize)
    ensures var bulk := Bulk(store.cfg, old(store.db.rows), Expired(old(store.db.now), {}));
            store.db.State() == old(store.db.State()).(rows := bulk)
  {
    ghost var before := store.db.rows;
    ghost var list := Expired(store.db.now, {});
    calls := 0;
    var drained := false;
    while !drained
      invariant store.Valid() && S.Stored(store.db.rows)
      invariant store.recoveryBatchSize <= old(store.recoveryBatchSize)
      invariant Partial(store.cfg, before, store.db.rows, list)
      invariant store.db.State() == old(store.db.State()).(rows := store.db.rows)
      invariant drained ==> First(list, store.db.rows) < 0
      decreases !drained, store.recoveryBatchSize, Backlog(store.db.rows, list)
    {
      BatchIsPartial(store.cfg, before, store.db.rows, list, store.recoveryBatchSize);
      var size := BatchRows(store);
      drained := Round(store, timesOut(calls, size), commits(calls));
      calls := calls + 1;
    }
    DrainedIsBulk(store.cfg, before, store.db.rows, list);
  }

  lemma BatchProgress(cfg: Config, rows: seq<Row>, list: WorkList, limit: nat)
    requires list.Expired? && limit > 0
    ensures var after := RecoverBatch(cfg, rows, list, limit);
            if Backlog(rows, list) == 0 then First(list, after) < 0 else Backlog(after, list) < Backlog(rows, list)
  {
    BatchShrinksBacklog(cfg, rows, list, limit);
    EmptyBacklog(RecoverBatch(cfg, rows, list, limit), list);
  }

  lemma RoundEnds(cfg: Config, before: State, after: State, size: nat, fault: S.Fault)
    requires size > 0 && after == S.Effect(cfg, before, Recover({}, size), fault)
    ensures var list := Expired(before.now, {});
            && (after.rows == RecoverBatch(cfg, before.rows, list, size) || after.rows == before.rows)
            && after == before.(rows := after.rows)
            && (fault.NoFault? ==>
                  if Backlog(before.rows, list) == 0 then First(list, after.rows) < 0
                  else Backlog(after.rows, list) < Backlog(before.rows, list))
  {
    BatchProgress(cfg, before.rows, Expired(before.now, {}), size);
  }

  /** One call either shrinks the batch, or shrinks the backlog, or reports that it was empty. */
  method Round(store: S.Store, timesOut: bool, commits: bool) returns (drained: bool)
    requires store.Valid() && S.Stored(store.db.rows)
    requires timesOut ==> store.recoveryBatchSize > 1
    modifies store.db, store`recoveryBatchSize
    ensures store.Valid() && S.Stored(store.db.rows)
    ensures var list := Expired(old(store.db.now), {});
            var batch := RecoverBatch(store.cfg, old(store.db.rows), list, old(store.recoveryBatchSize));
            && (store.db.rows == batch || store.db.rows == old(store.db.rows))
            && store.db.State() == old(store.db.State()).(rows := store.db.rows)
            && (drained ==> First(list, store.db.rows) < 0)
            && (!drained && !timesOut ==> Backlog(store.db.rows, list) < Backlog(old(store.db.rows), list))
    ensures if timesOut then store.recoveryBatchSize < old(store.recoveryBatchSize) && !drained
            else store.recoveryBatchSize == old(store.recoveryBatchSize)
  {
    ghost var before, size := store.db.State(), store.recoveryBatchSize;
    var fault := if !timesOut then S.NoFault else if commits then S.ReplyLost else S.NotRun;
    var recovered, _ := store.RecoverExpired({}, fault, true);
    drained := recovered.Ok? && |recovered.value| == 0;
    RoundEnds(store.cfg, before, store.db.State(), size, fault);
  }

  /** How many rows the next batch has to recover. */
  method BatchRows(store: S.Store) returns (size: nat)
    requires store.Valid()
    ensures var backlog := Backlog(store.db.rows, Expired(store.db.now, {}));
            size == if backlog < store.recoveryBatchSize then backlog else store.recoveryBatchSize
  {
    var backlog := Backlog(store.db.rows, Expired(store.db.now, {}));
    size := if backlog < store.recoveryBatchSize then backlog else store.recoveryBatchSize;
  }
}
