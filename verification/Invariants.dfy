/** What every step keeps: the row life cycle, the table constraints, capacity and the latest projection. */
module Invariants {
  import opened Domain
  import opened Queue

  // ---- the life cycle of one row

  /** How many transitions a row has made: each claim and each release of a claim counts one. */
  function Phase(r: Row): int {
    2 * r.attempt - if r.status.Processing? then 1 else 0
  }

  predicate SameRequest(a: Row, b: Row) {
    a.id == b.id && a.requestSeq == b.requestSeq && a.pair == b.pair && a.key == b.key && a.createdAt == b.createdAt
  }

  /** One transition of an active row. */
  predicate Moves(cfg: Config, a: Row, b: Row) {
    Active(a) && SameRequest(a, b) && Phase(b) == Phase(a) + 1 && RowOk(cfg, b)
  }

  /** Any number of transitions: no phase is visited twice, and a finished row stays as it is. */
  predicate Evolves(a: Row, b: Row) {
    SameRequest(a, b) && Phase(a) <= Phase(b) && (Terminal(a) || Phase(a) == Phase(b) ==> a == b)
  }

  ghost predicate RowsOk(cfg: Config, rows: seq<Row>) {
    forall i :: 0 <= i < |rows| ==> RowOk(cfg, rows[i])
  }

  /** Every row is unchanged or has made one transition. */
  ghost predicate Advances(cfg: Config, before: seq<Row>, after: seq<Row>) {
    && |after| == |before|
    && forall i :: 0 <= i < |before| ==> after[i] == before[i] || Moves(cfg, before[i], after[i])
  }

  ghost predicate AllEvolve(before: seq<Row>, after: seq<Row>) {
    && |before| <= |after|
    && forall i :: 0 <= i < |before| ==> Evolves(before[i], after[i])
  }

  lemma EvolveTransitive(a: seq<Row>, b: seq<Row>, c: seq<Row>)
    requires AllEvolve(a, b) && AllEvolve(b, c)
    ensures AllEvolve(a, c)
  {
    forall i | 0 <= i < |a| ensures Evolves(a[i], c[i]) {
      assert Evolves(a[i], b[i]) && Evolves(b[i], c[i]);
    }
  }

  /** A batch changes listed rows only, and each of them by one recovery. */
  lemma {:induction false} BatchPointwise(cfg: Config, rows: seq<Row>, list: WorkList, limit: nat, j: nat)
    requires list.Expired? && j < |rows|
    ensures var after := RecoverBatch(cfg, rows, list, limit);
            after[j] == rows[j] || (list.Lists(rows[j]) && after[j] == Recovered(cfg, rows[j], list.now))
    decreases limit
  {
    if limit > 0 {
      BatchPointwise(cfg, rows, list, limit - 1, j);
      assert !list.Lists(Recovered(cfg, rows[j], list.now));
    }
  }

  /** What a recovery leaves of a claim: due at once below the attempt limit, failed at it. */
  predicate Released(cfg: Config, a: Row, b: Row, now: int) {
    && SameRequest(a, b) && b.attempt == a.attempt && b.leaseUntil.None?
    && if a.attempt < cfg.maxAttempts then b.status.Pending? && b.nextAttemptAt == Some(now) && b.failure.None?
       else b.status.Failed? && b.finishedAt == Some(now) && b.failure == Some(AttemptsExhausted)
  }

  /** A batch changes only rows whose lease has run out, and releases each of them. */
  lemma BatchReleases(cfg: Config, rows: seq<Row>, now: int, locked: set<Id>, limit: nat, j: nat)
    requires j < |rows| && Shape(rows[j])
    ensures var after := RecoverBatch(cfg, rows, Expired(now, locked), limit);
            after[j] != rows[j] ==> RunOut(rows[j], now, locked) && Released(cfg, rows[j], after[j], now)
  {
    BatchPointwise(cfg, rows, Expired(now, locked), limit, j);
  }

  /** One more recovery leaves rows alone that are still out, and takes one that is no later than they are. */
  lemma OneMoreTaken(cfg: Config, front: seq<Row>, after: seq<Row>, now: int, locked: set<Id>, k: nat)
    requires First(Expired(now, locked), front) >= 0 && k < |front|
    requires var i := First(Expired(now, locked), front); after == front[i := Recovered(cfg, front[i], now)]
    requires RunOut(after[k], now, locked)
    ensures var i := First(Expired(now, locked), front);
            && after[k] == front[k] && RunOut(front[i], now, locked)
            && NoLater(front[i].leaseUntil.value, front[i].requestSeq,
                       front[k].leaseUntil.value, front[k].requestSeq)
  {
    RecoveryTakesEarliest(front, now, locked);
  }

  /** A batch takes the rows whose lease ran out first, in request order among equals. */
  lemma {:induction false} BatchTakesEarliest(cfg: Config, rows: seq<Row>, now: int, locked: set<Id>, limit: nat,
                                              j: nat, k: nat)
    requires j < |rows| && k < |rows|
    requires var after := RecoverBatch(cfg, rows, Expired(now, locked), limit);
             after[j] != rows[j] && RunOut(after[k], now, locked)
    ensures RunOut(rows[j], now, locked) && RunOut(rows[k], now, locked)
    ensures NoLater(rows[j].leaseUntil.value, rows[j].requestSeq, rows[k].leaseUntil.value, rows[k].requestSeq)
    decreases limit
  {
    var list := Expired(now, locked);
    var front, after := RecoverBatch(cfg, rows, list, limit - 1), RecoverBatch(cfg, rows, list, limit);
    if First(list, front) >= 0 { OneMoreTaken(cfg, front, after, now, locked, k); }
    if front[j] != rows[j] {
      BatchTakesEarliest(cfg, rows, now, locked, limit - 1, j, k);
    } else {
      StillOut(cfg, rows, now, locked, limit - 1, k);
    }
  }

  /** A row whose lease is still out after a batch has not been touched by it. */
  lemma StillOut(cfg: Config, rows: seq<Row>, now: int, locked: set<Id>, limit: nat, k: nat)
    requires k < |rows| && RunOut(RecoverBatch(cfg, rows, Expired(now, locked), limit)[k], now, locked)
    ensures RecoverBatch(cfg, rows, Expired(now, locked), limit)[k] == rows[k]
  {
    BatchPointwise(cfg, rows, Expired(now, locked), limit, k);
  }

  lemma RecoveredMoves(cfg: Config, r: Row, now: int, locked: set<Id>)
    requires cfg.Valid() && RowOk(cfg, r) && Expired(now, locked).Lists(r)
    ensures Moves(cfg, r, Recovered(cfg, r, now))
  {
  }

  lemma BatchAdvances(cfg: Config, rows: seq<Row>, now: int, locked: set<Id>, limit: nat)
    requires cfg.Valid() && RowsOk(cfg, rows)
    ensures Advances(cfg, rows, RecoverBatch(cfg, rows, Expired(now, locked), limit))
  {
    var list := Expired(now, locked);
    var after := RecoverBatch(cfg, rows, list, limit);
    forall j | 0 <= j < |rows| ensures after[j] == rows[j] || Moves(cfg, rows[j], after[j]) {
      BatchPointwise(cfg, rows, list, limit, j);
      if after[j] != rows[j] { RecoveredMoves(cfg, rows[j], now, locked); }
    }
  }

  /** A claim or a fenced write moves at most one row. */
  lemma OneRowAdvances(cfg: Config, s: State, step: Step)
    requires cfg.Valid() && RowsOk(cfg, s.rows) && Disciplined(cfg, step)
    requires step.Claim? || step.Complete? || step.Retry? || step.Fail?
    ensures Advances(cfg, s.rows, Apply(cfg, s, step).rows)
  {
    var i := if step.Claim? then First(Ready(s.now, step.locked), s.rows) else Owned(s.rows, step.id, step.attempt);
    if i >= 0 { assert RowOk(cfg, s.rows[i]); }
  }

  /** Every statement of a worker moves rows along their life cycle and touches nothing else. */
  lemma BackgroundAdvances(cfg: Config, s: State, step: Step)
    requires cfg.Valid() && RowsOk(cfg, s.rows) && Disciplined(cfg, step) && Background(step)
    ensures var t := Apply(cfg, s, step);
            && Advances(cfg, s.rows, t.rows)
            && t.admission == s.admission && t.nextSeq == s.nextSeq && s.now <= t.now
  {
    if step.Recover? {
      BatchAdvances(cfg, s.rows, s.now, step.locked, step.limit);
    } else if !step.Tick? {
      OneRowAdvances(cfg, s, step);
    }
  }

  lemma AdvancesEvolves(cfg: Config, before: seq<Row>, after: seq<Row>)
    requires Advances(cfg, before, after)
    ensures AllEvolve(before, after)
  {
  }

  // ---- the backlog of a work list

  function Backlog(rows: seq<Row>, list: WorkList): nat {
    BacklogUpTo(rows, list, |rows|)
  }

  function BacklogUpTo(rows: seq<Row>, list: WorkList, n: nat): (count: nat)
    requires n <= |rows|
    ensures count <= n
  {
    if n == 0 then 0 else BacklogUpTo(rows, list, n - 1) + if list.Lists(rows[n - 1]) then 1 else 0
  }

  lemma {:induction false} BacklogUpToUpdate(rows: seq<Row>, list: WorkList, n: nat, i: nat, r: Row)
    requires n <= |rows| && i < |rows| && list.Lists(rows[i]) && !list.Lists(r)
    ensures BacklogUpTo(rows[i := r], list, n) == BacklogUpTo(rows, list, n) - if i < n then 1 else 0
  {
    if n > 0 { BacklogUpToUpdate(rows, list, n - 1, i, r); }
  }

  lemma BacklogUpdate(rows: seq<Row>, list: WorkList, i: nat, r: Row)
    requires i < |rows| && list.Lists(rows[i]) && !list.Lists(r)
    ensures Backlog(rows[i := r], list) == Backlog(rows, list) - 1
  {
    BacklogUpToUpdate(rows, list, |rows|, i, r);
  }

  lemma {:induction false} EmptyBacklogUpTo(rows: seq<Row>, list: WorkList, n: nat)
    requires n <= |rows|
    ensures BacklogUpTo(rows, list, n) == 0 <==> FirstUpTo(list, rows, n) < 0
  {
    if n > 0 { EmptyBacklogUpTo(rows, list, n - 1); }
  }

  lemma EmptyBacklog(rows: seq<Row>, list: WorkList)
    ensures Backlog(rows, list) == 0 <==> First(list, rows) < 0
  {
    EmptyBacklogUpTo(rows, list, |rows|);
  }

  // ---- capacity

  lemma {:induction false} ActiveCountMonotone(before: seq<Row>, after: seq<Row>)
    requires |before| == |after|
    requires forall i :: 0 <= i < |before| && Active(after[i]) ==> Active(before[i])
    ensures ActiveCount(after) <= ActiveCount(before)
  {
    if before != [] {
      var n := |before| - 1;
      ActiveCountMonotone(before[..n], after[..n]);
    }
  }

  lemma EvolveKeepsCapacity(before: seq<Row>, after: seq<Row>)
    requires |before| == |after| && AllEvolve(before, after)
    ensures ActiveCount(after) <= ActiveCount(before)
  {
    forall i | 0 <= i < |before| && Active(after[i]) ensures Active(before[i]) {
      assert Evolves(before[i], after[i]);
    }
    ActiveCountMonotone(before, after);
  }

  lemma ActiveCountAppend(rows: seq<Row>, r: Row)
    ensures ActiveCount(rows + [r]) == ActiveCount(rows) + if Active(r) then 1 else 0
  {
    assert (rows + [r])[..|rows|] == rows;
  }

  // ---- identity of rows

  /** Rows stand in the order in which their admissions committed, which is the order of request_seq. */
  ghost predicate Ordered(rows: seq<Row>, nextSeq: nat) {
    && (forall i, j :: 0 <= i < j < |rows| ==> rows[i].requestSeq < rows[j].requestSeq)
    && (forall i :: 0 <= i < |rows| ==> rows[i].requestSeq < nextSeq)
  }

  /** The primary key and the unique idempotency key. */
  ghost predicate Unique(rows: seq<Row>) {
    && (forall i, j :: 0 <= i < j < |rows| ==> rows[i].id != rows[j].id)
    && (forall i, j :: 0 <= i < j < |rows| && rows[i].key.Some? ==> rows[i].key != rows[j].key)
  }

  // ---- the latest projection

  predicate Beats(a: Row, b: Row) {
    && a.sourceDate.Some? && b.sourceDate.Some?
    && (a.sourceDate.value > b.sourceDate.value
        || (a.sourceDate.value == b.sourceDate.value && a.requestSeq > b.requestSeq))
  }

  /** Row i is the completed row of its pair with the greatest source date and request_seq. */
  ghost predicate Winner(rows: seq<Row>, i: int) {
    && 0 <= i < |rows| && rows[i].status.Completed?
    && forall j :: 0 <= j < |rows| && j != i && rows[j].status.Completed? && rows[j].pair == rows[i].pair
         ==> Beats(rows[i], rows[j])
  }

  predicate CompletedFor(r: Row, p: Pair) {
    r.status.Completed? && r.pair == p
  }

  ghost predicate WinnerFor(rows: seq<Row>, i: int, p: Pair, l: Latest) {
    Winner(rows, i) && rows[i].pair == p && Copies(l, rows[i])
  }

  /** The pair has an entry exactly if it has a completed row, and then it is a copy of the winner. */
  ghost predicate PairOk(rows: seq<Row>, latest: map<Pair, Latest>, p: Pair) {
    if p in latest then exists i :: WinnerFor(rows, i, p, latest[p])
    else forall i :: 0 <= i < |rows| ==> !CompletedFor(rows[i], p)
  }

  ghost predicate LatestOk(rows: seq<Row>, latest: map<Pair, Latest>) {
    forall p: Pair :: PairOk(rows, latest, p)
  }

  /** Only changes of the pair's completed rows can matter to its entry. */
  lemma PairFrame(before: seq<Row>, after: seq<Row>, was: map<Pair, Latest>, latest: map<Pair, Latest>, p: Pair)
    requires PairOk(before, was, p) && |before| <= |after|
    requires (p in was <==> p in latest) && (p in was ==> was[p] == latest[p])
    requires forall i :: 0 <= i < |before| && CompletedFor(before[i], p) ==> after[i] == before[i]
    requires forall i :: 0 <= i < |after| && CompletedFor(after[i], p) ==> i < |before| && after[i] == before[i]
    ensures PairOk(after, latest, p)
  {
    if p in was {
      var i :| WinnerFor(before, i, p, was[p]);
      assert WinnerFor(after, i, p, latest[p]);
    }
  }

  lemma LatestFrame(before: seq<Row>, after: seq<Row>, latest: map<Pair, Latest>)
    requires LatestOk(before, latest) && |before| <= |after|
    requires forall i :: 0 <= i < |before| && before[i].status.Completed? ==> after[i] == before[i]
    requires forall i :: 0 <= i < |after| && after[i].status.Completed? ==> i < |before| && after[i] == before[i]
    ensures LatestOk(after, latest)
  {
    forall p: Pair ensures PairOk(after, latest, p) {
      PairFrame(before, after, latest, latest, p);
    }
  }

  /** The upsert elects the new row exactly if it beats the old winner. */
  lemma UpsertElects(rows: seq<Row>, latest: map<Pair, Latest>, i: nat, now: int, b: Booking)
    requires i < |rows| && !rows[i].status.Completed? && PairOk(rows, latest, rows[i].pair)
    requires forall j :: 0 <= j < |rows| && j != i ==> rows[j].requestSeq != rows[i].requestSeq
    ensures PairOk(rows[i := Booked(rows[i], now, b)], Upsert(latest, rows[i], now, b), rows[i].pair)
  {
    var after, upserted := rows[i := Booked(rows[i], now, b)], Upsert(latest, rows[i], now, b);
    var p := rows[i].pair;
    if p in latest {
      var k :| WinnerFor(rows, k, p, latest[p]);
      assert after[k] == rows[k];
      if upserted[p] == latest[p] {
        assert Beats(after[k], after[i]);
        assert WinnerFor(after, k, p, upserted[p]);
      } else {
        assert Beats(after[i], after[k]);
        assert WinnerFor(after, i, p, upserted[p]);
      }
    } else {
      assert WinnerFor(after, i, p, upserted[p]);
    }
  }

  lemma LatestComplete(rows: seq<Row>, latest: map<Pair, Latest>, i: nat, now: int, b: Booking)
    requires LatestOk(rows, latest) && i < |rows| && !rows[i].status.Completed?
    requires forall j :: 0 <= j < |rows| && j != i ==> rows[j].requestSeq != rows[i].requestSeq
    ensures LatestOk(rows[i := Booked(rows[i], now, b)], Upsert(latest, rows[i], now, b))
  {
    var after, upserted := rows[i := Booked(rows[i], now, b)], Upsert(latest, rows[i], now, b);
    forall p: Pair ensures PairOk(after, upserted, p) {
      if p == rows[i].pair {
        UpsertElects(rows, latest, i, now, b);
      } else {
        PairFrame(rows, after, latest, upserted, p);
      }
    }
  }

  // ---- admission

  ghost predicate Fresh(rows: seq<Row>, r: Row) {
    forall i :: 0 <= i < |rows| ==>
      rows[i].id != r.id && rows[i].requestSeq < r.requestSeq && (r.key.Some? ==> rows[i].key != r.key)
  }

  /** What the open admission may still rely on, whatever other transactions have committed since. */
  ghost predicate AdmissionOk(cfg: Config, s: State) {
    match s.admission
    case Free => true
    case Locked => true
    case Snapped(snapshot) => |snapshot| == |s.rows| && AllEvolve(snapshot, s.rows) && RowsOk(cfg, snapshot)
    case Executed(command, verdict) =>
      match verdict
      case Insert(row) =>
        && row == Admitted(row.id, row.requestSeq, command, row.createdAt) && RowOk(cfg, row)
        && Fresh(s.rows, row) && row.requestSeq < s.nextSeq && row.createdAt <= s.now
        && ActiveCount(s.rows) < cfg.maxActive
      case Found(row) =>
        row.key == Some(command.key) && RowOk(cfg, row) && exists i :: 0 <= i < |s.rows| && Evolves(row, s.rows[i])
      case Full => true
      case Violation => true
  }

  ghost predicate Inv(cfg: Config, s: State) {
    && RowsOk(cfg, s.rows)
    && Ordered(s.rows, s.nextSeq)
    && Unique(s.rows)
    && ActiveCount(s.rows) <= cfg.maxActive
    && LatestOk(s.rows, s.latest)
    && AdmissionOk(cfg, s)
  }

  lemma AdvancesKeepsIdentity(cfg: Config, before: seq<Row>, after: seq<Row>, nextSeq: nat)
    requires Advances(cfg, before, after)
    requires RowsOk(cfg, before) && Ordered(before, nextSeq) && Unique(before)
    ensures RowsOk(cfg, after) && Ordered(after, nextSeq) && Unique(after)
  {
    assert forall i :: 0 <= i < |before| ==> SameRequest(before[i], after[i]) && RowOk(cfg, after[i]);
  }

  lemma BackgroundKeepsLatest(cfg: Config, s: State, step: Step)
    requires Background(step) && |Apply(cfg, s, step).rows| == |s.rows| && LatestOk(s.rows, s.latest)
    requires Ordered(s.rows, s.nextSeq)
    requires forall i :: 0 <= i < |s.rows| && Terminal(s.rows[i]) ==> Apply(cfg, s, step).rows[i] == s.rows[i]
    ensures LatestOk(Apply(cfg, s, step).rows, Apply(cfg, s, step).latest)
  {
    var t := Apply(cfg, s, step);
    if step.Complete? {
      var i := Bookable(s.rows, step.id, step.attempt, step.booking);
      if i >= 0 && BookingOk(step.booking) { LatestComplete(s.rows, s.latest, i, s.now, step.booking); }
    } else {
      forall i | 0 <= i < |t.rows| && t.rows[i].status.Completed? ensures t.rows[i] == s.rows[i] {
        OnlyCompleteCompletes(cfg, s, step, i);
      }
      LatestFrame(s.rows, t.rows, s.latest);
    }
  }

  lemma BackgroundKeepsTables(cfg: Config, s: State, step: Step)
    requires cfg.Valid() && Inv(cfg, s) && Disciplined(cfg, step) && Background(step)
    ensures var t := Apply(cfg, s, step);
            RowsOk(cfg, t.rows) && Ordered(t.rows, t.nextSeq) && Unique(t.rows) && LatestOk(t.rows, t.latest)
  {
    BackgroundAdvances(cfg, s, step);
    AdvancesKeepsIdentity(cfg, s.rows, Apply(cfg, s, step).rows, s.nextSeq);
    BackgroundKeepsLatest(cfg, s, step);
  }

  lemma OnlyCompleteCompletes(cfg: Config, s: State, step: Step, i: nat)
    requires Background(step) && !step.Complete? && |Apply(cfg, s, step).rows| == |s.rows| && i < |s.rows|
    requires Apply(cfg, s, step).rows[i].status.Completed?
    ensures Apply(cfg, s, step).rows[i] == s.rows[i]
  {
    if step.Recover? { BatchPointwise(cfg, s.rows, Expired(s.now, step.locked), step.limit, i); }
  }

  lemma BackgroundKeepsAdmission(cfg: Config, s: State, step: Step)
    requires cfg.Valid() && Inv(cfg, s) && Disciplined(cfg, step) && Background(step)
    ensures var t := Apply(cfg, s, step); ActiveCount(t.rows) <= ActiveCount(s.rows) && AdmissionOk(cfg, t)
  {
    var t := Apply(cfg, s, step);
    BackgroundAdvances(cfg, s, step);
    AdvancesEvolves(cfg, s.rows, t.rows);
    EvolveKeepsCapacity(s.rows, t.rows);
    if s.admission.Snapped? {
      EvolveTransitive(s.admission.snapshot, s.rows, t.rows);
    } else if s.admission.Executed? && s.admission.verdict.Found? {
      FoundStays(s.rows, t.rows, s.admission.verdict.row);
    }
  }

  lemma FoundStays(before: seq<Row>, after: seq<Row>, row: Row)
    requires AllEvolve(before, after) && exists i :: 0 <= i < |before| && Evolves(row, before[i])
    ensures exists i :: 0 <= i < |after| && Evolves(row, after[i])
  {
    var i :| 0 <= i < |before| && Evolves(row, before[i]);
    assert Evolves(before[i], after[i]);
    assert Evolves(row, after[i]);
  }

  lemma CommitKeepsInv(cfg: Config, s: State)
    requires cfg.Valid() && Inv(cfg, s)
    ensures Inv(cfg, CommitAdmission(s))
  {
    if s.admission.Executed? && s.admission.verdict.Insert? {
      var row := s.admission.verdict.row;
      ActiveCountAppend(s.rows, row);
      AppendKeepsRows(cfg, s.rows, row, s.nextSeq);
      LatestFrame(s.rows, s.rows + [row], s.latest);
    }
  }

  lemma AppendKeepsRows(cfg: Config, rows: seq<Row>, row: Row, nextSeq: nat)
    requires RowsOk(cfg, rows) && Ordered(rows, nextSeq) && Unique(rows)
    requires RowOk(cfg, row) && Fresh(rows, row) && row.requestSeq < nextSeq
    ensures RowsOk(cfg, rows + [row]) && Ordered(rows + [row], nextSeq) && Unique(rows + [row])
  {
  }

  /** The decision made on the snapshot is still right for the current rows. */
  lemma ExecuteKeepsInv(cfg: Config, s: State, command: Command, id: Id)
    requires cfg.Valid() && Inv(cfg, s) && Disciplined(cfg, Execute(command, id))
    ensures Inv(cfg, Apply(cfg, s, Execute(command, id)))
  {
    if s.admission.Snapped? {
      var snapshot := s.admission.snapshot;
      EvolveKeepsCapacity(snapshot, s.rows);
      var existing := FindKey(snapshot, command.key);
      if existing >= 0 { assert Evolves(snapshot[existing], s.rows[existing]); }
    }
  }

  lemma StepKeepsInv(cfg: Config, s: State, step: Step)
    requires cfg.Valid() && Inv(cfg, s) && Disciplined(cfg, step)
    ensures Inv(cfg, Apply(cfg, s, step))
  {
    if Background(step) {
      BackgroundKeepsTables(cfg, s, step);
      BackgroundKeepsAdmission(cfg, s, step);
    } else if step.Commit? {
      CommitKeepsInv(cfg, s);
    } else if step.Execute? {
      ExecuteKeepsInv(cfg, s, step.command, step.id);
    }
  }

  lemma StepEvolves(cfg: Config, s: State, step: Step)
    requires cfg.Valid() && Inv(cfg, s) && Disciplined(cfg, step)
    ensures AllEvolve(s.rows, Apply(cfg, s, step).rows) && s.now <= Apply(cfg, s, step).now
  {
    if Background(step) {
      BackgroundAdvances(cfg, s, step);
      AdvancesEvolves(cfg, s.rows, Apply(cfg, s, step).rows);
    }
  }

  // ---- runs

  ghost predicate AllDisciplined(cfg: Config, steps: seq<Step>) {
    forall k :: 0 <= k < |steps| ==> Disciplined(cfg, steps[k])
  }

  lemma {:induction false} RunKeepsInv(cfg: Config, s: State, steps: seq<Step>)
    requires cfg.Valid() && Inv(cfg, s) && AllDisciplined(cfg, steps)
    ensures Inv(cfg, Run(cfg, s, steps))
  {
    if steps != [] {
      RunKeepsInv(cfg, s, steps[..|steps| - 1]);
      StepKeepsInv(cfg, Run(cfg, s, steps[..|steps| - 1]), steps[|steps| - 1]);
    }
  }

  /** Every reachable state satisfies the table constraints, the capacity bound and the latest projection. */
  lemma ReachableInv(cfg: Config, steps: seq<Step>)
    requires cfg.Valid() && AllDisciplined(cfg, steps)
    ensures Inv(cfg, Run(cfg, INITIAL, steps))
  {
    RunKeepsInv(cfg, INITIAL, steps);
  }

  lemma {:induction false} RunEvolves(cfg: Config, s: State, steps: seq<Step>)
    requires cfg.Valid() && Inv(cfg, s) && AllDisciplined(cfg, steps)
    ensures AllEvolve(s.rows, Run(cfg, s, steps).rows) && s.now <= Run(cfg, s, steps).now
  {
    if steps != [] {
      var front := steps[..|steps| - 1];
      RunEvolves(cfg, s, front);
      RunKeepsInv(cfg, s, front);
      StepEvolves(cfg, Run(cfg, s, front), steps[|steps| - 1]);
      EvolveTransitive(s.rows, Run(cfg, s, front).rows, Run(cfg, s, steps).rows);
    }
  }
}
