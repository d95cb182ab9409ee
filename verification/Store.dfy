/** The shared database and the store of one replica, statement by statement. */
module Store {
  import opened Domain
  import opened Queue
  import opened Invariants
  import opened Reads
  import Rate
  import Runs

  /** How a call to the database ends besides succeeding. */
  datatype Fault = NoFault | NotRun | ReplyLost

  /** Where an admission is cut off, if it is: a commit whose reply is lost may have taken effect. */
  datatype Outage = NoOutage | WhileLocking | InStatement | InCommit(committed: bool)

  /** The state that all replicas share. */
  class Database {
    var rows: seq<Row>
    var latest: map<Pair, Latest>
    var nextSeq: nat
    var now: int
    var admission: Admission

    function State(): State
      reads this
    {
      Queue.State(rows, latest, nextSeq, now, admission)
    }

    constructor ()
      ensures State() == INITIAL
    {
      rows, latest, nextSeq, now, admission := [], map[], 0, 0, Free;
    }

    /** ORDER BY time, request_seq LIMIT 1 over the rows of a work list. */
    method SelectFirst(list: WorkList) returns (best: int)
      ensures best == First(list, rows)
    {
      best := -1;
      for n := 0 to |rows|
        invariant -1 <= best < n
        invariant best == FirstUpTo(list, rows, n)
      {
        if list.Lists(rows[n]) && (best < 0 || list.Precedes(rows[n], rows[best])) {
          best := n;
        }
      }
    }

    method SelectById(id: Id) returns (i: int)
      ensures i == Find(rows, id)
    {
      i := -1;
      for n := 0 to |rows|
        invariant i == FindUpTo(rows, id, n)
      {
        if rows[n].id == id {
          i := n;
        }
      }
    }

    /** INSERT ... ON CONFLICT (pair) DO UPDATE ... WHERE the new source date and request_seq are greater. */
    method UpsertLatest(r: Row)
      requires r.rate.Some? && r.provider.Some? && r.sourceDate.Some? && r.finishedAt.Some?
      modifies this`latest
      ensures latest == Upsert(old(latest), r, r.finishedAt.value,
                               Booking(r.pair, r.rate.value, r.provider.value, r.sourceDate.value))
    {
      var excluded := Latest.Latest(
        r.id, r.requestSeq, r.rate.value, r.provider.value, r.sourceDate.value, r.finishedAt.value);
      if r.pair !in latest {
        latest := latest[r.pair := excluded];
      } else {
        var current := latest[r.pair];
        if excluded.sourceDate > current.sourceDate
           || (excluded.sourceDate == current.sourceDate && excluded.requestSeq > current.requestSeq) {
          latest := latest[r.pair := excluded];
        }
      }
    }

    /** Other replicas and workers run these steps. */
    method Interfere(cfg: Config, steps: seq<Step>)
      modifies this
      ensures State() == Run(cfg, old(State()), steps)
    {
      for n := 0 to |steps|
        invariant State() == Run(cfg, old(State()), steps[..n])
      {
        assert steps[..n + 1][..n] == steps[..n];
        var next := Apply(cfg, State(), steps[n]);
        rows, latest, nextSeq, now, admission := next.rows, next.latest, next.nextSeq, next.now, next.admission;
      }
      assert steps[..|steps|] == steps;
    }

    /** Interference after a statement of an open admission. */
    method Follow(cfg: Config, ghost start: State, ghost trace: seq<Step>, ghost step: Step, others: seq<Step>)
      returns (ghost longer: seq<Step>)
      requires cfg.Valid() && Inv(cfg, start) && AllDisciplined(cfg, trace) && Disciplined(cfg, step)
      requires State() == Apply(cfg, Run(cfg, start, trace), step)
      requires AllDisciplined(cfg, others) && Runs.AllBackground(others)
      modifies this
      ensures longer == trace + [step] + others && AllDisciplined(cfg, longer)
      ensures State() == Run(cfg, start, longer) && Inv(cfg, State())
      ensures admission == old(admission)
    {
      Extend(cfg, start, trace, step, others);
      Runs.BackgroundLeavesAdmission(cfg, State(), others);
      Interfere(cfg, others);
      longer := trace + [step] + others;
    }
  }

  /** One statement has just been added to a run; the steps of others come next. */
  lemma Extend(cfg: Config, start: State, trace: seq<Step>, step: Step, others: seq<Step>)
    requires cfg.Valid() && Inv(cfg, start) && AllDisciplined(cfg, trace)
    requires Disciplined(cfg, step) && AllDisciplined(cfg, others)
    ensures var longer := trace + [step] + others;
            && AllDisciplined(cfg, longer) && Inv(cfg, Run(cfg, start, longer))
            && Run(cfg, start, longer) == Run(cfg, Apply(cfg, Run(cfg, start, trace), step), others)
  {
    Runs.RunStep(cfg, start, trace, step);
    Runs.RunSplit(cfg, start, trace + [step], others);
    RunKeepsInv(cfg, start, trace + [step] + others);
  }

  /** A snapshot of the rows, as one statement of an admission reads it. */
  method SelectByKey(rows: seq<Row>, key: Key) returns (i: int)
    ensures i == FindKey(rows, key)
  {
    i := -1;
    if key == [] {
      return;
    }
    for n := 0 to |rows|
      invariant i == FindKeyUpTo(rows, key, n)
    {
      if rows[n].key == Some(key) {
        i := n;
      }
    }
  }

  method CountActive(rows: seq<Row>) returns (count: nat)
    ensures count == ActiveCount(rows)
  {
    count := 0;
    for n := 0 to |rows|
      invariant count == ActiveCount(rows[..n])
    {
      assert rows[..n + 1][..n] == rows[..n];
      if rows[n].status.Pending? || rows[n].status.Processing? {
        count := count + 1;
      }
    }
    assert rows[..|rows|] == rows;
  }

  /** The cast of a rate's text to the column's type; the empty rate is not a number. */
  method CastRate(rate: string) returns (n: nat)
    ensures if Rate.Canonical(rate) then n == Rate.Scaled(rate) && ValidRate(n) else n == 0
  {
    if !Rate.Canonical(rate) {
      return 0;
    }
    Rate.CanonicalIsPositive(Rate.Split(rate));
    return Rate.Scaled(rate);
  }

  /** The state after a call that may not have run. */
  function Effect(cfg: Config, s: State, step: Step, fault: Fault): State {
    if fault.NotRun? then s else Apply(cfg, s, step)
  }

  /** The reply of a fenced write: the written row, or why nothing was written. */
  ghost predicate Wrote(before: State, after: State, i: int, refused: bool, r: Result<QuoteUpdate>) {
    if refused then r == Err(Rejected)
    else if i < 0 then r == Err(LostOwnership)
    else r.Ok? && |after.rows| == |before.rows| && i < |after.rows| && Describes(r.value, after.rows[i])
  }

  function Least(a: nat, b: nat): nat {
    if a < b then a else b
  }

  /** Constraints that the database itself enforces on every stored row. */
  ghost predicate Stored(rows: seq<Row>) {
    forall i :: 0 <= i < |rows| ==> Shape(rows[i]) && Columns(rows[i])
  }

  /** What other transactions commit while an admission waits for the lock and between its statements. */
  datatype Others = Others(waiting: seq<Step>, locked: seq<Step>, snapped: seq<Step>, executed: seq<Step>) {
    ghost predicate Valid(cfg: Config) {
      && AllDisciplined(cfg, waiting)
      && AllDisciplined(cfg, locked) && Runs.AllBackground(locked)
      && AllDisciplined(cfg, snapped) && Runs.AllBackground(snapped)
      && AllDisciplined(cfg, executed) && Runs.AllBackground(executed)
    }

    function Opening(): seq<Step> {
      waiting + [Lock] + locked + [Snapshot] + snapped
    }

    /** The run that an admission makes of its own statements and of theirs, before it ends. */
    function Body(command: Command, id: Id): seq<Step> {
      Opening() + [Execute(command, id)] + executed
    }

    function Trace(command: Command, id: Id, last: Step): seq<Step> {
      Body(command, id) + [last]
    }
  }

  /** What a recovery does to the table: it releases rows whose lease has run out, the earliest first. */
  ghost predicate Recovers(cfg: Config, before: seq<Row>, after: seq<Row>, now: int, locked: set<Id>) {
    && |after| == |before|
    && (forall j :: 0 <= j < |before| && after[j] != before[j] ==>
          RunOut(before[j], now, locked) && Released(cfg, before[j], after[j], now))
    && (forall j, k ::
          0 <= j < |before| && 0 <= k < |before| && after[j] != before[j] && RunOut(after[k], now, locked) ==>
            TakenBefore(before[j], after[k]))
  }

  predicate TakenBefore(a: Row, b: Row) {
    && a.leaseUntil.Some? && b.leaseUntil.Some?
    && NoLater(a.leaseUntil.value, a.requestSeq, b.leaseUntil.value, b.requestSeq)
  }

  lemma BatchRecovers(cfg: Config, rows: seq<Row>, after: seq<Row>, now: int, locked: set<Id>, limit: nat)
    requires Stored(rows) && after == RecoverBatch(cfg, rows, Expired(now, locked), limit)
    ensures Recovers(cfg, rows, after, now, locked)
  {
    forall j | 0 <= j < |rows| && after[j] != rows[j]
      ensures RunOut(rows[j], now, locked) && Released(cfg, rows[j], after[j], now)
    {
      BatchReleases(cfg, rows, now, locked, limit, j);
    }
    forall j, k | 0 <= j < |rows| && 0 <= k < |rows| && after[j] != rows[j] && RunOut(after[k], now, locked)
      ensures TakenBefore(rows[j], after[k])
    {
      BatchTakesEarliest(cfg, rows, now, locked, limit, j, k);
      StillOut(cfg, rows, now, locked, limit, k);
    }
  }

  /** Which rows a recovery returns: update k is of row order[k]. */
  ghost predicate Reports(cfg: Config, list: WorkList, updates: seq<QuoteUpdate>, order: seq<int>,
                          before: seq<Row>, after: seq<Row>) {
    && |order| == |updates| && |after| == |before|
    && (forall k {:trigger Reported(cfg, list, updates[k], order[k], before, after)} ::
          0 <= k < |order| ==> Reported(cfg, list, updates[k], order[k], before, after))
    && (forall k, m :: 0 <= k < m < |order| ==> order[k] != order[m])
    && (forall j {:trigger j in order} :: 0 <= j < |before| && after[j] != before[j] ==> j in order)
  }

  /** The update is of a row that has been released: pending again, or failed with its attempts exhausted. */
  predicate Reported(cfg: Config, list: WorkList, u: QuoteUpdate, j: int, before: seq<Row>, after: seq<Row>) {
    && 0 <= j < |before| && j < |after| && Describes(u, after[j]) && Released(cfg, before[j], after[j], list.now)
    && RunOut(before[j], list.now, list.locked)
  }

  /** The next row has not been returned yet: it is still processing. */
  lemma ReportsMore(cfg: Config, list: WorkList, updates: seq<QuoteUpdate>, order: seq<int>,
                    before: seq<Row>, now: seq<Row>, i: nat, r: Row, u: QuoteUpdate)
    requires Reports(cfg, list, updates, order, before, now) && i < |now|
    requires RunOut(now[i], list.now, list.locked) && Released(cfg, now[i], r, list.now) && Describes(u, r)
    ensures Reports(cfg, list, updates + [u], order + [i], before, now[i := r])
  {
    var more, indices, after := updates + [u], order + [i], now[i := r];
    forall k | 0 <= k < |order| ensures order[k] != i {
      assert Reported(cfg, list, updates[k], order[k], before, now);
    }
    assert i !in order;
    forall k | 0 <= k < |indices| ensures Reported(cfg, list, more[k], indices[k], before, after) {
      if k < |order| { assert Reported(cfg, list, updates[k], order[k], before, now); }
    }
  }

  /** A batch has recovered n rows so far. */
  ghost predicate Recovering(cfg: Config, before: seq<Row>, now: seq<Row>, list: WorkList, n: nat,
                             updates: seq<QuoteUpdate>, order: seq<int>) {
    && |updates| == n && Reports(cfg, list, updates, order, before, now)
    && now == RecoverBatch(cfg, before, list, n) && n + Backlog(now, list) == Backlog(before, list)
  }

  lemma NothingRecovered(cfg: Config, rows: seq<Row>, list: WorkList)
    ensures Recovering(cfg, rows, rows, list, 0, [], [])
  {
  }

  lemma BatchStep(cfg: Config, before: seq<Row>, now: seq<Row>, next: seq<Row>, list: WorkList, n: nat)
    requires now == RecoverBatch(cfg, before, list, n) && list.Expired? && First(list, now) >= 0
    requires next == now[First(list, now) := Recovered(cfg, now[First(list, now)], list.now)]
    ensures next == RecoverBatch(cfg, before, list, n + 1) && Backlog(next, list) == Backlog(now, list) - 1
  {
    BacklogUpdate(now, list, First(list, now), next[First(list, now)]);
  }

  lemma RecoverOne(cfg: Config, before: seq<Row>, now: seq<Row>, next: seq<Row>, list: WorkList, n: nat,
                   updates: seq<QuoteUpdate>, order: seq<int>, u: QuoteUpdate)
    requires Recovering(cfg, before, now, list, n, updates, order) && list.Expired? && First(list, now) >= 0
    requires next == now[First(list, now) := Recovered(cfg, now[First(list, now)], list.now)]
    requires Describes(u, next[First(list, now)]) && Shape(now[First(list, now)])
    ensures Recovering(cfg, before, next, list, n + 1, updates + [u], order + [First(list, now)])
  {
    var i := First(list, now);
    BatchStep(cfg, before, now, next, list, n);
    ReportsMore(cfg, list, updates, order, before, now, i, next[i], u);
  }

  /** A batch that has found nothing more stays as it is. */
  lemma {:induction false} BatchSaturates(cfg: Config, rows: seq<Row>, list: WorkList, n: nat, limit: nat)
    requires n <= limit && First(list, RecoverBatch(cfg, rows, list, n)) < 0
    ensures RecoverBatch(cfg, rows, list, limit) == RecoverBatch(cfg, rows, list, n)
    decreases limit
  {
    if n < limit { BatchSaturates(cfg, rows, list, n, limit - 1); }
  }

  lemma RecoveringEnds(cfg: Config, before: seq<Row>, now: seq<Row>, list: WorkList, n: nat,
                       limit: nat, updates: seq<QuoteUpdate>, order: seq<int>)
    requires Recovering(cfg, before, now, list, n, updates, order) && n <= limit
    requires n == limit || First(list, now) < 0
    ensures now == RecoverBatch(cfg, before, list, limit)
    ensures |updates| == Least(limit, Backlog(before, list))
  {
    EmptyBacklog(now, list);
    if First(list, now) < 0 { BatchSaturates(cfg, before, list, n, limit); }
  }

  const RECOVERY_BATCH_SIZE: nat := 100

  class Store {
    const db: Database
    const cfg: Config
    const parseId: string -> Option<Id>
    var recoveryBatchSize: nat
    var gateHeld: bool

    ghost predicate Valid()
      reads this
    {
      cfg.Valid() && 1 <= recoveryBatchSize <= RECOVERY_BATCH_SIZE
    }

    constructor (db: Database, cfg: Config, parseId: string -> Option<Id>)
      requires cfg.Valid()
      ensures Valid() && this.db == db && this.cfg == cfg && this.parseId == parseId && !gateHeld
      ensures recoveryBatchSize == 100
    {
      this.db, this.cfg, this.parseId := db, cfg, parseId;
      recoveryBatchSize, gateHeld := RECOVERY_BATCH_SIZE, false;
    }

    /** Durations come in nanoseconds and are stored in whole microseconds. */
    method ClaimNext(leaseDuration: nat, locked: set<Id>, fault: Fault) returns (r: Result<QuoteUpdate>)
      requires Stored(db.rows)
      modifies db
      ensures db.State() == Effect(cfg, old(db.State()), Claim(locked, leaseDuration / 1000), fault)
      ensures !fault.NoFault? ==> r == Err(Unavailable)
      ensures fault.NoFault? ==>
                var i := First(Ready(old(db.now), locked), old(db.rows));
                if i < 0 then r == Err(NoWork) else r.Ok? && Describes(r.value, db.rows[i])
      ensures r.Ok? ==>
                var i := First(Ready(old(db.now), locked), old(db.rows));
                && r.value.id == old(db.rows[i]).id && r.value.id !in locked && r.value.status.Processing?
                && r.value.attempt == old(db.rows[i]).attempt + 1
                && db.rows[i].leaseUntil == Some(old(db.now) + leaseDuration / 1000)
    {
      if fault.NotRun? {
        return Err(Unavailable);
      }
      var i := db.SelectFirst(Ready(db.now, locked));
      if i < 0 {
        return Err(if fault.ReplyLost? then Unavailable else NoWork);
      }
      var claimed := db.rows[i];
      claimed := claimed.(status := Processing, attempt := claimed.attempt + 1,
                          nextAttemptAt := None, leaseUntil := Some(db.now + leaseDuration / 1000));
      db.rows := db.rows[i := claimed];
      if fault.ReplyLost? {
        return Err(Unavailable);
      }
      r := ScanUpdate(claimed);
    }

    method Complete(id: Id, attempt: nat, quote: Quote, fault: Fault)
      returns (r: Result<QuoteUpdate>, ghost booking: Booking)
      requires Stored(db.rows)
      modifies db
      ensures booking.pair == quote.pair && booking.provider == quote.provider && booking.sourceDate == quote.sourceDate
      ensures if Rate.Canonical(quote.rate) then booking.rate == Rate.Scaled(quote.rate) && ValidRate(booking.rate)
              else booking.rate == 0
      ensures db.State() == Effect(cfg, old(db.State()), Step.Complete(id, attempt, booking), fault)
      ensures !fault.NoFault? ==> r == Err(Unavailable)
      ensures fault.NoFault? ==>
                var i := Bookable(old(db.rows), id, attempt, booking);
                Wrote(old(db.State()), db.State(), i, booking.rate == 0 || (i >= 0 && booking.provider == ""), r)
      ensures r.Ok? ==>
                && r.value.id == id && r.value.attempt == attempt && r.value.status.Completed?
                && r.value.quote == Some(Quote(quote.pair, quote.rate, quote.provider, quote.sourceDate, old(db.now)))
    {
      var rate := CastRate(quote.rate);
      var b := Booking(quote.pair, rate, quote.provider, quote.sourceDate);
      booking := b;
      if fault.NotRun? {
        return Err(Unavailable), booking;
      }
      if rate == 0 {
        return Err(if fault.ReplyLost? then Unavailable else Rejected), booking;
      }
      var i := db.SelectById(id);
      if i < 0 || !(db.rows[i].status.Processing? && db.rows[i].attempt == attempt && db.rows[i].pair == b.pair) {
        return Err(if fault.ReplyLost? then Unavailable else LostOwnership), booking;
      }
      if b.provider == "" {
        return Err(if fault.ReplyLost? then Unavailable else Rejected), booking;
      }
      // Both statements of the transaction; the second one reads the row that the first one wrote.
      var row := db.rows[i];
      row := row.(status := Completed, leaseUntil := None, finishedAt := Some(db.now),
                  rate := Some(b.rate), provider := Some(b.provider), sourceDate := Some(b.sourceDate));
      db.rows := db.rows[i := row];
      db.UpsertLatest(row);
      if fault.ReplyLost? {
        return Err(Unavailable), booking;
      }
      r := ScanUpdate(row);
      StoredRateReadsBack(r.value, row, quote.rate);
    }

    method Retry(id: Id, attempt: nat, retryAfter: nat, fault: Fault) returns (r: Result<QuoteUpdate>)
      requires Stored(db.rows)
      modifies db
      ensures db.State() == Effect(cfg, old(db.State()), Step.Retry(id, attempt, retryAfter / 1000), fault)
      ensures !fault.NoFault? ==> r == Err(Unavailable)
      ensures fault.NoFault? ==> Wrote(old(db.State()), db.State(), Owned(old(db.rows), id, attempt), false, r)
      ensures r.Ok? ==>
                && r.value.id == id && r.value.attempt == attempt && r.value.status.Pending?
                && db.rows[Owned(old(db.rows), id, attempt)].nextAttemptAt == Some(old(db.now) + retryAfter / 1000)
    {
      if fault.NotRun? {
        return Err(Unavailable);
      }
      var i := db.SelectById(id);
      if i < 0 || !(db.rows[i].status.Processing? && db.rows[i].attempt == attempt) {
        return Err(if fault.ReplyLost? then Unavailable else LostOwnership);
      }
      var row := db.rows[i];
      row := row.(status := Pending, leaseUntil := None, nextAttemptAt := Some(db.now + retryAfter / 1000));
      db.rows := db.rows[i := row];
      if fault.ReplyLost? {
        return Err(Unavailable);
      }
      r := ScanUpdate(row);
    }

    method Fail(id: Id, attempt: nat, code: FailureCode, fault: Fault) returns (r: Result<QuoteUpdate>)
      requires Stored(db.rows)
      modifies db
      ensures db.State() == Effect(cfg, old(db.State()), Step.Fail(id, attempt, code), fault)
      ensures !fault.NoFault? ==> r == Err(Unavailable)
      ensures fault.NoFault? ==>
                var i := Owned(old(db.rows), id, attempt);
                Wrote(old(db.State()), db.State(), i, i >= 0 && !KnownCode(code), r)
      ensures r.Ok? ==>
                && r.value.id == id && r.value.attempt == attempt && r.value.status.Failed?
                && r.value.failureCode == Some(code)
                && db.rows[Owned(old(db.rows), id, attempt)].finishedAt == Some(old(db.now))
    {
      if fault.NotRun? {
        return Err(Unavailable);
      }
      var i := db.SelectById(id);
      if i < 0 || !(db.rows[i].status.Processing? && db.rows[i].attempt == attempt) {
        return Err(if fault.ReplyLost? then Unavailable else LostOwnership);
      }
      if !KnownCode(code) {
        return Err(if fault.ReplyLost? then Unavailable else Rejected);
      }
      var row := db.rows[i];
      row := row.(status := Failed, leaseUntil := None, finishedAt := Some(db.now), failure := Some(code));
      db.rows := db.rows[i := row];
      if fault.ReplyLost? {
        return Err(Unavailable);
      }
      r := ScanUpdate(row);
    }

    /** The batch shrinks only when the call ran into its own deadline. */
    method RecoverExpired(locked: set<Id>, fault: Fault, deadline: bool)
      returns (r: Result<seq<QuoteUpdate>>, ghost order: seq<int>)
      requires Valid() && Stored(db.rows)
      modifies db`rows, this`recoveryBatchSize
      ensures Valid() && Stored(db.rows)
      ensures db.State() == Effect(cfg, old(db.State()), Recover(locked, old(recoveryBatchSize)), fault)
      ensures Recovers(cfg, old(db.rows), db.rows, db.now, locked)
      ensures recoveryBatchSize == if !fault.NoFault? && deadline && old(recoveryBatchSize) > 1
                                   then old(recoveryBatchSize) / 2 else old(recoveryBatchSize)
      ensures !fault.NoFault? ==> r == Err(Unavailable)
      ensures fault.NoFault? ==>
                && r.Ok? && Reports(cfg, Expired(db.now, locked), r.value, order, old(db.rows), db.rows)
                && |r.value| == Least(old(recoveryBatchSize), Backlog(old(db.rows), Expired(old(db.now), locked)))
    {
      var batchSize := recoveryBatchSize;
      var updates := [];
      order := [];
      if !fault.NotRun? {
        updates, order := RecoverExpiredBatch(locked, batchSize);
      }
      if fault.NoFault? {
        return Ok(updates), order;
      }
      if deadline && batchSize > 1 {
        recoveryBatchSize := if batchSize / 2 > 1 then batchSize / 2 else 1;
      }
      return Err(Unavailable), order;
    }

    method RecoverExpiredBatch(locked: set<Id>, batchSize: nat)
      returns (updates: seq<QuoteUpdate>, ghost order: seq<int>)
      requires Stored(db.rows)
      modifies db`rows
      ensures Stored(db.rows)
      ensures db.rows == RecoverBatch(cfg, old(db.rows), Expired(db.now, locked), batchSize)
      ensures Recovers(cfg, old(db.rows), db.rows, db.now, locked)
      ensures Reports(cfg, Expired(db.now, locked), updates, order, old(db.rows), db.rows)
      ensures |updates| == Least(batchSize, Backlog(old(db.rows), Expired(db.now, locked)))
    {
      ghost var before, n := db.rows, 0;
      updates, order, n := RecoverRows(Expired(db.now, locked), batchSize);
      RecoveringEnds(cfg, before, db.rows, Expired(db.now, locked), n, batchSize, updates, order);
      BatchRecovers(cfg, before, db.rows, db.now, locked, batchSize);
    }

    method RecoverRows(list: WorkList, limit: nat)
      returns (updates: seq<QuoteUpdate>, ghost order: seq<int>, ghost n: nat)
      requires Stored(db.rows) && list.Expired? && list.now == db.now
      modifies db`rows
      ensures Stored(db.rows) && n <= limit && (n == limit || First(list, db.rows) < 0)
      ensures Recovering(cfg, old(db.rows), db.rows, list, n, updates, order)
    {
      updates, order, n := [], [], 0;
      ghost var before, now := db.rows, db.rows;
      NothingRecovered(cfg, before, list);
      var i := db.SelectFirst(list);
      while |updates| < limit && i >= 0
        invariant |updates| == n <= limit && db.rows == now && i == First(list, now) && Stored(now)
        invariant Recovering(cfg, before, now, list, n, updates, order)
        decreases limit - n
      {
        updates, order, now := RecoverRow(list, i, before, n, updates, order);
        n := n + 1;
        i := db.SelectFirst(list);
      }
    }

    /** The CASE expressions of the recovery, for one expired row; the loop appends what is returned. */
    method RecoverRow(list: WorkList, i: nat, ghost before: seq<Row>, ghost n: nat,
                      updates: seq<QuoteUpdate>, ghost order: seq<int>)
      returns (more: seq<QuoteUpdate>, ghost indices: seq<int>, ghost next: seq<Row>)
      requires i < |db.rows| && i == First(list, db.rows) && list.Expired? && list.now == db.now
      requires Stored(db.rows) && Recovering(cfg, before, db.rows, list, n, updates, order)
      modifies db`rows
      ensures db.rows == next && Stored(next) && |more| == |updates| + 1
      ensures Recovering(cfg, before, next, list, n + 1, more, indices)
    {
      var row := RecoveredRow(db.rows[i]);
      var scanned := ScanUpdate(row);
      more, indices, next := updates + [scanned.value], order + [i], db.rows[i := row];
      RecoverOne(cfg, before, db.rows, next, list, n, updates, order, scanned.value);
      db.rows := db.rows[i := row];
    }

    method RecoveredRow(r: Row) returns (row: Row)
      requires Shape(r) && Columns(r) && r.status.Processing?
      ensures row == Recovered(cfg, r, db.now) && Shape(row) && Columns(row)
    {
      if r.attempt < cfg.maxAttempts {
        row := r.(status := Pending, leaseUntil := None, nextAttemptAt := Some(db.now));
      } else {
        row := r.(status := Failed, leaseUntil := None, finishedAt := Some(db.now),
                  failure := Some(AttemptsExhausted));
      }
    }

    /** `parseId` reads a UUID in any of its spellings as the text that the rows carry. */
    method GetUpdate(query: string) returns (r: Result<QuoteUpdate>)
      requires Stored(db.rows)
      ensures match parseId(query)
              case None => r == Err(NotFound)
              case Some(id) =>
                var i := Find(db.rows, id);
                if i < 0 then r == Err(NotFound) else r.Ok? && Describes(r.value, db.rows[i])
    {
      var id := parseId(query);
      if id.None? {
        return Err(NotFound);
      }
      var i := db.SelectById(id.value);
      if i < 0 {
        return Err(NotFound);
      }
      r := ScanUpdate(db.rows[i]);
    }

    method GetLatest(pair: Pair) returns (r: Result<Quote>)
      ensures pair !in db.latest ==> r == Err(NotFound)
      ensures pair in db.latest && ValidRate(db.latest[pair].rate) ==>
                var l := db.latest[pair];
                r.Ok? && QuoteOf(r.value, pair, l.rate, l.provider, l.sourceDate, l.updatedAt)
    {
      if pair !in db.latest {
        return Err(NotFound);
      }
      var l := db.latest[pair];
      var rate := DecodeRate(l.rate);
      if rate.None? {
        return Err(Corrupt);
      }
      return Ok(Quote(pair, rate.value, l.provider, l.sourceDate, l.updatedAt));
    }

    /** The admission of a request; the gate admits one call of this replica at a time. */
    method CreateOrGet(command: Command, id: Id, others: Others, outage: Outage)
      returns (r: Result<(QuoteUpdate, bool)>, ghost trace: seq<Step>, ghost verdict: Verdict)
      requires Valid() && Inv(cfg, db.State()) && others.Valid(cfg)
      modifies db, this`gateHeld
      ensures gateHeld == old(gateHeld)
      ensures db.State() == Run(cfg, old(db.State()), trace)
      ensures AllDisciplined(cfg, trace) && Inv(cfg, db.State())
      ensures if |command.key| > 128 then r == Err(InvalidIdempotencyKey) && trace == []
              else if !command.pair.Valid() then r == Err(InvalidPair) && trace == []
              else if old(gateHeld) then r == Err(Unavailable) && trace == []
              else Admits(cfg, command, id, others, outage, old(db.State()), trace, verdict, r)
    {
      trace := [];
      verdict := Full;
      if |command.key| > MAX_IDEMPOTENCY_KEY_BYTES {
        return Err(InvalidIdempotencyKey), trace, verdict;
      }
      if !command.pair.Valid() {
        return Err(InvalidPair), trace, verdict;
      }
      if gateHeld {
        return Err(Unavailable), trace, verdict;
      }
      gateHeld := true;
      r, trace, verdict := Admit(command, id, others, outage);
      gateHeld := false;
    }

    /** The transaction: lock, snapshot, decide and insert, commit or roll back. */
    method Admit(command: Command, id: Id, others: Others, outage: Outage)
      returns (r: Result<(QuoteUpdate, bool)>, ghost trace: seq<Step>, ghost verdict: Verdict)
      requires Valid() && Inv(cfg, db.State()) && others.Valid(cfg)
      requires command.pair.Valid() && |command.key| <= MAX_IDEMPOTENCY_KEY_BYTES
      modifies db
      ensures db.State() == Run(cfg, old(db.State()), trace)
      ensures AllDisciplined(cfg, trace) && Inv(cfg, db.State())
      ensures Admits(cfg, command, id, others, outage, old(db.State()), trace, verdict, r)
    {
      ghost var start := db.State();
      verdict := Full;
      var open: bool;
      open, trace := OpenAdmission(others, outage.WhileLocking?);
      if !open {
        return Err(Unavailable), trace, verdict;
      }
      r, trace, verdict := DecideAndEnd(command, id, others, outage, start);
    }

    /** The rest of a transaction that has its snapshot; it began in the state `start`. */
    method DecideAndEnd(command: Command, id: Id, others: Others, outage: Outage, ghost start: State)
      returns (r: Result<(QuoteUpdate, bool)>, ghost trace: seq<Step>, ghost verdict: Verdict)
      requires Valid() && Inv(cfg, start) && others.Valid(cfg) && AllDisciplined(cfg, others.Opening())
      requires command.pair.Valid() && |command.key| <= MAX_IDEMPOTENCY_KEY_BYTES
      requires db.State() == Run(cfg, start, others.Opening()) && db.admission.Snapped?
      modifies db
      ensures db.State() == Run(cfg, start, trace)
      ensures AllDisciplined(cfg, trace) && Inv(cfg, db.State())
      ensures trace == others.Trace(command, id, LastStep(command, verdict, outage))
      ensures Run(cfg, start, others.Body(command, id)).admission == Executed(command, verdict)
      ensures Answers(r, Told(command, verdict, outage))
    {
      var decided := ExecuteAdmission(command, id);
      verdict := decided;
      trace := db.Follow(cfg, start, others.Opening(), Execute(command, id), others.executed);
      r := EndAdmission(command, decided, outage);
      ghost var last := LastStep(command, verdict, outage);
      Extend(cfg, start, trace, last, []);
      assert trace + [last] + [] == trace + [last];
      trace := trace + [last];
    }

    /** Wait for the lock, then let the next statement take its snapshot. */
    method OpenAdmission(others: Others, givenUp: bool) returns (open: bool, ghost trace: seq<Step>)
      requires Valid() && Inv(cfg, db.State()) && others.Valid(cfg)
      modifies db
      ensures db.State() == Run(cfg, old(db.State()), trace)
      ensures AllDisciplined(cfg, trace) && Inv(cfg, db.State())
      ensures open <==> !givenUp && Run(cfg, old(db.State()), others.waiting).admission.Free?
      ensures if open then trace == others.Opening() && db.admission.Snapped? else trace == others.waiting
    {
      ghost var start := db.State();
      trace := others.waiting;
      db.Interfere(cfg, others.waiting);
      RunKeepsInv(cfg, start, trace);
      if givenUp || !db.admission.Free? {
        return false, trace;
      }
      db.admission := Locked;
      trace := db.Follow(cfg, start, trace, Lock, others.locked);
      db.admission := Snapped(db.rows);
      trace := db.Follow(cfg, start, trace, Snapshot, others.snapped);
      return true, trace;
    }

    method ExecuteAdmission(command: Command, id: Id) returns (verdict: Verdict)
      requires db.admission.Snapped?
      modifies db
      ensures db.State() == Apply(cfg, old(db.State()), Execute(command, id))
      ensures db.admission == Executed(command, verdict)
    {
      var snapshot := db.admission.snapshot;
      var existing := SelectByKey(snapshot, command.key);
      if existing >= 0 {
        verdict := Found(snapshot[existing]);
      } else {
        var active := CountActive(snapshot);
        if active >= cfg.maxActive {
          verdict := Full;
        } else {
          var sameId := db.SelectById(id);
          var sameKey := SelectByKey(db.rows, command.key);
          verdict := if sameId >= 0 || sameKey >= 0 then Violation
                     else Insert(Admitted(id, db.nextSeq, command, db.now));
          db.nextSeq := db.nextSeq + 1;
        }
      }
      db.admission := Executed(command, verdict);
    }

    method EndAdmission(command: Command, verdict: Verdict, outage: Outage) returns (r: Result<(QuoteUpdate, bool)>)
      requires Valid() && Inv(cfg, db.State()) && db.admission == Executed(command, verdict)
      modifies db
      ensures db.State() == Apply(cfg, old(db.State()), LastStep(command, verdict, outage))
      ensures Answers(r, Told(command, verdict, outage))
    {
      db.admission := Free;
      if outage.InStatement? {
        return Err(Unavailable);
      }
      if verdict.Full? {
        return Err(CapacityExceeded);
      }
      if verdict.Violation? {
        return Err(Rejected);
      }
      var row := verdict.row;
      VerdictRowOk(cfg, old(db.State()));
      var update := ScanUpdate(row);
      if update.value.pair != command.pair {
        return Err(IdempotencyConflict);
      }
      if outage.InCommit? && !outage.committed {
        return Err(Unavailable);
      }
      if verdict.Insert? {
        db.rows := db.rows + [row];
      }
      if outage.InCommit? {
        return Err(Unavailable);
      }
      return Ok((update.value, verdict.Insert?));
    }
  }

  function LastStep(command: Command, verdict: Verdict, outage: Outage): Step {
    if outage.InStatement? || outage == InCommit(false) || Reply(command, verdict).Err? then Rollback else Commit
  }

  /** What the caller is told once the statement has been sent; only a commit can lose a positive reply. */
  function Told(command: Command, verdict: Verdict, outage: Outage): Result<(Row, bool)> {
    var reply := Reply(command, verdict);
    if outage.InStatement? || (outage.InCommit? && reply.Ok?) then Err(Unavailable) else reply
  }

  ghost predicate Answers(r: Result<(QuoteUpdate, bool)>, reply: Result<(Row, bool)>) {
    match reply
    case Err(error) => r == Err(error)
    case Ok((row, created)) => r.Ok? && Describes(r.value.0, row) && r.value.1 == created
  }

  /** The lock is obtained exactly if the wait is not given up before the lock is free. */
  predicate Opens(cfg: Config, before: State, others: Others, outage: Outage) {
    !outage.WhileLocking? && Run(cfg, before, others.waiting).admission.Free?
  }

  /** The whole effect of an admission: its steps in the run, and the one reply that they call for. */
  ghost predicate Admits(cfg: Config, command: Command, id: Id, others: Others, outage: Outage, before: State,
                         trace: seq<Step>, verdict: Verdict, r: Result<(QuoteUpdate, bool)>) {
    if !Opens(cfg, before, others, outage) then r == Err(Unavailable) && trace == others.waiting
    else
      && trace == others.Trace(command, id, LastStep(command, verdict, outage))
      && Run(cfg, before, others.Body(command, id)).admission == Executed(command, verdict)
      && Answers(r, Told(command, verdict, outage))
  }

  /** The row that an admission replies with satisfies the table's constraints. */
  lemma VerdictRowOk(cfg: Config, s: State)
    requires Inv(cfg, s) && s.admission.Executed? && (s.admission.verdict.Insert? || s.admission.verdict.Found?)
    ensures Shape(s.admission.verdict.row) && Columns(s.admission.verdict.row)
  {
  }
}
