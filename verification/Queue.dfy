/**
 The two tables, the advisory lock and the database clock as one state, and
 every SQL statement as one atomic step over it.
 */
module Queue {
  import opened Domain
  import Rate

  datatype Config = Config(maxAttempts: nat, maxActive: nat) {
    predicate Valid() {
      maxAttempts >= 1
    }
  }

  /** One row of quote_updates. */
  datatype Row = Row(
    id: Id, requestSeq: nat, pair: Pair, key: Option<Key>,
    status: Status, attempt: nat, createdAt: int,
    nextAttemptAt: Option<int>, leaseUntil: Option<int>, finishedAt: Option<int>,
    rate: Option<nat>, provider: Option<string>, sourceDate: Option<int>,
    failure: Option<FailureCode>)

  /** One row of latest_quotes; the table's key is the pair. */
  datatype Latest = Latest(updateId: Id, requestSeq: nat, rate: nat, provider: string, sourceDate: int, updatedAt: int)

  /** The result columns that a completion writes. */
  datatype Booking = Booking(pair: Pair, rate: nat, provider: string, sourceDate: int)

  datatype Command = Command(pair: Pair, key: Key)

  /** What the admission statement decided from its snapshot. */
  datatype Verdict = Insert(row: Row) | Found(row: Row) | Full | Violation

  /** The transaction that holds the advisory lock, at its latest statement. */
  datatype Admission =
    | Free
    | Locked
    | Snapped(snapshot: seq<Row>)
    | Executed(command: Command, verdict: Verdict)

  datatype State = State(rows: seq<Row>, latest: map<Pair, Latest>, nextSeq: nat, now: int, admission: Admission)

  datatype Step =
    | Tick(elapsed: nat)
    | Claim(locked: set<Id>, lease: nat)
    | Complete(id: Id, attempt: nat, booking: Booking)
    | Retry(id: Id, attempt: nat, delay: nat)
    | Fail(id: Id, attempt: nat, code: FailureCode)
    | Recover(locked: set<Id>, limit: nat)
    | Lock
    | Snapshot
    | Execute(command: Command, id: Id)
    | Commit
    | Rollback

  // ---- rows

  predicate Active(r: Row) {
    r.status.Pending? || r.status.Processing?
  }

  predicate Terminal(r: Row) {
    !Active(r)
  }

  /** The update_state_shape constraint. */
  predicate Shape(r: Row) {
    var noResult := r.rate.None? && r.provider.None? && r.sourceDate.None?;
    var hasResult := r.rate.Some? && r.provider.Some? && r.sourceDate.Some?;
    match r.status
    case Pending =>
      r.nextAttemptAt.Some? && r.leaseUntil.None? && r.finishedAt.None? && noResult && r.failure.None?
    case Processing =>
      r.attempt > 0 && r.nextAttemptAt.None? && r.leaseUntil.Some? && r.finishedAt.None? && noResult && r.failure.None?
    case Completed =>
      r.attempt > 0 && r.nextAttemptAt.None? && r.leaseUntil.None? && r.finishedAt.Some? && hasResult && r.failure.None?
    case Failed =>
      r.attempt > 0 && r.nextAttemptAt.None? && r.leaseUntil.None? && r.finishedAt.Some? && noResult && r.failure.Some?
  }

  predicate ValidRate(n: nat) {
    0 < n < Rate.NUMERIC_LIMIT
  }

  predicate KnownCode(code: FailureCode) {
    !code.OtherCode?
  }

  /** The check constraints of single columns. */
  predicate Columns(r: Row) {
    && r.pair.Valid()
    && (r.key.Some? ==> 0 < |r.key.value| <= MAX_IDEMPOTENCY_KEY_BYTES)
    && (r.rate.Some? ==> ValidRate(r.rate.value))
    && (r.provider.Some? ==> r.provider.value != "")
    && (r.failure.Some? ==> KnownCode(r.failure.value))
  }

  /** What the workers add to the table's own constraints. */
  predicate Attempts(cfg: Config, r: Row) {
    && r.attempt <= cfg.maxAttempts
    && (r.status.Pending? ==> r.attempt < cfg.maxAttempts)
    && (r.failure == Some(AttemptsExhausted) ==> r.attempt == cfg.maxAttempts)
  }

  predicate RowOk(cfg: Config, r: Row) {
    Shape(r) && Columns(r) && Attempts(cfg, r)
  }

  function Admitted(id: Id, requestSeq: nat, command: Command, now: int): Row {
    Row(id, requestSeq, command.pair, if command.key == [] then None else Some(command.key),
        Pending, 0, now, Some(now), None, None, None, None, None, None)
  }

  function Claimed(r: Row, now: int, lease: nat): Row {
    r.(status := Processing, attempt := r.attempt + 1, nextAttemptAt := None, leaseUntil := Some(now + lease))
  }

  function Booked(r: Row, now: int, b: Booking): Row {
    r.(status := Completed, leaseUntil := None, finishedAt := Some(now),
       rate := Some(b.rate), provider := Some(b.provider), sourceDate := Some(b.sourceDate))
  }

  function Retried(r: Row, now: int, delay: nat): Row {
    r.(status := Pending, leaseUntil := None, nextAttemptAt := Some(now + delay))
  }

  function FailedRow(r: Row, now: int, code: FailureCode): Row {
    r.(status := Failed, leaseUntil := None, finishedAt := Some(now), failure := Some(code))
  }

  function Recovered(cfg: Config, r: Row, now: int): Row {
    if r.attempt < cfg.maxAttempts then Retried(r, now, 0) else FailedRow(r, now, AttemptsExhausted)
  }

  // ---- selecting rows

  /** The two work lists: due pending rows, and processing rows whose lease has run out. */
  datatype WorkList = Ready(now: int, locked: set<Id>) | Expired(now: int, locked: set<Id>) {

    /** The first sort key of a listed row; a row that is not listed has none. */
    function Rank(r: Row): Option<int> {
      var time := if Ready? then r.nextAttemptAt else r.leaseUntil;
      var status := if Ready? then Pending else Processing;
      if r.status == status && time.Some? && time.value <= now && r.id !in locked then time else None
    }

    predicate Lists(r: Row) {
      Rank(r).Some?
    }

    /** The order of the list: by time, then by request_seq. */
    predicate Precedes(a: Row, b: Row)
      requires Lists(a) && Lists(b)
    {
      Rank(a).value < Rank(b).value || (Rank(a).value == Rank(b).value && a.requestSeq < b.requestSeq)
    }
  }

  /** The index of the first listed row, or -1. */
  function First(list: WorkList, rows: seq<Row>): (i: int)
    ensures -1 <= i < |rows|
    ensures i < 0 ==> forall j :: 0 <= j < |rows| ==> !list.Lists(rows[j])
    ensures i >= 0 ==> list.Lists(rows[i])
    ensures i >= 0 ==> forall j :: 0 <= j < |rows| && list.Lists(rows[j]) ==> !list.Precedes(rows[j], rows[i])
  {
    FirstUpTo(list, rows, |rows|)
  }

  /** The first listed one of the first n rows. */
  function FirstUpTo(list: WorkList, rows: seq<Row>, n: nat): (i: int)
    requires n <= |rows|
    ensures -1 <= i < n
    ensures i < 0 ==> forall j :: 0 <= j < n ==> !list.Lists(rows[j])
    ensures i >= 0 ==> list.Lists(rows[i])
    ensures i >= 0 ==> forall j :: 0 <= j < n && list.Lists(rows[j]) ==> !list.Precedes(rows[j], rows[i])
  {
    if n == 0 then -1 else
      var best := FirstUpTo(list, rows, n - 1);
      if list.Lists(rows[n - 1]) && (best < 0 || list.Precedes(rows[n - 1], rows[best])) then n - 1 else best
  }

  /** A pending row whose time has come, and that nobody has locked. */
  predicate Due(r: Row, now: int, locked: set<Id>) {
    r.status.Pending? && r.nextAttemptAt.Some? && r.nextAttemptAt.value <= now && r.id !in locked
  }

  /** A processing row whose lease has run out, and that nobody has locked. */
  predicate RunOut(r: Row, now: int, locked: set<Id>) {
    r.status.Processing? && r.leaseUntil.Some? && r.leaseUntil.value <= now && r.id !in locked
  }

  /** By time, and by request_seq at the same time. */
  predicate NoLater(time: int, request: nat, otherTime: int, otherRequest: nat) {
    time < otherTime || (time == otherTime && request <= otherRequest)
  }

  /** A claim selects the due row with the earliest next_attempt_at, and nothing exactly if nothing is due. */
  lemma ClaimTakesEarliest(rows: seq<Row>, now: int, locked: set<Id>)
    ensures var i := First(Ready(now, locked), rows);
            if i < 0 then forall j :: 0 <= j < |rows| ==> !Due(rows[j], now, locked)
            else
              && Due(rows[i], now, locked)
              && forall j :: 0 <= j < |rows| && Due(rows[j], now, locked) ==>
                   NoLater(rows[i].nextAttemptAt.value, rows[i].requestSeq,
                           rows[j].nextAttemptAt.value, rows[j].requestSeq)
  {
    var list := Ready(now, locked);
    assert forall j :: 0 <= j < |rows| ==> (Due(rows[j], now, locked) <==> list.Lists(rows[j]));
  }

  /** A recovery selects the row whose lease ran out first, and nothing exactly if no lease has run out. */
  lemma RecoveryTakesEarliest(rows: seq<Row>, now: int, locked: set<Id>)
    ensures var i := First(Expired(now, locked), rows);
            if i < 0 then forall j :: 0 <= j < |rows| ==> !RunOut(rows[j], now, locked)
            else
              && RunOut(rows[i], now, locked)
              && forall j :: 0 <= j < |rows| && RunOut(rows[j], now, locked) ==>
                   NoLater(rows[i].leaseUntil.value, rows[i].requestSeq, rows[j].leaseUntil.value, rows[j].requestSeq)
  {
    var list := Expired(now, locked);
    assert forall j :: 0 <= j < |rows| ==> (RunOut(rows[j], now, locked) <==> list.Lists(rows[j]));
  }

  /** The index of the row with this id, or -1. */
  function Find(rows: seq<Row>, id: Id): (i: int)
    ensures -1 <= i < |rows|
    ensures i >= 0 ==> rows[i].id == id
    ensures i < 0 ==> forall j :: 0 <= j < |rows| ==> rows[j].id != id
  {
    FindUpTo(rows, id, |rows|)
  }

  function FindUpTo(rows: seq<Row>, id: Id, n: nat): (i: int)
    requires n <= |rows|
    ensures -1 <= i < n
    ensures i >= 0 ==> rows[i].id == id
    ensures i < 0 ==> forall j :: 0 <= j < n ==> rows[j].id != id
  {
    if n == 0 then -1 else if rows[n - 1].id == id then n - 1 else FindUpTo(rows, id, n - 1)
  }

  /** The index of the row with this idempotency key, or -1; an absent key matches nothing. */
  function FindKey(rows: seq<Row>, key: Key): (i: int)
    ensures -1 <= i < |rows|
    ensures i >= 0 ==> key != [] && rows[i].key == Some(key)
    ensures i < 0 ==> key == [] || forall j :: 0 <= j < |rows| ==> rows[j].key != Some(key)
  {
    if key == [] then -1 else FindKeyUpTo(rows, key, |rows|)
  }

  function FindKeyUpTo(rows: seq<Row>, key: Key, n: nat): (i: int)
    requires n <= |rows|
    ensures -1 <= i < n
    ensures i >= 0 ==> rows[i].key == Some(key)
    ensures i < 0 ==> forall j :: 0 <= j < n ==> rows[j].key != Some(key)
  {
    if n == 0 then -1 else if rows[n - 1].key == Some(key) then n - 1 else FindKeyUpTo(rows, key, n - 1)
  }

  /** The fence: the row that this id and attempt number still own, or -1. */
  function Owned(rows: seq<Row>, id: Id, attempt: nat): (i: int)
    ensures -1 <= i < |rows|
    ensures i >= 0 ==> rows[i].id == id && rows[i].status.Processing? && rows[i].attempt == attempt
  {
    var i := Find(rows, id);
    if i >= 0 && rows[i].status.Processing? && rows[i].attempt == attempt then i else -1
  }

  function ActiveCount(rows: seq<Row>): nat {
    if rows == [] then 0
    else ActiveCount(rows[..|rows| - 1]) + if Active(rows[|rows| - 1]) then 1 else 0
  }

  // ---- latest quotes

  predicate Copies(l: Latest, r: Row) {
    && l.updateId == r.id && l.requestSeq == r.requestSeq && r.rate == Some(l.rate) && r.provider == Some(l.provider)
    && r.sourceDate == Some(l.sourceDate) && r.finishedAt == Some(l.updatedAt)
  }

  /** The upsert of a completion: a newer source date wins, then a later request. */
  function Upsert(latest: map<Pair, Latest>, r: Row, now: int, b: Booking): map<Pair, Latest> {
    var candidate := Latest(r.id, r.requestSeq, b.rate, b.provider, b.sourceDate, now);
    if r.pair !in latest || Newer(candidate, latest[r.pair]) then latest[r.pair := candidate] else latest
  }

  predicate Newer(a: Latest, b: Latest) {
    a.sourceDate > b.sourceDate || (a.sourceDate == b.sourceDate && a.requestSeq > b.requestSeq)
  }

  predicate BookingOk(b: Booking) {
    ValidRate(b.rate) && b.provider != ""
  }

  /** The row a completion may write: owned, and of the quote's pair. */
  function Bookable(rows: seq<Row>, id: Id, attempt: nat, b: Booking): (i: int)
    ensures -1 <= i < |rows|
    ensures i >= 0 ==> i == Owned(rows, id, attempt) && rows[i].pair == b.pair
  {
    var i := Owned(rows, id, attempt);
    if i >= 0 && rows[i].pair == b.pair then i else -1
  }

  // ---- batches

  /** Recovers the first listed row, up to limit times. */
  function RecoverBatch(cfg: Config, rows: seq<Row>, list: WorkList, limit: nat): (after: seq<Row>)
    ensures |after| == |rows|
    decreases limit
  {
    if limit == 0 then rows else
      var front := RecoverBatch(cfg, rows, list, limit - 1);
      var i := First(list, front);
      if i < 0 then front else front[i := Recovered(cfg, front[i], list.now)]
  }

  // ---- admission

  /** The admission statement, decided on its snapshot and executed against the current rows. */
  function Decide(cfg: Config, s: State, snapshot: seq<Row>, command: Command, id: Id): Verdict {
    var existing := FindKey(snapshot, command.key);
    if existing >= 0 then Found(snapshot[existing])
    else if ActiveCount(snapshot) >= cfg.maxActive then Full
    else if Find(s.rows, id) >= 0 || FindKey(s.rows, command.key) >= 0 then Violation
    else Insert(Admitted(id, s.nextSeq, command, s.now))
  }

  /** What the caller of the admission is told once its transaction has ended. */
  function Reply(command: Command, verdict: Verdict): Result<(Row, bool)> {
    match verdict
    case Insert(row) => Ok((row, true))
    case Found(row) => if row.pair == command.pair then Ok((row, false)) else Err(IdempotencyConflict)
    case Full => Err(CapacityExceeded)
    case Violation => Err(Rejected)
  }

  // ---- steps

  /** Only a verdict that answers the caller commits; every other one rolls back. */
  function CommitAdmission(s: State): State {
    if s.admission.Executed? && s.admission.verdict.Insert?
    then s.(rows := s.rows + [s.admission.verdict.row], admission := Free)
    else s.(admission := Free)
  }

  function Apply(cfg: Config, s: State, step: Step): State {
    match step
    case Tick(elapsed) => s.(now := s.now + elapsed)
    case Claim(locked, lease) =>
      var i := First(Ready(s.now, locked), s.rows);
      if i < 0 then s else s.(rows := s.rows[i := Claimed(s.rows[i], s.now, lease)])
    case Complete(id, attempt, b) =>
      var i := Bookable(s.rows, id, attempt, b);
      if i < 0 || !BookingOk(b) then s
      else s.(rows := s.rows[i := Booked(s.rows[i], s.now, b)], latest := Upsert(s.latest, s.rows[i], s.now, b))
    case Retry(id, attempt, delay) =>
      var i := Owned(s.rows, id, attempt);
      if i < 0 then s else s.(rows := s.rows[i := Retried(s.rows[i], s.now, delay)])
    case Fail(id, attempt, code) =>
      var i := Owned(s.rows, id, attempt);
      if i < 0 || !KnownCode(code) then s else s.(rows := s.rows[i := FailedRow(s.rows[i], s.now, code)])
    case Recover(locked, limit) => s.(rows := RecoverBatch(cfg, s.rows, Expired(s.now, locked), limit))
    case Lock => if s.admission.Free? then s.(admission := Locked) else s
    case Snapshot => if s.admission.Locked? then s.(admission := Snapped(s.rows)) else s
    case Execute(command, id) =>
      if s.admission.Snapped? then
        var verdict := Decide(cfg, s, s.admission.snapshot, command, id);
        s.(admission := Executed(command, verdict),
           nextSeq := if verdict.Insert? || verdict.Violation? then s.nextSeq + 1 else s.nextSeq)
      else s
    case Commit => CommitAdmission(s)
    case Rollback => s.(admission := Free)
  }

  /** What the callers of the store keep to: the attempt limit and the admission checks. */
  predicate Disciplined(cfg: Config, step: Step) {
    match step
    case Retry(_, attempt, _) => attempt < cfg.maxAttempts
    case Fail(_, attempt, code) => code == AttemptsExhausted ==> attempt >= cfg.maxAttempts
    case Execute(command, _) => command.pair.Valid() && |command.key| <= MAX_IDEMPOTENCY_KEY_BYTES
    case _ => true
  }

  /** Steps of other transactions, possible at any time whoever holds the admission lock. */
  predicate Background(step: Step) {
    step.Tick? || step.Claim? || step.Complete? || step.Retry? || step.Fail? || step.Recover?
  }

  const INITIAL := State([], map[], 0, 0, Free)

  function Run(cfg: Config, s: State, steps: seq<Step>): State {
    if steps == [] then s else Apply(cfg, Run(cfg, s, steps[..|steps| - 1]), steps[|steps| - 1])
  }
}
