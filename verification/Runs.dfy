/** Properties of whole runs: fencing, bounded work, idempotency and the growth of the latest quotes. */
module Runs {
  import opened Domain
  import opened Queue
  import opened Invariants

  // ---- positions in a run

  /** The states of a run from the empty tables, one more than it has steps. */
  function States(cfg: Config, steps: seq<Step>): (states: seq<State>)
    ensures |states| == |steps| + 1
  {
    if steps == [] then [INITIAL] else
      var n := |steps| - 1;
      var front := States(cfg, steps[..n]);
      front + [Apply(cfg, front[n], steps[n])]
  }

  function At(cfg: Config, steps: seq<Step>, k: nat): State
    requires k <= |steps|
  {
    States(cfg, steps)[k]
  }

  lemma {:induction false} AtIsRun(cfg: Config, steps: seq<Step>, k: nat)
    requires k <= |steps|
    ensures At(cfg, steps, k) == Run(cfg, INITIAL, steps[..k])
    decreases |steps|
  {
    if steps != [] {
      var n := |steps| - 1;
      var front := steps[..n];
      AtIsRun(cfg, front, if k <= n then k else n);
      if k <= n {
        assert front[..k] == steps[..k];
      } else {
        assert front[..n] == front && steps[..k] == steps;
      }
    }
  }

  lemma AtNext(cfg: Config, steps: seq<Step>, k: nat)
    requires k < |steps|
    ensures At(cfg, steps, k + 1) == Apply(cfg, At(cfg, steps, k), steps[k])
  {
    AtIsRun(cfg, steps, k);
    AtIsRun(cfg, steps, k + 1);
    assert steps[..k + 1][..k] == steps[..k];
  }

  lemma {:induction false} RunSplit(cfg: Config, s: State, a: seq<Step>, b: seq<Step>)
    ensures Run(cfg, s, a + b) == Run(cfg, Run(cfg, s, a), b)
  {
    if b == [] {
      assert a + b == a;
    } else {
      RunSplit(cfg, s, a, b[..|b| - 1]);
      assert (a + b)[..|a + b| - 1] == a + b[..|b| - 1];
    }
  }

  lemma RunStep(cfg: Config, s: State, steps: seq<Step>, step: Step)
    ensures Run(cfg, s, steps + [step]) == Apply(cfg, Run(cfg, s, steps), step)
  {
    assert (steps + [step])[..|steps|] == steps;
  }

  lemma RunThree(cfg: Config, s: State, steps: seq<Step>, a: Step, b: Step, c: Step)
    ensures Run(cfg, s, steps + [a] + [b] + [c]) == Apply(cfg, Apply(cfg, Apply(cfg, Run(cfg, s, steps), a), b), c)
  {
    RunStep(cfg, s, steps, a);
    RunStep(cfg, s, steps + [a], b);
    RunStep(cfg, s, steps + [a] + [b], c);
  }

  ghost predicate AllBackground(steps: seq<Step>) {
    forall k :: 0 <= k < |steps| ==> Background(steps[k])
  }

  /** Nobody else can touch the admission of the transaction that holds the lock. */
  lemma {:induction false} BackgroundLeavesAdmission(cfg: Config, s: State, steps: seq<Step>)
    requires AllBackground(steps)
    ensures Run(cfg, s, steps).admission == s.admission
  {
    if steps != [] { BackgroundLeavesAdmission(cfg, s, steps[..|steps| - 1]); }
  }

  lemma AtInv(cfg: Config, steps: seq<Step>, k: nat)
    requires cfg.Valid() && AllDisciplined(cfg, steps) && k <= |steps|
    ensures Inv(cfg, At(cfg, steps, k))
  {
    AtIsRun(cfg, steps, k);
    ReachableInv(cfg, steps[..k]);
  }

  lemma AtEvolves(cfg: Config, steps: seq<Step>, j: nat, k: nat)
    requires cfg.Valid() && AllDisciplined(cfg, steps) && j <= k <= |steps|
    ensures AllEvolve(At(cfg, steps, j).rows, At(cfg, steps, k).rows)
  {
    AtInv(cfg, steps, j);
    AtIsRun(cfg, steps, j);
    AtIsRun(cfg, steps, k);
    RunSplit(cfg, INITIAL, steps[..j], steps[j..k]);
    assert steps[..k] == steps[..j] + steps[j..k];
    RunEvolves(cfg, At(cfg, steps, j), steps[j..k]);
  }

  /** A step leaves each row alone or moves it once. */
  lemma StepMoves(cfg: Config, s: State, step: Step, i: nat)
    requires cfg.Valid() && Inv(cfg, s) && Disciplined(cfg, step) && i < |s.rows|
    ensures i < |Apply(cfg, s, step).rows|
    ensures var r := Apply(cfg, s, step).rows[i]; r == s.rows[i] || Moves(cfg, s.rows[i], r)
  {
    if Background(step) { BackgroundAdvances(cfg, s, step); }
  }

  // ---- fencing

  /** Step k claims row i under this attempt number. */
  ghost predicate Issued(cfg: Config, steps: seq<Step>, k: nat, i: nat, attempt: nat) {
    && k < |steps| && i < |At(cfg, steps, k).rows| && i < |At(cfg, steps, k + 1).rows|
    && var before, after := At(cfg, steps, k).rows[i], At(cfg, steps, k + 1).rows[i];
       !before.status.Processing? && after.status.Processing? && after.attempt == attempt
  }

  /** Step k ends the claim of row i under this attempt number, by a write or by a recovery. */
  ghost predicate Consumed(cfg: Config, steps: seq<Step>, k: nat, i: nat, attempt: nat) {
    && k < |steps| && i < |At(cfg, steps, k).rows| && i < |At(cfg, steps, k + 1).rows|
    && var before, after := At(cfg, steps, k).rows[i], At(cfg, steps, k + 1).rows[i];
       before.status.Processing? && before.attempt == attempt && after != before
  }

  /** Row i has the phase p before step k, and the next phase after it. */
  ghost predicate Passes(cfg: Config, steps: seq<Step>, k: nat, i: nat, p: int) {
    && k < |steps| && i < |At(cfg, steps, k).rows| && i < |At(cfg, steps, k + 1).rows|
    && Phase(At(cfg, steps, k).rows[i]) == p && Phase(At(cfg, steps, k + 1).rows[i]) == p + 1
  }

  lemma PassesOnce(cfg: Config, steps: seq<Step>, k: nat, m: nat, i: nat, p: int)
    requires cfg.Valid() && AllDisciplined(cfg, steps)
    requires Passes(cfg, steps, k, i, p) && Passes(cfg, steps, m, i, p)
    ensures k == m
  {
    if k < m {
      AtEvolves(cfg, steps, k + 1, m);
    } else if m < k {
      AtEvolves(cfg, steps, m + 1, k);
    }
  }

  lemma IssuePasses(cfg: Config, steps: seq<Step>, k: nat, i: nat, attempt: nat)
    requires cfg.Valid() && AllDisciplined(cfg, steps) && Issued(cfg, steps, k, i, attempt)
    ensures Passes(cfg, steps, k, i, 2 * attempt - 2)
  {
    AtInv(cfg, steps, k);
    AtNext(cfg, steps, k);
    StepMoves(cfg, At(cfg, steps, k), steps[k], i);
  }

  lemma ConsumePasses(cfg: Config, steps: seq<Step>, k: nat, i: nat, attempt: nat)
    requires cfg.Valid() && AllDisciplined(cfg, steps) && Consumed(cfg, steps, k, i, attempt)
    ensures Passes(cfg, steps, k, i, 2 * attempt - 1)
  {
    AtInv(cfg, steps, k);
    AtNext(cfg, steps, k);
    StepMoves(cfg, At(cfg, steps, k), steps[k], i);
  }

  /** A token is issued by at most one claim of the run. */
  lemma TokenIssuedOnce(cfg: Config, steps: seq<Step>, k: nat, m: nat, i: nat, attempt: nat)
    requires cfg.Valid() && AllDisciplined(cfg, steps)
    requires Issued(cfg, steps, k, i, attempt) && Issued(cfg, steps, m, i, attempt)
    ensures k == m
  {
    IssuePasses(cfg, steps, k, i, attempt);
    IssuePasses(cfg, steps, m, i, attempt);
    PassesOnce(cfg, steps, k, m, i, 2 * attempt - 2);
  }

  /** A token is consumed by at most one completion, retry, failure or recovery of the run. */
  lemma TokenConsumedOnce(cfg: Config, steps: seq<Step>, k: nat, m: nat, i: nat, attempt: nat)
    requires cfg.Valid() && AllDisciplined(cfg, steps)
    requires Consumed(cfg, steps, k, i, attempt) && Consumed(cfg, steps, m, i, attempt)
    ensures k == m
  {
    ConsumePasses(cfg, steps, k, i, attempt);
    ConsumePasses(cfg, steps, m, i, attempt);
    PassesOnce(cfg, steps, k, m, i, 2 * attempt - 1);
  }

  /** A token that is held was issued by an earlier claim. */
  lemma {:induction false} HeldWasIssued(cfg: Config, steps: seq<Step>, k: nat, i: nat) returns (m: nat)
    requires cfg.Valid() && AllDisciplined(cfg, steps) && k <= |steps|
    requires i < |At(cfg, steps, k).rows| && At(cfg, steps, k).rows[i].status.Processing?
    ensures m < k && Issued(cfg, steps, m, i, At(cfg, steps, k).rows[i].attempt)
  {
    RowsComeLater(cfg, steps, k);
    HeldStep(cfg, steps, k - 1, i);
    if At(cfg, steps, k - 1).rows[i].status.Processing? {
      m := HeldWasIssued(cfg, steps, k - 1, i);
    } else {
      m := k - 1;
    }
  }

  lemma RowsComeLater(cfg: Config, steps: seq<Step>, k: nat)
    requires k <= |steps| && |At(cfg, steps, k).rows| > 0
    ensures k > 0
  {
    AtIsRun(cfg, steps, 0);
  }

  /** A row that is held after step k was held before it with the same token, or step k has issued the token. */
  lemma HeldStep(cfg: Config, steps: seq<Step>, k: nat, i: nat)
    requires cfg.Valid() && AllDisciplined(cfg, steps) && k < |steps|
    requires i < |At(cfg, steps, k + 1).rows| && At(cfg, steps, k + 1).rows[i].status.Processing?
    ensures i < |At(cfg, steps, k).rows|
    ensures var before, after := At(cfg, steps, k).rows[i], At(cfg, steps, k + 1).rows[i];
            if before.status.Processing? then before.attempt == after.attempt
            else Issued(cfg, steps, k, i, after.attempt)
  {
    AtInv(cfg, steps, k);
    AtNext(cfg, steps, k);
    HeldBefore(cfg, At(cfg, steps, k), steps[k], i);
  }

  /** A row that is processing after a step was there before it, and has the same attempt if it was processing. */
  lemma HeldBefore(cfg: Config, s: State, step: Step, i: nat)
    requires cfg.Valid() && Inv(cfg, s) && Disciplined(cfg, step)
    requires i < |Apply(cfg, s, step).rows| && Apply(cfg, s, step).rows[i].status.Processing?
    ensures i < |s.rows|
    ensures s.rows[i].status.Processing? ==> s.rows[i].attempt == Apply(cfg, s, step).rows[i].attempt
  {
    if i < |s.rows| {
      StepMoves(cfg, s, step, i);
    } else {
      AppendedIsPending(cfg, s, step, i);
    }
  }

  lemma AppendedIsPending(cfg: Config, s: State, step: Step, i: nat)
    requires cfg.Valid() && Inv(cfg, s) && Disciplined(cfg, step)
    requires |s.rows| <= i < |Apply(cfg, s, step).rows|
    ensures step.Commit? && Apply(cfg, s, step).rows[i].status.Pending?
  {
    if Background(step) { BackgroundAdvances(cfg, s, step); }
  }

  predicate Holds(r: Row, id: Id, attempt: nat) {
    r.id == id && r.status.Processing? && r.attempt == attempt
  }

  /** The fence finds a row exactly if one holds the token. */
  lemma OwnedIff(rows: seq<Row>, id: Id, attempt: nat)
    requires Unique(rows)
    ensures Owned(rows, id, attempt) >= 0 <==> exists i :: 0 <= i < |rows| && Holds(rows[i], id, attempt)
    ensures forall i :: 0 <= i < |rows| && Holds(rows[i], id, attempt) ==> Owned(rows, id, attempt) == i
  {
    forall i | 0 <= i < |rows| && Holds(rows[i], id, attempt) ensures Find(rows, id) == i {}
  }

  predicate WritesWith(step: Step, id: Id, attempt: nat) {
    (step.Complete? || step.Retry? || step.Fail?) && step.id == id && step.attempt == attempt
  }

  predicate Acceptable(r: Row, step: Step) {
    && (step.Complete? ==> step.booking.pair == r.pair && BookingOk(step.booking))
    && (step.Fail? ==> KnownCode(step.code))
  }

  /** A write takes effect exactly if its token is current and its values are accepted; it changes that row only. */
  lemma WriteFence(cfg: Config, s: State, step: Step, id: Id, attempt: nat)
    requires cfg.Valid() && Inv(cfg, s) && WritesWith(step, id, attempt)
    ensures var t := Apply(cfg, s, step);
            && (t != s <==>
                  exists i :: 0 <= i < |s.rows| && Holds(s.rows[i], id, attempt) && Acceptable(s.rows[i], step))
            && (forall i :: 0 <= i < |s.rows| && !Holds(s.rows[i], id, attempt) ==> t.rows[i] == s.rows[i])
  {
    OwnedIff(s.rows, id, attempt);
    var i := Owned(s.rows, id, attempt);
    var t := Apply(cfg, s, step);
    if i >= 0 && Acceptable(s.rows[i], step) {
      assert Holds(s.rows[i], id, attempt);
      assert t.rows[i].status != s.rows[i].status;
    }
  }

  /** Once a token is consumed, every later write with it changes nothing, in either table. */
  lemma ConsumedTokenIsDead(cfg: Config, steps: seq<Step>, k: nat, m: nat, i: nat, attempt: nat, step: Step)
    requires cfg.Valid() && AllDisciplined(cfg, steps) && Consumed(cfg, steps, k, i, attempt) && k < m <= |steps|
    requires WritesWith(step, At(cfg, steps, k).rows[i].id, attempt)
    ensures Apply(cfg, At(cfg, steps, m), step) == At(cfg, steps, m)
  {
    var s := At(cfg, steps, m);
    var id := At(cfg, steps, k).rows[i].id;
    ConsumePasses(cfg, steps, k, i, attempt);
    AtEvolves(cfg, steps, k + 1, m);
    AtEvolves(cfg, steps, k, k + 1);
    AtInv(cfg, steps, m);
    assert Evolves(At(cfg, steps, k).rows[i], At(cfg, steps, k + 1).rows[i]);
    assert Evolves(At(cfg, steps, k + 1).rows[i], s.rows[i]);
    assert s.rows[i].id == id && !Holds(s.rows[i], id, attempt);
    forall j | 0 <= j < |s.rows| ensures !Holds(s.rows[j], id, attempt) {}
    WriteFence(cfg, s, step, id, attempt);
  }

  /** A completed or failed row never changes again. */
  lemma FinishedIsFinal(cfg: Config, steps: seq<Step>, k: nat, m: nat, i: nat)
    requires cfg.Valid() && AllDisciplined(cfg, steps) && k <= m <= |steps|
    requires i < |At(cfg, steps, k).rows| && Terminal(At(cfg, steps, k).rows[i])
    ensures i < |At(cfg, steps, m).rows| && At(cfg, steps, m).rows[i] == At(cfg, steps, k).rows[i]
  {
    AtEvolves(cfg, steps, k, m);
    assert Evolves(At(cfg, steps, k).rows[i], At(cfg, steps, m).rows[i]);
  }

  // ---- bounded work

  function Work(rows: seq<Row>): int {
    if rows == [] then 0 else Work(rows[..|rows| - 1]) + Phase(rows[|rows| - 1])
  }

  /** What active rows may still do: two transitions for every attempt left, one for a held claim. */
  function Remaining(cfg: Config, rows: seq<Row>): int {
    if rows == [] then 0
    else Remaining(cfg, rows[..|rows| - 1]) + Budget(cfg, rows[|rows| - 1])
  }

  function Budget(cfg: Config, r: Row): int {
    if Active(r) then 2 * (cfg.maxAttempts - r.attempt) + if r.status.Processing? then 1 else 0 else 0
  }

  /** How many of the earlier rows differ. */
  function Changed(before: seq<Row>, after: seq<Row>): nat
    requires |before| <= |after|
  {
    if before == [] then 0
    else
      var n := |before| - 1;
      Changed(before[..n], after) + if after[n] == before[n] then 0 else 1
  }

  /** The number of row transitions in a run. */
  function Transitions(cfg: Config, s: State, steps: seq<Step>): nat {
    if steps == [] then 0
    else
      var n := |steps| - 1;
      var before, after := Run(cfg, s, steps[..n]), Run(cfg, s, steps);
      Transitions(cfg, s, steps[..n]) + if |before.rows| <= |after.rows| then Changed(before.rows, after.rows) else 0
  }

  lemma {:induction false} ChangedCounts(cfg: Config, before: seq<Row>, after: seq<Row>)
    requires |before| <= |after| && RowsOk(cfg, before)
    requires forall i :: 0 <= i < |before| ==> after[i] == before[i] || Moves(cfg, before[i], after[i])
    ensures Work(after[..|before|]) == Work(before) + Changed(before, after)
    ensures Remaining(cfg, after[..|before|]) <= Remaining(cfg, before) - Changed(before, after)
  {
    if before != [] {
      var n := |before| - 1;
      ChangedCounts(cfg, before[..n], after);
      assert after[..n + 1][..n] == after[..n];
    }
  }

  lemma StepWork(cfg: Config, s: State, step: Step)
    requires cfg.Valid() && Inv(cfg, s) && Disciplined(cfg, step)
    ensures var t := Apply(cfg, s, step);
            && |s.rows| <= |t.rows| && Work(t.rows) == Work(s.rows) + Changed(s.rows, t.rows)
            && (Background(step) ==> Remaining(cfg, t.rows) <= Remaining(cfg, s.rows) - Changed(s.rows, t.rows))
  {
    var t := Apply(cfg, s, step);
    StepEvolves(cfg, s, step);
    if Background(step) {
      BackgroundAdvances(cfg, s, step);
      ChangedCounts(cfg, s.rows, t.rows);
      assert t.rows[..|s.rows|] == t.rows;
    } else {
      NothingChanged(s.rows, t.rows);
      if t.rows != s.rows { WorkAppend(s.rows, t.rows[|s.rows|]); }
    }
  }

  lemma {:induction false} NothingChanged(before: seq<Row>, after: seq<Row>)
    requires before <= after
    ensures Changed(before, after) == 0
  {
    if before != [] { NothingChanged(before[..|before| - 1], after); }
  }

  /** A new request has done no work yet. */
  lemma WorkAppend(rows: seq<Row>, r: Row)
    requires Phase(r) == 0
    ensures Work(rows + [r]) == Work(rows)
  {
    assert (rows + [r])[..|rows|] == rows;
  }

  lemma {:induction false} WorkIsConserved(cfg: Config, s: State, steps: seq<Step>)
    requires cfg.Valid() && Inv(cfg, s) && AllDisciplined(cfg, steps)
    ensures Work(Run(cfg, s, steps).rows) == Work(s.rows) + Transitions(cfg, s, steps)
  {
    if steps != [] {
      var front := steps[..|steps| - 1];
      WorkIsConserved(cfg, s, front);
      RunKeepsInv(cfg, s, front);
      StepWork(cfg, Run(cfg, s, front), steps[|steps| - 1]);
    }
  }

  lemma {:induction false} WorkBound(cfg: Config, rows: seq<Row>)
    requires RowsOk(cfg, rows)
    ensures Work(rows) <= 2 * cfg.maxAttempts * |rows|
  {
    if rows != [] {
      WorkBound(cfg, rows[..|rows| - 1]);
      assert 2 * cfg.maxAttempts * |rows| == 2 * cfg.maxAttempts * (|rows| - 1) + 2 * cfg.maxAttempts;
    }
  }

  /** The rows record exactly how many transitions the run made, and N admissions allow 2 * MaxAttempts * N. */
  lemma BoundedWork(cfg: Config, steps: seq<Step>)
    requires cfg.Valid() && AllDisciplined(cfg, steps)
    ensures var t := Run(cfg, INITIAL, steps);
            Transitions(cfg, INITIAL, steps) == Work(t.rows) <= 2 * cfg.maxAttempts * |t.rows|
  {
    ReachableInv(cfg, steps);
    WorkIsConserved(cfg, INITIAL, steps);
    WorkBound(cfg, Run(cfg, INITIAL, steps).rows);
  }

  // ---- idempotency

  /** Step k commits a new row with this idempotency key. */
  ghost predicate Creates(cfg: Config, steps: seq<Step>, k: nat, key: Key) {
    && k < |steps| && steps[k].Commit?
    && var a := At(cfg, steps, k).admission;
       a.Executed? && a.verdict.Insert? && a.verdict.row.key == Some(key)
  }

  lemma CreatedRowStays(cfg: Config, steps: seq<Step>, k: nat, m: nat, key: Key)
    requires cfg.Valid() && AllDisciplined(cfg, steps) && Creates(cfg, steps, k, key) && k < m <= |steps|
    ensures var i, row := |At(cfg, steps, k).rows|, At(cfg, steps, k).admission.verdict.row;
            i < |At(cfg, steps, m).rows| && Evolves(row, At(cfg, steps, m).rows[i])
  {
    AtNext(cfg, steps, k);
    AtEvolves(cfg, steps, k + 1, m);
    var i := |At(cfg, steps, k).rows|;
    assert Evolves(At(cfg, steps, k + 1).rows[i], At(cfg, steps, m).rows[i]);
  }

  /** A key creates at most one request in a run. */
  lemma KeyCreatesOnce(cfg: Config, steps: seq<Step>, k: nat, m: nat, key: Key)
    requires cfg.Valid() && AllDisciplined(cfg, steps)
    requires Creates(cfg, steps, k, key) && Creates(cfg, steps, m, key)
    ensures k == m
  {
    AtInv(cfg, steps, k);
    AtInv(cfg, steps, m);
    if k < m {
      CreatedRowStays(cfg, steps, k, m, key);
    } else if m < k {
      CreatedRowStays(cfg, steps, m, k, key);
    }
  }

  /**
   After a key has created a request, every later call with the key is answered from that
   request as it stood at the call's snapshot: with the request for the same pair, with a
   conflict for another pair, whatever the capacity and the state of the request. Nothing changes.
   */
  lemma ReplayFindsTheRequest(cfg: Config, steps: seq<Step>, k: nat, m: nat, command: Command, id: Id)
    requires cfg.Valid() && AllDisciplined(cfg, steps) && Creates(cfg, steps, k, command.key) && k < m < |steps|
    requires steps[m] == Execute(command, id) && At(cfg, steps, m).admission.Snapped?
    ensures var i, created := |At(cfg, steps, k).rows|, At(cfg, steps, k).admission.verdict.row;
            var snapshot := At(cfg, steps, m).admission.snapshot;
            var after := At(cfg, steps, m + 1);
            && i < |snapshot| && Evolves(created, snapshot[i])
            && i < |after.rows| && Evolves(snapshot[i], after.rows[i])
            && after.admission == Executed(command, Found(snapshot[i]))
            && Reply(command, after.admission.verdict)
               == (if command.pair == created.pair then Ok((snapshot[i], false)) else Err(IdempotencyConflict))
            && CommitAdmission(after) == after.(admission := Free)
  {
    var i, created := |At(cfg, steps, k).rows|, At(cfg, steps, k).admission.verdict.row;
    var s := At(cfg, steps, m);
    var snapshot := s.admission.snapshot;
    AtInv(cfg, steps, k);
    AtInv(cfg, steps, m);
    AtNext(cfg, steps, m);
    CreatedRowStays(cfg, steps, k, m, command.key);
    assert Evolves(snapshot[i], s.rows[i]);
    SnapshotSeesCreation(cfg, steps, k, m, command.key);
    var found := FindKey(snapshot, command.key);
    assert snapshot[found].key == s.rows[found].key;
    assert found == i;
  }

  /** A snapshot is the table at the moment it was taken, and is kept until the statement runs. */
  lemma SnapshotStep(cfg: Config, s: State, step: Step)
    requires Apply(cfg, s, step).admission.Snapped?
    ensures var t := Apply(cfg, s, step);
            if s.admission.Snapped? then t.admission == s.admission
            else t.admission == Snapped(s.rows) && t.rows == s.rows
  {
  }

  /** The snapshot of a later admission already shows the created row, however far it has come by then. */
  lemma {:induction false} SnapshotSeesCreation(cfg: Config, steps: seq<Step>, k: nat, m: nat, key: Key)
    requires cfg.Valid() && AllDisciplined(cfg, steps) && Creates(cfg, steps, k, key) && k < m <= |steps|
    requires At(cfg, steps, m).admission.Snapped?
    ensures var i, snapshot := |At(cfg, steps, k).rows|, At(cfg, steps, m).admission.snapshot;
            i < |snapshot| && Evolves(At(cfg, steps, k).admission.verdict.row, snapshot[i])
    decreases m
  {
    AtNext(cfg, steps, m - 1);
    SnapshotStep(cfg, At(cfg, steps, m - 1), steps[m - 1]);
    if At(cfg, steps, m - 1).admission.Snapped? {
      SnapshotSeesCreation(cfg, steps, k, m - 1, key);
    } else {
      CreatedRowStays(cfg, steps, k, m, key);
    }
  }

  /**
   A request is inserted exactly if its key is absent or new, its id is new, and the snapshot had
   room; the key is judged as of the statement itself although it was looked up in the snapshot.
   */
  lemma AdmissionIff(cfg: Config, s: State, command: Command, id: Id)
    requires Inv(cfg, s) && s.admission.Snapped?
    ensures var snapshot := s.admission.snapshot;
            var newKey := command.key == [] || forall i :: 0 <= i < |s.rows| ==> s.rows[i].key != Some(command.key);
            var newId := forall i :: 0 <= i < |s.rows| ==> s.rows[i].id != id;
            var verdict := Decide(cfg, s, snapshot, command, id);
            && (verdict.Insert? <==> newKey && newId && ActiveCount(snapshot) < cfg.maxActive)
            && (verdict.Found? <==> !newKey)
            && (verdict.Full? <==> newKey && ActiveCount(snapshot) >= cfg.maxActive)
  {
    var snapshot := s.admission.snapshot;
    forall i | 0 <= i < |s.rows| ensures snapshot[i].key == s.rows[i].key {
      assert Evolves(snapshot[i], s.rows[i]);
    }
  }

  /** A call without a key is never answered from an existing request. */
  lemma EmptyKeyNeverReplays(cfg: Config, s: State, snapshot: seq<Row>, command: Command, id: Id)
    requires command.key == []
    ensures !Decide(cfg, s, snapshot, command, id).Found?
  {
  }

  /** A free admission with room and a new id, up to its commit: the insert is in flight. */
  lemma AdmissionInserts(cfg: Config, steps: seq<Step>, command: Command, id: Id)
    requires var s := Run(cfg, INITIAL, steps);
             s.admission.Free? && command.key == [] && Find(s.rows, id) < 0 && ActiveCount(s.rows) < cfg.maxActive
    ensures var s := Run(cfg, INITIAL, steps);
            Run(cfg, INITIAL, steps + [Lock] + [Snapshot] + [Execute(command, id)])
            == s.(admission := Executed(command, Insert(Admitted(id, s.nextSeq, command, s.now))),
                  nextSeq := s.nextSeq + 1)
  {
    RunThree(cfg, INITIAL, steps, Lock, Snapshot, Execute(command, id));
    InsertExecutes(cfg, Run(cfg, INITIAL, steps), command, id);
  }

  lemma InsertExecutes(cfg: Config, s: State, command: Command, id: Id)
    requires s.admission.Free? && command.key == [] && Find(s.rows, id) < 0 && ActiveCount(s.rows) < cfg.maxActive
    ensures Apply(cfg, Apply(cfg, Apply(cfg, s, Lock), Snapshot), Execute(command, id))
            == s.(admission := Executed(command, Insert(Admitted(id, s.nextSeq, command, s.now))),
                  nextSeq := s.nextSeq + 1)
  {
  }

  // ---- times over runs

  /** A request is not finished before it was created, and nothing is dated in the future. */
  predicate TimelyRow(r: Row, now: int) {
    r.createdAt <= now && (r.finishedAt.Some? ==> r.createdAt <= r.finishedAt.value <= now)
  }

  ghost predicate Timely(s: State) {
    && (forall i :: 0 <= i < |s.rows| ==> TimelyRow(s.rows[i], s.now))
    && (s.admission.Executed? && s.admission.verdict.Insert? ==> TimelyRow(s.admission.verdict.row, s.now))
  }

  lemma StepTimely(cfg: Config, s: State, step: Step)
    requires Timely(s)
    ensures Timely(Apply(cfg, s, step))
  {
    if step.Recover? {
      var after := RecoverBatch(cfg, s.rows, Expired(s.now, step.locked), step.limit);
      forall i | 0 <= i < |after| ensures TimelyRow(after[i], s.now) {
        BatchPointwise(cfg, s.rows, Expired(s.now, step.locked), step.limit, i);
      }
    }
  }

  lemma {:induction false} RunTimely(cfg: Config, steps: seq<Step>)
    ensures Timely(Run(cfg, INITIAL, steps))
  {
    if steps != [] {
      RunTimely(cfg, steps[..|steps| - 1]);
      StepTimely(cfg, Run(cfg, INITIAL, steps[..|steps| - 1]), steps[|steps| - 1]);
    }
  }

  // ---- the latest quotes over runs

  /** A step other than a completion leaves the latest quotes as they are; a completion moves one entry forward. */
  lemma LatestStep(cfg: Config, s: State, step: Step)
    ensures var t := Apply(cfg, s, step);
            && (!step.Complete? ==> t.latest == s.latest)
            && forall p :: p in s.latest ==>
                 p in t.latest && (t.latest[p] == s.latest[p] || Newer(t.latest[p], s.latest[p]))
  {
  }

  /** Per pair, the entry is never removed and never goes back in source date and request order. */
  lemma {:induction false} LatestNeverGoesBack(cfg: Config, s: State, steps: seq<Step>)
    ensures var t := Run(cfg, s, steps);
            forall p :: p in s.latest ==>
              p in t.latest && (t.latest[p] == s.latest[p] || Newer(t.latest[p], s.latest[p]))
  {
    if steps != [] {
      LatestNeverGoesBack(cfg, s, steps[..|steps| - 1]);
      LatestStep(cfg, Run(cfg, s, steps[..|steps| - 1]), steps[|steps| - 1]);
    }
  }
}
