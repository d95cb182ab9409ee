/** No starvation: an overdue request is claimed after a bounded number of claims. */
module Fairness {
  import opened Domain
  import opened Queue
  import opened Invariants
  import Runs

  /** The pending row stands before the position (time, request) in the order of the ready list. */
  predicate Before(r: Row, time: int, request: nat) {
    && r.status.Pending? && r.nextAttemptAt.Some?
    && (r.nextAttemptAt.value < time || (r.nextAttemptAt.value == time && r.requestSeq < request))
  }

  function CountBefore(rows: seq<Row>, time: int, request: nat): nat {
    if rows == [] then 0
    else CountBefore(rows[..|rows| - 1], time, request) + if Before(rows[|rows| - 1], time, request) then 1 else 0
  }

  /** The insert that has been executed but not committed. */
  function InFlight(s: State, time: int, request: nat): nat {
    if s.admission.Executed? && s.admission.verdict.Insert? && Before(s.admission.verdict.row, time, request)
    then 1 else 0
  }

  function Ahead(s: State, time: int, request: nat): nat {
    CountBefore(s.rows, time, request) + InFlight(s, time, request)
  }

  /** Row i has been due since a time that is strictly past. */
  predicate Overdue(s: State, i: nat, time: int) {
    i < |s.rows| && s.rows[i].status.Pending? && s.rows[i].nextAttemptAt == Some(time) && time < s.now
  }

  lemma {:induction false} CountMonotone(before: seq<Row>, after: seq<Row>, time: int, request: nat)
    requires |before| == |after|
    requires forall j :: 0 <= j < |before| && Before(after[j], time, request) ==> Before(before[j], time, request)
    ensures CountBefore(after, time, request) <= CountBefore(before, time, request)
  {
    if before != [] {
      var n := |before| - 1;
      CountMonotone(before[..n], after[..n], time, request);
    }
  }

  lemma {:induction false} CountRemoved(before: seq<Row>, after: seq<Row>, f: nat, time: int, request: nat)
    requires |before| == |after| && f < |before|
    requires Before(before[f], time, request) && !Before(after[f], time, request)
    requires forall j :: 0 <= j < |before| && Before(after[j], time, request) ==> Before(before[j], time, request)
    ensures CountBefore(after, time, request) < CountBefore(before, time, request)
  {
    var n := |before| - 1;
    if f == n {
      CountMonotone(before[..n], after[..n], time, request);
    } else {
      CountRemoved(before[..n], after[..n], f, time, request);
    }
  }

  lemma CountAppend(rows: seq<Row>, r: Row, time: int, request: nat)
    ensures CountBefore(rows + [r], time, request)
            == CountBefore(rows, time, request) + if Before(r, time, request) then 1 else 0
  {
    assert (rows + [r])[..|rows|] == rows;
  }

  /** A row that a worker's statement makes pending is due now or later, hence behind everything overdue. */
  lemma NewlyPendingIsBehind(cfg: Config, s: State, step: Step, j: nat, time: int, request: nat)
    requires Background(step) && time < s.now && j < |s.rows| == |Apply(cfg, s, step).rows|
    requires Before(Apply(cfg, s, step).rows[j], time, request)
    ensures Apply(cfg, s, step).rows[j] == s.rows[j]
  {
    if step.Recover? { BatchPointwise(cfg, s.rows, Expired(s.now, step.locked), step.limit, j); }
  }

  lemma BackgroundNeverOvertakes(cfg: Config, s: State, step: Step, time: int, request: nat)
    requires cfg.Valid() && Inv(cfg, s) && Disciplined(cfg, step) && Background(step) && time < s.now
    ensures var t := Apply(cfg, s, step);
            && |t.rows| == |s.rows| && t.admission == s.admission
            && (forall j :: 0 <= j < |s.rows| && Before(t.rows[j], time, request) ==> Before(s.rows[j], time, request))
            && CountBefore(t.rows, time, request) <= CountBefore(s.rows, time, request)
  {
    var t := Apply(cfg, s, step);
    BackgroundAdvances(cfg, s, step);
    forall j | 0 <= j < |s.rows| && Before(t.rows[j], time, request) ensures Before(s.rows[j], time, request) {
      NewlyPendingIsBehind(cfg, s, step, j, time, request);
    }
    CountMonotone(s.rows, t.rows, time, request);
  }

  /** No step puts more work ahead of an overdue row, counting the insert in flight as already there. */
  lemma NeverOvertaken(cfg: Config, s: State, step: Step, time: int, request: nat)
    requires cfg.Valid() && Inv(cfg, s) && Disciplined(cfg, step) && time < s.now
    ensures Ahead(Apply(cfg, s, step), time, request) <= Ahead(s, time, request)
  {
    if Background(step) {
      BackgroundNeverOvertakes(cfg, s, step, time, request);
    } else if step.Commit? {
      CommitCounts(s, time, request);
    }
  }

  /** A commit moves the insert in flight to the rows. */
  lemma CommitCounts(s: State, time: int, request: nat)
    ensures CountBefore(CommitAdmission(s).rows, time, request) == CountBefore(s.rows, time, request)
                                                                   + InFlight(s, time, request)
    ensures InFlight(CommitAdmission(s), time, request) == 0
  {
    if s.admission.Executed? && s.admission.verdict.Insert? {
      CountAppend(s.rows, s.admission.verdict.row, time, request);
    }
  }

  /** A committed row appears ahead of an overdue one exactly when an insert executed before that time commits late. */
  lemma OvertakenIff(cfg: Config, s: State, step: Step, time: int, request: nat)
    requires cfg.Valid() && Inv(cfg, s) && Disciplined(cfg, step) && time < s.now
    ensures CountBefore(Apply(cfg, s, step).rows, time, request) > CountBefore(s.rows, time, request)
            <==> step.Commit? && InFlight(s, time, request) == 1
  {
    if Background(step) {
      BackgroundNeverOvertakes(cfg, s, step, time, request);
    } else if step.Commit? {
      CommitCounts(s, time, request);
    }
  }

  /** A claim that may take an overdue row takes it, or a row ahead of it. */
  lemma ClaimProgress(cfg: Config, s: State, locked: set<Id>, lease: nat, i: nat, time: int)
    requires cfg.Valid() && Inv(cfg, s) && Overdue(s, i, time) && s.rows[i].id !in locked
    ensures var t := Apply(cfg, s, Claim(locked, lease));
            || t.rows[i] == Claimed(s.rows[i], s.now, lease)
            || Ahead(t, time, s.rows[i].requestSeq) < Ahead(s, time, s.rows[i].requestSeq)
  {
    var list := Ready(s.now, locked);
    var f := First(list, s.rows);
    var request := s.rows[i].requestSeq;
    assert list.Lists(s.rows[i]);
    if f != i {
      assert s.rows[f].requestSeq != request;
      assert Before(s.rows[f], time, request);
      var t := Apply(cfg, s, Claim(locked, lease));
      BackgroundNeverOvertakes(cfg, s, Claim(locked, lease), time, request);
      CountRemoved(s.rows, t.rows, f, time, request);
    }
  }

  function Claims(steps: seq<Step>): nat {
    if steps == [] then 0 else Claims(steps[..|steps| - 1]) + if steps[|steps| - 1].Claim? then 1 else 0
  }

  /** Nobody holds a lock on the row while a claim runs. */
  ghost predicate NeverLocked(steps: seq<Step>, id: Id) {
    forall k :: 0 <= k < |steps| && steps[k].Claim? ==> id !in steps[k].locked
  }

  lemma {:induction false} WaitingCostsClaims(cfg: Config, s: State, steps: seq<Step>, i: nat, time: int)
    requires cfg.Valid() && Inv(cfg, s) && AllDisciplined(cfg, steps) && Overdue(s, i, time)
    requires NeverLocked(steps, s.rows[i].id)
    requires i < |Run(cfg, s, steps).rows| && Run(cfg, s, steps).rows[i] == s.rows[i]
    ensures var request := s.rows[i].requestSeq;
            Claims(steps) + Ahead(Run(cfg, s, steps), time, request) <= Ahead(s, time, request)
  {
    if steps != [] {
      var front, step := steps[..|steps| - 1], steps[|steps| - 1];
      var t := Run(cfg, s, front);
      RunKeepsInv(cfg, s, front);
      RunEvolves(cfg, s, front);
      StepEvolves(cfg, t, step);
      StillThere(s.rows[i], t.rows[i], Apply(cfg, t, step).rows[i]);
      WaitingCostsClaims(cfg, s, front, i, time);
      NeverOvertaken(cfg, t, step, time, s.rows[i].requestSeq);
      if step.Claim? { ClaimProgress(cfg, t, step.locked, step.lease, i, time); }
    }
  }

  lemma StillThere(a: Row, b: Row, c: Row)
    requires Evolves(a, b) && Evolves(b, c) && c == a
    ensures b == a
  {
  }

  lemma {:induction false} CountBelowActive(rows: seq<Row>, i: nat, time: int, request: nat)
    requires i < |rows| && Active(rows[i]) && !Before(rows[i], time, request)
    ensures CountBefore(rows, time, request) < ActiveCount(rows)
  {
    var n := |rows| - 1;
    if i < n { CountBelowActive(rows[..n], i, time, request); } else { CountAtMostActive(rows[..n], time, request); }
  }

  lemma {:induction false} CountAtMostActive(rows: seq<Row>, time: int, request: nat)
    ensures CountBefore(rows, time, request) <= ActiveCount(rows)
  {
    if rows != [] { CountAtMostActive(rows[..|rows| - 1], time, request); }
  }

  /** Fewer than MaxActive requests stand ahead of an overdue one. */
  lemma AheadBelowCapacity(cfg: Config, s: State, i: nat, time: int)
    requires Inv(cfg, s) && Overdue(s, i, time)
    ensures Ahead(s, time, s.rows[i].requestSeq) < cfg.maxActive
  {
    CountBelowActive(s.rows, i, time, s.rows[i].requestSeq);
  }

  /** Once a request is overdue, as many claims as stand ahead of it, and one more, cannot leave it unclaimed. */
  lemma NoStarvation(cfg: Config, s: State, steps: seq<Step>, i: nat, time: int)
    requires cfg.Valid() && Inv(cfg, s) && AllDisciplined(cfg, steps) && Overdue(s, i, time)
    requires NeverLocked(steps, s.rows[i].id)
    requires Claims(steps) > Ahead(s, time, s.rows[i].requestSeq) || Claims(steps) >= cfg.maxActive
    ensures i < |Run(cfg, s, steps).rows| && Run(cfg, s, steps).rows[i].attempt > s.rows[i].attempt
  {
    RunEvolves(cfg, s, steps);
    AheadBelowCapacity(cfg, s, i, time);
    var r := Run(cfg, s, steps).rows[i];
    assert Evolves(s.rows[i], r);
    if r == s.rows[i] { WaitingCostsClaims(cfg, s, steps, i, time); }
  }

  // ---- an insert in flight that does overtake

  /** Request `a` is admitted at time 0 and claimed; nobody writes with the claim. */
  function ClaimOfA(command: Command, a: Id, lease: nat): seq<Step> {
    [] + [Lock] + [Snapshot] + [Execute(command, a)] + [Commit] + [Claim({}, lease)]
  }

  /** The insert of `b` is executed one microsecond before the lease of `a` ends, and waits for its commit. */
  function InsertOfB(command: Command, a: Id, b: Id, lease: nat): seq<Step>
    requires lease > 0
  {
    ClaimOfA(command, a, lease) + [Tick(lease - 1)] + [Lock] + [Snapshot] + [Execute(command, b)]
  }

  /** Then `a` is recovered, and is overdue one microsecond later. */
  function RecoveryOfA(command: Command, a: Id, b: Id, lease: nat): seq<Step>
    requires lease > 0
  {
    InsertOfB(command, a, b, lease) + [Tick(1)] + [Recover({}, 1)] + [Tick(1)]
  }

  function RowA(command: Command, a: Id, lease: nat): Row {
    Claimed(Admitted(a, 0, command, 0), 0, lease)
  }

  lemma FirstOfOne(list: WorkList, r: Row)
    requires list.Lists(r)
    ensures First(list, [r]) == 0
  {
  }

  lemma ClaimOfAIsReached(cfg: Config, command: Command, a: Id, lease: nat)
    requires cfg.maxActive >= 2 && command.key == []
    ensures Run(cfg, INITIAL, ClaimOfA(command, a, lease)) == State([RowA(command, a, lease)], map[], 1, 0, Free)
  {
    var executed := [] + [Lock] + [Snapshot] + [Execute(command, a)];
    Runs.AdmissionInserts(cfg, [], command, a);
    Runs.RunStep(cfg, INITIAL, executed, Commit);
    Runs.RunStep(cfg, INITIAL, executed + [Commit], Claim({}, lease));
    assert [] + [Admitted(a, 0, command, 0)] == [Admitted(a, 0, command, 0)];
    FirstOfOne(Ready(0, {}), Admitted(a, 0, command, 0));
  }

  lemma OneRow(r: Row, id: Id)
    requires r.id != id
    ensures Find([r], id) < 0 && ActiveCount([r]) <= 1
  {
    ActiveCountAppend([], r);
    assert [] + [r] == [r];
  }

  lemma InsertOfBIsReached(cfg: Config, command: Command, a: Id, b: Id, lease: nat)
    requires cfg.maxActive >= 2 && command.key == [] && a != b && lease > 0
    ensures Run(cfg, INITIAL, InsertOfB(command, a, b, lease))
            == State([RowA(command, a, lease)], map[], 2, lease - 1,
                     Executed(command, Insert(Admitted(b, 1, command, lease - 1))))
  {
    ClaimOfAIsReached(cfg, command, a, lease);
    Runs.RunStep(cfg, INITIAL, ClaimOfA(command, a, lease), Tick(lease - 1));
    OneRow(RowA(command, a, lease), b);
    Runs.AdmissionInserts(cfg, ClaimOfA(command, a, lease) + [Tick(lease - 1)], command, b);
  }

  lemma RecoverOfOne(cfg: Config, r: Row, now: int)
    requires Expired(now, {}).Lists(r)
    ensures RecoverBatch(cfg, [r], Expired(now, {}), 1) == [Recovered(cfg, r, now)]
  {
    FirstOfOne(Expired(now, {}), r);
    assert [r][0 := Recovered(cfg, r, now)] == [Recovered(cfg, r, now)];
  }

  lemma RecoveryOfAIsReached(cfg: Config, command: Command, a: Id, b: Id, lease: nat)
    requires cfg.maxAttempts >= 2 && cfg.maxActive >= 2 && command.key == [] && a != b && lease > 0
    ensures Run(cfg, INITIAL, RecoveryOfA(command, a, b, lease))
            == State([Retried(RowA(command, a, lease), lease, 0)], map[], 2, lease + 1,
                     Executed(command, Insert(Admitted(b, 1, command, lease - 1))))
  {
    var steps := InsertOfB(command, a, b, lease);
    InsertOfBIsReached(cfg, command, a, b, lease);
    Runs.RunStep(cfg, INITIAL, steps, Tick(1));
    Runs.RunStep(cfg, INITIAL, steps + [Tick(1)], Recover({}, 1));
    Runs.RunStep(cfg, INITIAL, steps + [Tick(1)] + [Recover({}, 1)], Tick(1));
    RecoverOfOne(cfg, RowA(command, a, lease), lease);
  }

  lemma RecoveryOfAIsDisciplined(cfg: Config, command: Command, a: Id, b: Id, lease: nat)
    requires command.pair.Valid() && command.key == [] && lease > 0
    ensures AllDisciplined(cfg, RecoveryOfA(command, a, b, lease))
  {
  }

  /** A run, for a lease of any length, after which a commit puts a later request ahead of an overdue one. */
  lemma LateCommitOvertakes(cfg: Config, command: Command, a: Id, b: Id, lease: nat)
    requires cfg.maxAttempts >= 2 && cfg.maxActive >= 2 && a != b && lease > 0
    requires command.pair.Valid() && command.key == []
    ensures AllDisciplined(cfg, RecoveryOfA(command, a, b, lease))
    ensures var s := Run(cfg, INITIAL, RecoveryOfA(command, a, b, lease));
            && Overdue(s, 0, lease)
            && CountBefore(s.rows, lease, 0) == 0 && CountBefore(Apply(cfg, s, Commit).rows, lease, 0) == 1
  {
    RecoveryOfAIsDisciplined(cfg, command, a, b, lease);
    RecoveryOfAIsReached(cfg, command, a, b, lease);
    CountOfTwo(Retried(RowA(command, a, lease), lease, 0), Admitted(b, 1, command, lease - 1), lease);
  }

  lemma CountOfTwo(r: Row, late: Row, time: int)
    requires !Before(r, time, 0) && Before(late, time, 0)
    ensures CountBefore([r], time, 0) == 0 && CountBefore([r] + [late], time, 0) == 1
  {
    CountAppend([], r, time, 0);
    assert [] + [r] == [r];
    CountAppend([r], late, time, 0);
  }
}
