/** How long a claim is safe from recovery and a schedule from being claimed, and what the configuration check buys. */
module Lease {
  import opened Domain
  import opened Queue
  import opened Invariants
  import Runs

  const COMMIT_MARGIN: nat := 1_000_000_000

  /** The lease inequality of the configuration, in nanoseconds. */
  predicate ConfigAccepts(lease: nat, providerTimeout: nat) {
    lease >= COMMIT_MARGIN && providerTimeout <= lease - COMMIT_MARGIN
  }

  /** Nobody writes with the token; the tokens of `Workers` give this for every pass but the holder of the token. */
  ghost predicate NotWritten(steps: seq<Step>, id: Id, attempt: nat) {
    forall k :: 0 <= k < |steps| ==> !Runs.WritesWith(steps[k], id, attempt)
  }

  /** Before its lease runs out, only a write with its own token can take a claim away. */
  lemma StepKeepsClaim(cfg: Config, s: State, step: Step, i: nat)
    requires cfg.Valid() && Inv(cfg, s) && Disciplined(cfg, step) && i < |s.rows| && s.rows[i].status.Processing?
    requires !Runs.WritesWith(step, s.rows[i].id, s.rows[i].attempt)
    requires s.rows[i].leaseUntil.Some? && s.now < s.rows[i].leaseUntil.value
    ensures i < |Apply(cfg, s, step).rows| && Apply(cfg, s, step).rows[i] == s.rows[i]
  {
    if step.Recover? {
      BatchPointwise(cfg, s.rows, Expired(s.now, step.locked), step.limit, i);
    }
  }

  lemma {:induction false} ClaimOutlastsItsLease(cfg: Config, s: State, steps: seq<Step>, i: nat)
    requires cfg.Valid() && Inv(cfg, s) && AllDisciplined(cfg, steps) && i < |s.rows| && s.rows[i].status.Processing?
    requires NotWritten(steps, s.rows[i].id, s.rows[i].attempt)
    requires s.rows[i].leaseUntil.Some? && Run(cfg, s, steps).now < s.rows[i].leaseUntil.value
    ensures i < |Run(cfg, s, steps).rows| && Run(cfg, s, steps).rows[i] == s.rows[i]
  {
    if steps != [] {
      var front, step := steps[..|steps| - 1], steps[|steps| - 1];
      RunKeepsInv(cfg, s, front);
      StepEvolves(cfg, Run(cfg, s, front), step);
      ClaimOutlastsItsLease(cfg, s, front, i);
      StepKeepsClaim(cfg, Run(cfg, s, front), step, i);
    }
  }

  /** A claim that nobody has written with is still owned while its lease lasts. */
  lemma UnwrittenClaimIsOwned(cfg: Config, s: State, locked: set<Id>, lease: nat, steps: seq<Step>)
    requires cfg.Valid() && Inv(cfg, s) && AllDisciplined(cfg, steps)
    requires First(Ready(s.now, locked), s.rows) >= 0
    requires var claimed := Apply(cfg, s, Claim(locked, lease)).rows[First(Ready(s.now, locked), s.rows)];
             NotWritten(steps, claimed.id, claimed.attempt)
    requires Run(cfg, Apply(cfg, s, Claim(locked, lease)), steps).now < s.now + lease
    ensures var i := First(Ready(s.now, locked), s.rows);
            var claimed := Apply(cfg, s, Claim(locked, lease));
            Owned(Run(cfg, claimed, steps).rows, claimed.rows[i].id, claimed.rows[i].attempt) == i
  {
    var i := First(Ready(s.now, locked), s.rows);
    var claimed := Apply(cfg, s, Claim(locked, lease));
    StepKeepsInv(cfg, s, Claim(locked, lease));
    ClaimOutlastsItsLease(cfg, claimed, steps, i);
    RunKeepsInv(cfg, claimed, steps);
    Runs.OwnedIff(Run(cfg, claimed, steps).rows, claimed.rows[i].id, claimed.rows[i].attempt);
    assert Runs.Holds(Run(cfg, claimed, steps).rows[i], claimed.rows[i].id, claimed.rows[i].attempt);
  }

  // ---- scheduled retries

  lemma StepKeepsSchedule(cfg: Config, s: State, step: Step, i: nat)
    requires cfg.Valid() && Inv(cfg, s) && Disciplined(cfg, step) && i < |s.rows| && s.rows[i].status.Pending?
    requires s.rows[i].nextAttemptAt.Some? && s.now < s.rows[i].nextAttemptAt.value
    ensures i < |Apply(cfg, s, step).rows| && Apply(cfg, s, step).rows[i] == s.rows[i]
  {
    if step.Recover? {
      BatchPointwise(cfg, s.rows, Expired(s.now, step.locked), step.limit, i);
    }
  }

  /** A pending request is left alone until its time has come. */
  lemma {:induction false} PendingWaitsForItsTime(cfg: Config, s: State, steps: seq<Step>, i: nat)
    requires cfg.Valid() && Inv(cfg, s) && AllDisciplined(cfg, steps) && i < |s.rows| && s.rows[i].status.Pending?
    requires s.rows[i].nextAttemptAt.Some? && Run(cfg, s, steps).now < s.rows[i].nextAttemptAt.value
    ensures i < |Run(cfg, s, steps).rows| && Run(cfg, s, steps).rows[i] == s.rows[i]
  {
    if steps != [] {
      var front, step := steps[..|steps| - 1], steps[|steps| - 1];
      RunKeepsInv(cfg, s, front);
      StepEvolves(cfg, Run(cfg, s, front), step);
      PendingWaitsForItsTime(cfg, s, front, i);
      StepKeepsSchedule(cfg, Run(cfg, s, front), step, i);
    }
  }

  /** After a retry, nobody claims the request before the delay has passed on the database clock. */
  lemma RetryHonoursItsDelay(cfg: Config, s: State, id: Id, attempt: nat, delay: nat, steps: seq<Step>)
    requires cfg.Valid() && Inv(cfg, s) && AllDisciplined(cfg, steps) && attempt < cfg.maxAttempts
    requires Owned(s.rows, id, attempt) >= 0
    requires var retried := Apply(cfg, s, Retry(id, attempt, delay)); Run(cfg, retried, steps).now < s.now + delay
    ensures var i, retried := Owned(s.rows, id, attempt), Apply(cfg, s, Retry(id, attempt, delay));
            && i < |Run(cfg, retried, steps).rows|
            && Run(cfg, retried, steps).rows[i].status.Pending? && Run(cfg, retried, steps).rows[i].attempt == attempt
  {
    StepKeepsInv(cfg, s, Retry(id, attempt, delay));
    PendingWaitsForItsTime(cfg, Apply(cfg, s, Retry(id, attempt, delay)), steps, Owned(s.rows, id, attempt));
  }

  /** A pending request that is on the same attempt later has not changed. */
  lemma UnclaimedStays(cfg: Config, s: State, steps: seq<Step>, i: nat)
    requires cfg.Valid() && Inv(cfg, s) && AllDisciplined(cfg, steps) && i < |s.rows| && s.rows[i].status.Pending?
    requires var t := Run(cfg, s, steps); i < |t.rows| ==> t.rows[i].attempt == s.rows[i].attempt
    ensures i < |Run(cfg, s, steps).rows| && Run(cfg, s, steps).rows[i] == s.rows[i]
  {
    RunEvolves(cfg, s, steps);
    assert Evolves(s.rows[i], Run(cfg, s, steps).rows[i]);
  }

  /** A retried request stays as it is until it is claimed, and may be claimed as soon as the delay has passed. */
  lemma RetryFallsDue(cfg: Config, s: State, id: Id, attempt: nat, delay: nat, steps: seq<Step>, locked: set<Id>)
    requires cfg.Valid() && Inv(cfg, s) && AllDisciplined(cfg, steps) && attempt < cfg.maxAttempts
    requires Owned(s.rows, id, attempt) >= 0 && id !in locked
    requires var t := Run(cfg, Apply(cfg, s, Retry(id, attempt, delay)), steps);
             t.now >= s.now + delay
             && (Owned(s.rows, id, attempt) < |t.rows| ==> t.rows[Owned(s.rows, id, attempt)].attempt == attempt)
    ensures var i, t := Owned(s.rows, id, attempt), Run(cfg, Apply(cfg, s, Retry(id, attempt, delay)), steps);
            && i < |t.rows| && t.rows[i].nextAttemptAt == Some(s.now + delay) && Due(t.rows[i], t.now, locked)
            && First(Ready(t.now, locked), t.rows) >= 0
  {
    var i, retried := Owned(s.rows, id, attempt), Apply(cfg, s, Retry(id, attempt, delay));
    var t := Run(cfg, retried, steps);
    StepKeepsInv(cfg, s, Retry(id, attempt, delay));
    UnclaimedStays(cfg, retried, steps, i);
    ClaimTakesEarliest(t.rows, t.now, locked);
  }

  /** A claim and a recovery leave rows alone that somebody else has locked. */
  lemma LockedIsLeftAlone(cfg: Config, s: State, step: Step, i: nat)
    requires (step.Claim? || step.Recover?) && i < |s.rows| && s.rows[i].id in step.locked
    ensures i < |Apply(cfg, s, step).rows| && Apply(cfg, s, step).rows[i] == s.rows[i]
  {
    if step.Recover? {
      BatchPointwise(cfg, s.rows, Expired(s.now, step.locked), step.limit, i);
    }
  }

  // ---- the configuration

  /** The configuration check is the premise of the guarantee without delay, for durations of whole microseconds. */
  lemma ConfigCoversWholeMicros(lease: nat, providerTimeout: nat)
    requires lease % 1000 == 0 && providerTimeout % 1000 == 0
    ensures ConfigAccepts(lease, providerTimeout) <==> providerTimeout / 1000 + 1_000_000 <= lease / 1000
  {
  }

  // ---- nanoseconds

  /** The database clock reads a time in nanoseconds as whole microseconds. */
  function Micros(time: int): int {
    time / 1000
  }

  /** Whenever the claim is made, the clock reads less than the lease's end until `budget` nanoseconds have passed. */
  ghost predicate Covers(lease: nat, budget: nat) {
    forall claim: int, write: int ::
      claim <= write < claim + budget ==> Micros(write) < Micros(claim) + Micros(lease)
  }

  /** The lease must exceed the budget by what the truncation of two readings and of the lease can lose. */
  lemma CoversIff(lease: nat, budget: nat)
    requires budget > 0
    ensures Covers(lease, budget) <==> Micros(budget + 998) < Micros(lease)
  {
    if Covers(lease, budget) {
      var claim, write := 999, 998 + budget;
      assert Micros(write) < Micros(claim) + Micros(lease);
    }
  }

  /** At the exact boundary that the configuration admits, a recovery can still come before the last write. */
  lemma BoundaryIsNotCovered(lease: nat, providerTimeout: nat)
    requires lease == providerTimeout + COMMIT_MARGIN
    ensures ConfigAccepts(lease, providerTimeout) && !Covers(lease, providerTimeout + COMMIT_MARGIN)
  {
    CoversIff(lease, lease);
  }

  lemma TwoMicrosecondsSuffice(lease: nat, providerTimeout: nat)
    requires ConfigAccepts(lease, providerTimeout) && providerTimeout + COMMIT_MARGIN + 1998 <= lease
    ensures Covers(lease, providerTimeout + COMMIT_MARGIN)
  {
    CoversIff(lease, providerTimeout + COMMIT_MARGIN);
  }
}
