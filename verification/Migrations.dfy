/** Replicas that migrate one database: each script is applied once, in the order of the names. */
module Migrations {

  /** How far the transaction that holds the migration lock has come. */
  datatype Progress = Began | Looked(applied: bool) | Ran | Recorded

  datatype Holder = Nobody | Held(replica: nat, progress: Progress)

  /** Committed tables, the lock, and how many names each replica has passed. */
  datatype State = State(ledger: seq<string>, schema: seq<string>, holder: Holder, passed: map<nat, nat>)

  datatype Step =
    | Restart(replica: nat)
    | Begin(replica: nat)
    | Look
    | Script
    | Record
    | Commit
    | Abort

  function Passed(s: State, replica: nat): nat {
    if replica in s.passed then s.passed[replica] else 0
  }

  predicate Working(names: seq<string>, s: State) {
    s.holder.Held? && Passed(s, s.holder.replica) < |names|
  }

  /** The effects of a script and of its record stay private until the commit. */
  function Apply(names: seq<string>, s: State, step: Step): State {
    match step
    case Restart(replica) =>
      if s.holder.Held? && s.holder.replica == replica then s else s.(passed := s.passed[replica := 0])
    case Begin(replica) =>
      if s.holder.Nobody? && Passed(s, replica) < |names| then s.(holder := Held(replica, Began)) else s
    case Look =>
      if Working(names, s) && s.holder.progress.Began?
      then s.(holder := s.holder.(progress := Looked(names[Passed(s, s.holder.replica)] in s.ledger))) else s
    case Script =>
      if s.holder.Held? && s.holder.progress == Looked(false) then s.(holder := s.holder.(progress := Ran)) else s
    case Record =>
      if s.holder.Held? && s.holder.progress.Ran? then s.(holder := s.holder.(progress := Recorded)) else s
    case Commit =>
      if !Working(names, s) then s
      else
        var replica := s.holder.replica;
        var next := s.passed[replica := Passed(s, replica) + 1];
        if s.holder.progress == Looked(true) then s.(holder := Nobody, passed := next)
        else if s.holder.progress.Recorded? then
          var name := names[Passed(s, replica)];
          State(s.ledger + [name], s.schema + [name], Nobody, next)
        else s
    case Abort => s.(holder := Nobody)
  }

  function Run(names: seq<string>, s: State, steps: seq<Step>): State {
    if steps == [] then s else Apply(names, Run(names, s, steps[..|steps| - 1]), steps[|steps| - 1])
  }

  const EMPTY := State([], [], Nobody, map[])

  predicate Distinct(names: seq<string>) {
    forall i, j :: 0 <= i < j < |names| ==> names[i] != names[j]
  }

  /** The ledger is a prefix of the names, the schema is that prefix applied in order, each script once. */
  ghost predicate Inv(names: seq<string>, s: State) {
    && s.ledger <= names && s.schema == s.ledger
    && (forall replica :: replica in s.passed ==> s.passed[replica] <= |s.ledger|)
    && (s.holder.Held? ==>
          && Passed(s, s.holder.replica) < |names|
          && var unapplied := Passed(s, s.holder.replica) == |s.ledger|;
             match s.holder.progress
             case Began => true
             case Looked(applied) => applied == !unapplied
             case Ran => unapplied
             case Recorded => unapplied)
  }

  /** A name that a replica has reached is unapplied exactly if the ledger ends before it. */
  lemma LookedUp(names: seq<string>, s: State)
    requires Distinct(names) && Inv(names, s) && s.holder.Held?
    ensures var k := Passed(s, s.holder.replica); names[k] in s.ledger <==> k != |s.ledger|
  {
    var k := Passed(s, s.holder.replica);
    if k < |s.ledger| { assert s.ledger[k] == names[k]; }
  }

  lemma StepKeepsInv(names: seq<string>, s: State, step: Step)
    requires Distinct(names) && Inv(names, s)
    ensures Inv(names, Apply(names, s, step)) && s.ledger <= Apply(names, s, step).ledger
  {
    if s.holder.Held? { LookedUp(names, s); }
  }

  lemma {:induction false} RunKeepsInv(names: seq<string>, s: State, steps: seq<Step>)
    requires Distinct(names) && Inv(names, s)
    ensures Inv(names, Run(names, s, steps)) && s.ledger <= Run(names, s, steps).ledger
  {
    if steps != [] {
      var front := steps[..|steps| - 1];
      RunKeepsInv(names, s, front);
      StepKeepsInv(names, Run(names, s, front), steps[|steps| - 1]);
    }
  }

  /** Whatever the replicas do and wherever they fail; and one that has passed every name leaves nothing out. */
  lemma ExactlyOnceInOrder(names: seq<string>, steps: seq<Step>)
    requires Distinct(names)
    ensures var t := Run(names, EMPTY, steps);
            && t.ledger <= names && t.schema == t.ledger && Distinct(t.schema)
            && forall replica :: Passed(t, replica) == |names| ==> t.schema == names
  {
    RunKeepsInv(names, EMPTY, steps);
  }

  // ---- one replica

  /** Steps of the other replicas only. */
  predicate Foreign(step: Step, replica: nat) {
    (step.Restart? || step.Begin?) ==> step.replica != replica
  }

  ghost predicate AllForeign(steps: seq<Step>, replica: nat) {
    forall k :: 0 <= k < |steps| ==> Foreign(steps[k], replica)
  }

  predicate Outside(s: State, replica: nat) {
    s.holder.Held? ==> s.holder.replica != replica
  }

  lemma ForeignStep(names: seq<string>, s: State, step: Step, replica: nat)
    requires Foreign(step, replica) && Outside(s, replica)
    ensures Outside(Apply(names, s, step), replica) && Passed(Apply(names, s, step), replica) == Passed(s, replica)
  {
  }

  lemma {:induction false} ForeignRun(names: seq<string>, s: State, steps: seq<Step>, replica: nat)
    requires AllForeign(steps, replica) && Outside(s, replica)
    ensures Outside(Run(names, s, steps), replica) && Passed(Run(names, s, steps), replica) == Passed(s, replica)
  {
    if steps != [] {
      ForeignRun(names, s, steps[..|steps| - 1], replica);
      ForeignStep(names, Run(names, s, steps[..|steps| - 1]), steps[|steps| - 1], replica);
    }
  }

  /** The statements of one migration transaction that commits. */
  function Transaction(replica: nat, applied: bool): seq<Step> {
    if applied then [Begin(replica), Look, Commit] else [Begin(replica), Look, Script, Record, Commit]
  }

  lemma RunStep(names: seq<string>, s: State, steps: seq<Step>, step: Step)
    ensures Run(names, s, steps + [step]) == Apply(names, Run(names, s, steps), step)
  {
    assert (steps + [step])[..|steps|] == steps;
  }

  lemma LookSees(names: seq<string>, s: State, replica: nat)
    requires s.holder.Nobody? && Passed(s, replica) < |names|
    ensures Run(names, s, [Begin(replica), Look])
            == s.(holder := Held(replica, Looked(names[Passed(s, replica)] in s.ledger)))
  {
    RunStep(names, s, [], Begin(replica));
    assert [] + [Begin(replica)] == [Begin(replica)];
    RunStep(names, s, [Begin(replica)], Look);
    assert [Begin(replica)] + [Look] == [Begin(replica), Look];
  }

  /** A name that is not recorded yet: its script and its record are committed together. */
  lemma UnappliedCommits(names: seq<string>, s: State, replica: nat)
    requires s.holder.Nobody? && Passed(s, replica) < |names| && names[Passed(s, replica)] !in s.ledger
    ensures var name := names[Passed(s, replica)];
            Run(names, s, Transaction(replica, false))
            == State(s.ledger + [name], s.schema + [name], Nobody, s.passed[replica := Passed(s, replica) + 1])
  {
    var looked := [Begin(replica), Look];
    LookSees(names, s, replica);
    RunStep(names, s, looked, Script);
    RunStep(names, s, looked + [Script], Record);
    RunStep(names, s, looked + [Script] + [Record], Commit);
    assert Transaction(replica, false) == looked + [Script] + [Record] + [Commit];
  }

  lemma TransactionCommits(names: seq<string>, s: State, replica: nat, applied: bool)
    requires s.holder.Nobody? && Passed(s, replica) < |names| && applied == (names[Passed(s, replica)] in s.ledger)
    ensures var name := names[Passed(s, replica)];
            Run(names, s, Transaction(replica, applied))
            == State(if applied then s.ledger else s.ledger + [name], if applied then s.schema else s.schema + [name],
                     Nobody, s.passed[replica := Passed(s, replica) + 1])
  {
    if applied {
      LookSees(names, s, replica);
      RunStep(names, s, [Begin(replica), Look], Commit);
      assert Transaction(replica, true) == [Begin(replica), Look] + [Commit];
    } else {
      UnappliedCommits(names, s, replica);
    }
  }

  /** Where the transaction of one name fails, if it does; the reply of a commit that took effect can be lost. */
  datatype Failure = Never | AtLook | AtScript | AtRecord | AtCommit | ReplyLost

  /** The transaction is committed: a name that is applied already runs no script and records nothing. */
  predicate Commits(failure: Failure, applied: bool) {
    failure.Never? || failure.ReplyLost? || (applied && (failure.AtScript? || failure.AtRecord?))
  }

  ghost predicate Undisturbed(count: nat, others: nat -> seq<Step>, failures: nat -> Failure) {
    forall k: nat :: k < count ==> |others(k)| == 0 && failures(k).Never?
  }

  class Schema {
    var ledger: seq<string>
    var schema: seq<string>
    var holder: Holder
    var passed: map<nat, nat>

    function Tables(): State
      reads this
    {
      State(ledger, schema, holder, passed)
    }

    method Interfere(names: seq<string>, steps: seq<Step>)
      modifies this
      ensures Tables() == Run(names, old(Tables()), steps)
    {
      for n := 0 to |steps|
        invariant Tables() == Run(names, old(Tables()), steps[..n])
      {
        assert steps[..n + 1][..n] == steps[..n];
        var next := Apply(names, Tables(), steps[n]);
        ledger, schema, holder, passed := next.ledger, next.schema, next.holder, next.passed;
      }
      assert steps[..|steps|] == steps;
    }

    /** One transaction: look the name up, run its script and record it, commit. A failure undoes all of it. */
    method ApplyMigration(names: seq<string>, replica: nat, failure: Failure) returns (ok: bool)
      requires holder.Nobody? && Passed(Tables(), replica) < |names|
      modifies this
      ensures var applied := names[Passed(old(Tables()), replica)] in old(ledger);
              && Tables() == (if Commits(failure, applied)
                              then Run(names, old(Tables()), Transaction(replica, applied)) else old(Tables()))
              && (ok <==> Commits(failure, applied) && !failure.ReplyLost?)
    {
      var position := Passed(Tables(), replica);
      var name := names[position];
      var newLedger, newSchema := ledger, schema;
      if failure.AtLook? {
        return false;
      }
      var applied := name in ledger;
      if !applied {
        if failure.AtScript? {
          return false;
        }
        newSchema := newSchema + [name];
        if failure.AtRecord? {
          return false;
        }
        newLedger := newLedger + [name];
      }
      if failure.AtCommit? {
        return false;
      }
      TransactionCommits(names, Tables(), replica, applied);
      ledger, schema, passed := newLedger, newSchema, passed[replica := position + 1];
      return !failure.ReplyLost?;
    }

    /**
     One run over all names, between any steps of the other replicas. A success leaves every script
     applied, and a run that nobody disturbs and nothing fails is one.
     */
    method RunMigrations(names: seq<string>, replica: nat, others: nat -> seq<Step>, failures: nat -> Failure)
      returns (ok: bool)
      requires Distinct(names) && Inv(names, Tables()) && Outside(Tables(), replica)
      requires forall k: nat :: AllForeign(others(k), replica)
      modifies this
      ensures Inv(names, Tables()) && old(ledger) <= ledger
      ensures ok ==> ledger == names && schema == names
      ensures old(holder).Nobody? && Undisturbed(|names|, others, failures) ==> ok
    {
      passed := passed[replica := 0];
      for k := 0 to |names|
        invariant Inv(names, Tables()) && Outside(Tables(), replica) && Passed(Tables(), replica) == k
        invariant old(ledger) <= ledger
        invariant old(holder).Nobody? && Undisturbed(|names|, others, failures) ==> holder.Nobody?
      {
        var done := MigrateNext(names, replica, others(k), failures(k));
        if !done {
          return false;
        }
      }
      return true;
    }

    /** Wait for the lock, then the transaction of the next name. */
    method MigrateNext(names: seq<string>, replica: nat, others: seq<Step>, failure: Failure) returns (ok: bool)
      requires Distinct(names) && Inv(names, Tables()) && Outside(Tables(), replica)
      requires Passed(Tables(), replica) < |names| && AllForeign(others, replica)
      modifies this
      ensures Inv(names, Tables()) && old(ledger) <= ledger
      ensures ok ==> holder.Nobody? && Passed(Tables(), replica) == Passed(old(Tables()), replica) + 1
      ensures old(holder).Nobody? && |others| == 0 && failure.Never? ==> ok
    {
      RunKeepsInv(names, Tables(), others);
      ForeignRun(names, Tables(), others, replica);
      Interfere(names, others);
      if holder.Held? {
        return false;
      }
      ghost var applied := names[Passed(Tables(), replica)] in ledger;
      RunKeepsInv(names, Tables(), Transaction(replica, applied));
      TransactionCommits(names, Tables(), replica, applied);
      ok := ApplyMigration(names, replica, failure);
    }
  }
}
