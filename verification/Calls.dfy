/** What the callers of CreateOrGet are told, over whole runs in which any calls of all replicas overlap. */
module Calls {
  import opened Domain
  import opened Queue
  import opened Invariants
  import opened Reads
  import opened Runs
  import opened S = Store

  /** One call that reaches the database: where it starts in the run, what it asks, and what it meets. */
  datatype Call = Call(start: nat, command: Command, id: Id, others: Others, outage: Outage, trace: seq<Step>) {

    /** The position of the statement in the run. */
    function Statement(): nat {
      start + |others.Opening()|
    }

    /** The position of the last step, the commit or the rollback. */
    function Last(): int {
      start + |trace| - 1
    }
  }

  /** The run contains the steps of the call, and the call is answered as `Store.CreateOrGet` promises. */
  ghost predicate Made(cfg: Config, steps: seq<Step>, c: Call, verdict: Verdict, r: Result<(QuoteUpdate, bool)>) {
    && c.others.Valid(cfg) && c.start + |c.trace| <= |steps| && steps[c.start..c.start + |c.trace|] == c.trace
    && Admits(cfg, c.command, c.id, c.others, c.outage, At(cfg, steps, c.start), c.trace, verdict, r)
  }

  /** The lock was obtained. */
  predicate Opened(cfg: Config, steps: seq<Step>, c: Call)
    requires c.start <= |steps|
  {
    Opens(cfg, At(cfg, steps, c.start), c.others, c.outage)
  }

  lemma AtLater(cfg: Config, steps: seq<Step>, start: nat, trace: seq<Step>, n: nat)
    requires n <= |trace| && start + |trace| <= |steps| && steps[start..start + |trace|] == trace
    ensures At(cfg, steps, start + n) == Run(cfg, At(cfg, steps, start), trace[..n])
  {
    AtIsRun(cfg, steps, start);
    AtIsRun(cfg, steps, start + n);
    RunSplit(cfg, INITIAL, steps[..start], trace[..n]);
    assert steps[..start] + trace[..n] == steps[..start + n] by {
      assert trace[..n] == steps[start..start + n];
    }
  }

  /** A call that got the lock has executed its statement, and its last step ends what the statement decided. */
  lemma CallEnds(cfg: Config, steps: seq<Step>, c: Call, verdict: Verdict, r: Result<(QuoteUpdate, bool)>)
    requires Made(cfg, steps, c, verdict, r) && Opened(cfg, steps, c)
    ensures c.Statement() < c.Last() < |steps|
    ensures steps[c.Last()] == LastStep(c.command, verdict, c.outage)
    ensures At(cfg, steps, c.Last()).admission == Executed(c.command, verdict)
  {
    var body := c.others.Body(c.command, c.id);
    AtLater(cfg, steps, c.start, c.trace, |body|);
    assert c.trace[..|body|] == body;
    assert steps[c.Last()] == c.trace[|body|];
  }

  /** A request is reported as created exactly if the last step of the call created it and the reply was not lost. */
  lemma CreatedIff(cfg: Config, steps: seq<Step>, c: Call, verdict: Verdict, r: Result<(QuoteUpdate, bool)>)
    requires cfg.Valid() && AllDisciplined(cfg, steps) && Made(cfg, steps, c, verdict, r) && c.command.key != []
    ensures (r.Ok? && r.value.1) <==>
            Opened(cfg, steps, c) && c.outage.NoOutage? && Creates(cfg, steps, c.Last(), c.command.key)
    ensures r.Ok? && r.value.1 ==> Describes(r.value.0, At(cfg, steps, c.Last()).admission.verdict.row)
  {
    if Opened(cfg, steps, c) {
      CallEnds(cfg, steps, c, verdict, r);
      AtInv(cfg, steps, c.Last());
    }
  }

  /** Calls of one run that are told they created the request of one key are the same transaction. */
  lemma CreatedOnce(cfg: Config, steps: seq<Step>, key: Key,
                    c: Call, verdict: Verdict, r: Result<(QuoteUpdate, bool)>,
                    d: Call, verdict': Verdict, r': Result<(QuoteUpdate, bool)>)
    requires cfg.Valid() && AllDisciplined(cfg, steps) && key != []
    requires Made(cfg, steps, c, verdict, r) && c.command.key == key
    requires Made(cfg, steps, d, verdict', r') && d.command.key == key
    requires r.Ok? && r.value.1 && r'.Ok? && r'.value.1
    ensures c.Last() == d.Last()
  {
    CreatedIff(cfg, steps, c, verdict, r);
    CreatedIff(cfg, steps, d, verdict', r');
    KeyCreatesOnce(cfg, steps, c.Last(), d.Last(), key);
  }

  // ---- replays

  lemma OpeningSnaps(cfg: Config, s: State, others: Others)
    requires others.Valid(cfg) && Run(cfg, s, others.waiting).admission.Free?
    ensures Run(cfg, s, others.Opening()).admission.Snapped?
  {
    var waited := Run(cfg, s, others.waiting);
    var locked := Apply(cfg, waited, Lock);
    BackgroundLeavesAdmission(cfg, locked, others.locked);
    var idle := Run(cfg, locked, others.locked);
    var snapped := Apply(cfg, idle, Snapshot);
    BackgroundLeavesAdmission(cfg, snapped, others.snapped);
    RunStep(cfg, s, others.waiting, Lock);
    RunSplit(cfg, s, others.waiting + [Lock], others.locked);
    RunStep(cfg, s, others.waiting + [Lock] + others.locked, Snapshot);
    RunSplit(cfg, s, others.waiting + [Lock] + others.locked + [Snapshot], others.snapped);
  }

  /** The statement decides on a snapshot. */
  lemma StatementSnapped(cfg: Config, steps: seq<Step>, c: Call, verdict: Verdict, r: Result<(QuoteUpdate, bool)>)
    requires Made(cfg, steps, c, verdict, r) && Opened(cfg, steps, c)
    ensures c.Statement() < |steps| && steps[c.Statement()] == Execute(c.command, c.id)
    ensures At(cfg, steps, c.Statement()).admission.Snapped?
  {
    TraceOpens(c.others, c.command, c.id, LastStep(c.command, verdict, c.outage));
    AtLater(cfg, steps, c.start, c.trace, |c.others.Opening()|);
    OpeningSnaps(cfg, At(cfg, steps, c.start), c.others);
  }

  lemma TraceOpens(others: Others, command: Command, id: Id, last: Step)
    ensures var opening, trace := others.Opening(), others.Trace(command, id, last);
            |opening| < |trace| && trace[..|opening|] == opening && trace[|opening|] == Execute(command, id)
  {
  }

  /** After its statement a call still holds the lock: what the statement decided is what its last step ends. */
  lemma StatementDecides(cfg: Config, steps: seq<Step>, c: Call, verdict: Verdict, r: Result<(QuoteUpdate, bool)>)
    requires Made(cfg, steps, c, verdict, r) && Opened(cfg, steps, c)
    ensures c.Statement() < c.Last() < |steps|
    ensures At(cfg, steps, c.Statement() + 1).admission == Executed(c.command, verdict)
  {
    var decided, executed := c.others.Opening() + [Execute(c.command, c.id)], c.others.executed;
    var last := LastStep(c.command, verdict, c.outage);
    CallEnds(cfg, steps, c, verdict, r);
    assert c.trace == decided + executed + [last];
    assert c.trace[..|decided|] == decided;
    AtLater(cfg, steps, c.start, c.trace, |decided|);
    RunSplit(cfg, At(cfg, steps, c.start), decided, executed);
    BackgroundLeavesAdmission(cfg, Run(cfg, At(cfg, steps, c.start), decided), executed);
  }

  /** Nobody commits an admission between a call's statement and its last step. */
  lemma NoCommitBetween(cfg: Config, steps: seq<Step>, c: Call, verdict: Verdict,
                        r: Result<(QuoteUpdate, bool)>, k: nat)
    requires Made(cfg, steps, c, verdict, r) && Opened(cfg, steps, c)
    requires c.Statement() <= k < c.Last() && k < |steps|
    ensures !steps[k].Commit?
  {
    var n := k - c.Statement();
    assert steps[k] == c.trace[k - c.start];
    if n > 0 { assert c.trace[k - c.start] == c.others.executed[n - 1]; }
  }

  /**
   Once a key has created a request, told or not, every later call with the key that gets the lock
   is answered from that request, at any capacity, and changes nothing.
   */
  lemma ReplayIsAnswered(cfg: Config, steps: seq<Step>, k: nat, c: Call, verdict: Verdict,
                         r: Result<(QuoteUpdate, bool)>)
    requires cfg.Valid() && AllDisciplined(cfg, steps) && Creates(cfg, steps, k, c.command.key)
    requires Made(cfg, steps, c, verdict, r) && Opened(cfg, steps, c) && k < c.Last()
    ensures var created := At(cfg, steps, k).admission.verdict.row;
            if c.outage.InStatement? then r == Err(Unavailable)
            else if c.command.pair != created.pair then r == Err(IdempotencyConflict)
            else if c.outage.InCommit? then r == Err(Unavailable)
            else r.Ok? && !r.value.1 && r.value.0.id == created.id && r.value.0.pair == created.pair
    ensures At(cfg, steps, c.Last() + 1) == At(cfg, steps, c.Last()).(admission := Free)
  {
    StatementSnapped(cfg, steps, c, verdict, r);
    StatementDecides(cfg, steps, c, verdict, r);
    CallEnds(cfg, steps, c, verdict, r);
    if c.Statement() <= k { NoCommitBetween(cfg, steps, c, verdict, r, k); }
    ReplayFindsTheRequest(cfg, steps, k, c.Statement(), c.command, c.id);
    AtNext(cfg, steps, c.Last());
  }

  /** A caller that was told it created the request, and a later one with the same key and pair, name one request. */
  lemma ReplayNamesTheCreated(cfg: Config, steps: seq<Step>,
                              c: Call, verdict: Verdict, r: Result<(QuoteUpdate, bool)>,
                              d: Call, verdict': Verdict, r': Result<(QuoteUpdate, bool)>)
    requires cfg.Valid() && AllDisciplined(cfg, steps) && c.command.key != []
    requires Made(cfg, steps, c, verdict, r) && r.Ok? && r.value.1
    requires Made(cfg, steps, d, verdict', r') && d.command == c.command && c.Last() < d.Last()
    ensures r' == Err(Unavailable) || (r'.Ok? && !r'.value.1 && r'.value.0.id == r.value.0.id)
    ensures Opened(cfg, steps, d) && d.outage.NoOutage? ==> r'.Ok?
  {
    CreatedIff(cfg, steps, c, verdict, r);
    AtInv(cfg, steps, c.Last());
    CallEnds(cfg, steps, c, verdict, r);
    if Opened(cfg, steps, d) { ReplayIsAnswered(cfg, steps, c.Last(), d, verdict', r'); }
  }

  // ---- what every reply means in the tables

  /** The call's verdict is what its statement decides on the snapshot that it holds. */
  lemma VerdictIsDecided(cfg: Config, steps: seq<Step>, c: Call, verdict: Verdict, r: Result<(QuoteUpdate, bool)>)
    requires cfg.Valid() && AllDisciplined(cfg, steps)
    requires Made(cfg, steps, c, verdict, r) && Opened(cfg, steps, c)
    ensures c.Statement() < c.Last() < |steps| && Inv(cfg, At(cfg, steps, c.Statement()))
    ensures var s := At(cfg, steps, c.Statement());
            s.admission.Snapped? && verdict == Decide(cfg, s, s.admission.snapshot, c.command, c.id)
  {
    StatementSnapped(cfg, steps, c, verdict, r);
    StatementDecides(cfg, steps, c, verdict, r);
    AtInv(cfg, steps, c.Statement());
    AtNext(cfg, steps, c.Statement());
  }

  predicate OneMore(before: seq<Row>, after: seq<Row>) {
    |after| == |before| + 1 && after[..|before|] == before
  }

  /** The last step of the call adds a row to the table. */
  predicate AddsRow(cfg: Config, steps: seq<Step>, c: Call) {
    0 <= c.Last() < |steps| && OneMore(At(cfg, steps, c.Last()).rows, At(cfg, steps, c.Last() + 1).rows)
  }

  /** The columns of a request that has just been admitted: an empty key is stored as none. */
  predicate NewRequest(r: Row, id: Id, command: Command, now: int) {
    && r.id == id && r.pair == command.pair && r.key == (if |command.key| == 0 then None else Some(command.key))
    && r.status.Pending? && r.attempt == 0 && r.createdAt == now && r.nextAttemptAt == Some(now)
    && r.leaseUntil.None? && r.finishedAt.None? && r.failure.None?
    && r.rate.None? && r.provider.None? && r.sourceDate.None?
  }

  /** With or without a key: created is reported exactly if the call added a row and its reply arrived. */
  lemma CreatedExactly(cfg: Config, steps: seq<Step>, c: Call, verdict: Verdict, r: Result<(QuoteUpdate, bool)>)
    requires cfg.Valid() && AllDisciplined(cfg, steps) && Made(cfg, steps, c, verdict, r)
    ensures (r.Ok? && r.value.1) <==> Opened(cfg, steps, c) && c.outage.NoOutage? && AddsRow(cfg, steps, c)
    ensures r.Ok? && r.value.1 ==>
              && c.Statement() < |steps|
              && var added := At(cfg, steps, c.Last() + 1).rows[|At(cfg, steps, c.Last()).rows|];
                 NewRequest(added, c.id, c.command, At(cfg, steps, c.Statement()).now) && Describes(r.value.0, added)
  {
    if Opened(cfg, steps, c) {
      VerdictIsDecided(cfg, steps, c, verdict, r);
      CallEnds(cfg, steps, c, verdict, r);
      AtNext(cfg, steps, c.Last());
      CreatedByStates(cfg, c, At(cfg, steps, c.Statement()), At(cfg, steps, c.Last()), At(cfg, steps, c.Last() + 1),
                      verdict, r);
    }
  }

  lemma CreatedByStates(cfg: Config, c: Call, decided: State, last: State, after: State, verdict: Verdict,
                        r: Result<(QuoteUpdate, bool)>)
    requires decided.admission.Snapped?
    requires verdict == Decide(cfg, decided, decided.admission.snapshot, c.command, c.id)
    requires last.admission == Executed(c.command, verdict)
    requires after == Apply(cfg, last, LastStep(c.command, verdict, c.outage))
    requires Answers(r, Told(c.command, verdict, c.outage)) && !c.outage.WhileLocking?
    ensures (r.Ok? && r.value.1) <==> c.outage.NoOutage? && OneMore(last.rows, after.rows)
    ensures r.Ok? && r.value.1 ==>
              && NewRequest(after.rows[|last.rows|], c.id, c.command, decided.now)
              && Describes(r.value.0, after.rows[|last.rows|])
  {
    EndAddsRow(cfg, last, LastStep(c.command, verdict, c.outage), c.command, verdict, c.outage);
    ToldOfInsert(c.command, verdict, c.outage, r);
    if verdict.Insert? { InsertIsNew(cfg, decided, c.command, c.id, verdict); }
  }

  lemma EndAddsRow(cfg: Config, s: State, last: Step, command: Command, verdict: Verdict, outage: Outage)
    requires s.admission == Executed(command, verdict) && last == LastStep(command, verdict, outage)
    ensures var t := Apply(cfg, s, last);
            && (OneMore(s.rows, t.rows) <==> verdict.Insert? && !outage.InStatement? && outage != InCommit(false))
            && (OneMore(s.rows, t.rows) ==> t.rows[|s.rows|] == verdict.row)
  {
  }

  lemma ToldOfInsert(command: Command, verdict: Verdict, outage: Outage, r: Result<(QuoteUpdate, bool)>)
    requires Answers(r, Told(command, verdict, outage))
    ensures (r.Ok? && r.value.1) <==> verdict.Insert? && !outage.InStatement? && !outage.InCommit?
    ensures r.Ok? && r.value.1 ==> Describes(r.value.0, verdict.row)
  {
  }

  lemma InsertIsNew(cfg: Config, s: State, command: Command, id: Id, verdict: Verdict)
    requires s.admission.Snapped? && verdict == Decide(cfg, s, s.admission.snapshot, command, id) && verdict.Insert?
    ensures NewRequest(verdict.row, id, command, s.now)
  {
  }

  /** A row of the table has the key of the call. */
  predicate Same(r: Row, command: Command) {
    r.key == Some(command.key)
  }

  /** A request is named as existing exactly if it has the key and the pair, and no outage got in between. */
  lemma ExistingExactly(cfg: Config, steps: seq<Step>, c: Call, verdict: Verdict, r: Result<(QuoteUpdate, bool)>)
    requires cfg.Valid() && AllDisciplined(cfg, steps)
    requires Made(cfg, steps, c, verdict, r) && Opened(cfg, steps, c) && c.outage.NoOutage?
    ensures c.Statement() < |steps|
    ensures var rows := At(cfg, steps, c.Statement()).rows;
            && (r.Ok? && !r.value.1 <==>
                  exists j :: 0 <= j < |rows| && Same(rows[j], c.command) && rows[j].pair == c.command.pair)
            && (forall j :: 0 <= j < |rows| && Same(rows[j], c.command) ==>
                  if rows[j].pair == c.command.pair then r.Ok? && !r.value.1 && r.value.0.id == rows[j].id
                  else r == Err(IdempotencyConflict))
            && (r == Err(IdempotencyConflict) ==>
                  exists j :: 0 <= j < |rows| && Same(rows[j], c.command) && rows[j].pair != c.command.pair)
  {
    VerdictIsDecided(cfg, steps, c, verdict, r);
    var s := At(cfg, steps, c.Statement());
    KeyIsCurrent(cfg, s, c.command);
  }

  /** The database refuses the insert exactly if the key is new, the snapshot had room and the id is taken. */
  lemma RejectedExactly(cfg: Config, steps: seq<Step>, c: Call, verdict: Verdict, r: Result<(QuoteUpdate, bool)>)
    requires cfg.Valid() && AllDisciplined(cfg, steps)
    requires Made(cfg, steps, c, verdict, r) && Opened(cfg, steps, c) && c.outage.NoOutage?
    ensures c.Statement() < |steps| && At(cfg, steps, c.Statement()).admission.Snapped?
    ensures var s := At(cfg, steps, c.Statement());
            r == Err(Rejected) <==>
            && ActiveCount(s.admission.snapshot) < cfg.maxActive
            && (forall j :: 0 <= j < |s.rows| ==> !Same(s.rows[j], c.command))
            && exists j :: 0 <= j < |s.rows| && s.rows[j].id == c.id
  {
    VerdictIsDecided(cfg, steps, c, verdict, r);
    ViolationIff(cfg, At(cfg, steps, c.Statement()), c.command, c.id);
    ToldOfViolation(c.command, verdict, c.outage, r);
  }

  lemma ToldOfViolation(command: Command, verdict: Verdict, outage: Outage, r: Result<(QuoteUpdate, bool)>)
    requires Answers(r, Told(command, verdict, outage)) && outage.NoOutage?
    ensures r == Err(Rejected) <==> verdict.Violation?
  {
  }

  lemma ViolationIff(cfg: Config, s: State, command: Command, id: Id)
    requires Inv(cfg, s) && s.admission.Snapped?
    ensures Decide(cfg, s, s.admission.snapshot, command, id).Violation? <==>
            && ActiveCount(s.admission.snapshot) < cfg.maxActive
            && (forall j :: 0 <= j < |s.rows| ==> !Same(s.rows[j], command))
            && exists j :: 0 <= j < |s.rows| && s.rows[j].id == id
  {
    KeyIsCurrent(cfg, s, command);
    KeylessRow(cfg, s, command);
  }

  lemma KeylessRow(cfg: Config, s: State, command: Command)
    requires Inv(cfg, s)
    ensures FindKey(s.rows, command.key) >= 0 <==> exists j :: 0 <= j < |s.rows| && Same(s.rows[j], command)
  {
    forall j | 0 <= j < |s.rows| && Same(s.rows[j], command) ensures |command.key| > 0 {
      assert RowOk(cfg, s.rows[j]);
    }
  }

  /** The snapshot shows a key exactly if a row has it now, in the same place, with the same id and pair. */
  lemma KeyIsCurrent(cfg: Config, s: State, command: Command)
    requires Inv(cfg, s) && s.admission.Snapped?
    ensures var snapshot := s.admission.snapshot;
            var found := FindKey(snapshot, command.key);
            && (forall j :: 0 <= j < |s.rows| && Same(s.rows[j], command) ==> found == j)
            && (found >= 0 ==> found < |s.rows| && Same(s.rows[found], command)
                               && s.rows[found].id == snapshot[found].id && s.rows[found].pair == snapshot[found].pair)
  {
    var snapshot := s.admission.snapshot;
    forall j | 0 <= j < |s.rows| ensures SameRequest(snapshot[j], s.rows[j]) && RowOk(cfg, s.rows[j]) {
      assert Evolves(snapshot[j], s.rows[j]);
    }
    var found := FindKey(snapshot, command.key);
    forall j | 0 <= j < |s.rows| && Same(s.rows[j], command) ensures found == j {
      assert snapshot[j].key == Some(command.key);
    }
  }

  /** A call is turned away for capacity exactly if its key is new and its snapshot had no room. */
  lemma TurnedAwayIff(cfg: Config, steps: seq<Step>, c: Call, verdict: Verdict, r: Result<(QuoteUpdate, bool)>)
    requires cfg.Valid() && AllDisciplined(cfg, steps)
    requires Made(cfg, steps, c, verdict, r) && Opened(cfg, steps, c) && !c.outage.InStatement?
    ensures c.Statement() < |steps| && At(cfg, steps, c.Statement()).admission.Snapped?
    ensures var s := At(cfg, steps, c.Statement());
            r == Err(CapacityExceeded) <==>
            FindKey(s.rows, c.command.key) < 0 && ActiveCount(s.admission.snapshot) >= cfg.maxActive
  {
    StatementSnapped(cfg, steps, c, verdict, r);
    StatementDecides(cfg, steps, c, verdict, r);
    AtInv(cfg, steps, c.Statement());
    AtNext(cfg, steps, c.Statement());
    AdmissionIff(cfg, At(cfg, steps, c.Statement()), c.command, c.id);
  }
}
