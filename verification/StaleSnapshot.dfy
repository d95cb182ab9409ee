/** Why the snapshot comes after the admission lock: a machine that takes it before the lock overfills the queue. */
module StaleSnapshot {
  import opened Domain
  import opened Queue
  import opened Invariants

  /**
   An admission overfills the queue exactly if it is inserted into a full one, which takes a snapshot
   that still had room.
   */
  lemma OverfillsIff(cfg: Config, s: State, stale: seq<Row>, command: Command, id: Id)
    requires Inv(cfg, s)
    ensures var verdict := Decide(cfg, s, stale, command, id);
            (verdict.Insert? && ActiveCount(s.rows + [verdict.row]) > cfg.maxActive)
            <==> && ActiveCount(stale) < cfg.maxActive == ActiveCount(s.rows)
                 && FindKey(stale, command.key) < 0 && FindKey(s.rows, command.key) < 0 && Find(s.rows, id) < 0
  {
    var verdict := Decide(cfg, s, stale, command, id);
    if verdict.Insert? { ActiveCountAppend(s.rows, verdict.row); }
  }

  /** The queue, and the snapshots of the transactions that wait for the lock. */
  datatype Early = Early(db: State, taken: map<nat, seq<Row>>)

  datatype EarlyStep = Take(tx: nat) | Enter(tx: nat) | Then(step: Step)

  /** A transaction takes its snapshot first and the lock afterwards; everything else is as in `Queue.Apply`. */
  function ApplyEarly(cfg: Config, e: Early, step: EarlyStep): Early {
    match step
    case Take(tx) => e.(taken := e.taken[tx := e.db.rows])
    case Enter(tx) =>
      if e.db.admission.Free? && tx in e.taken then e.(db := e.db.(admission := Snapped(e.taken[tx]))) else e
    case Then(next) => if next.Lock? || next.Snapshot? then e else e.(db := Apply(cfg, e.db, next))
  }

  function RunEarly(cfg: Config, e: Early, steps: seq<EarlyStep>): Early {
    if steps == [] then e else ApplyEarly(cfg, RunEarly(cfg, e, steps[..|steps| - 1]), steps[|steps| - 1])
  }

  lemma RunEarlyStep(cfg: Config, e: Early, steps: seq<EarlyStep>, step: EarlyStep)
    ensures RunEarly(cfg, e, steps + [step]) == ApplyEarly(cfg, RunEarly(cfg, e, steps), step)
  {
    assert (steps + [step])[..|steps|] == steps;
  }

  /** The key is absent, or no row has it. */
  predicate NewKey(rows: seq<Row>, key: Key) {
    FindKey(rows, key) < 0
  }

  function Inserted(s: State, command: Command, id: Id): State {
    s.(rows := s.rows + [Admitted(id, s.nextSeq, command, s.now)], nextSeq := s.nextSeq + 1)
  }

  /** The rest of a transaction whose snapshot has room. */
  lemma EarlyInserts(cfg: Config, e: Early, steps: seq<EarlyStep>, tx: nat, command: Command, id: Id)
    requires var t := RunEarly(cfg, e, steps);
             && t.db.admission.Free? && tx in t.taken && ActiveCount(t.taken[tx]) < cfg.maxActive
             && NewKey(t.taken[tx], command.key) && NewKey(t.db.rows, command.key) && Find(t.db.rows, id) < 0
    ensures var t := RunEarly(cfg, e, steps);
            RunEarly(cfg, e, steps + [Enter(tx)] + [Then(Execute(command, id))] + [Then(Commit)])
            == t.(db := Inserted(t.db, command, id))
  {
    var entered := steps + [Enter(tx)];
    RunEarlyStep(cfg, e, steps, Enter(tx));
    RunEarlyStep(cfg, e, entered, Then(Execute(command, id)));
    RunEarlyStep(cfg, e, entered + [Then(Execute(command, id))], Then(Commit));
  }

  /** Two transactions take their snapshots, and then each takes the lock and inserts. */
  function TwoAdmissions(first: Command, a: Id, second: Command, b: Id): seq<EarlyStep> {
    [Take(0)] + [Take(1)]
    + [Enter(0)] + [Then(Execute(first, a))] + [Then(Commit)]
    + [Enter(1)] + [Then(Execute(second, b))] + [Then(Commit)]
  }

  lemma BothTaken(cfg: Config, s: State)
    ensures RunEarly(cfg, Early(s, map[]), [Take(0)] + [Take(1)]) == Early(s, map[0 := s.rows, 1 := s.rows])
  {
    var e := Early(s, map[]);
    assert [] + [Take(0)] == [Take(0)];
    RunEarlyStep(cfg, e, [], Take(0));
    RunEarlyStep(cfg, e, [Take(0)], Take(1));
  }

  lemma NewAfterInsert(s: State, first: Command, a: Id, key: Key, b: Id)
    requires NewKey(s.rows, key) && Find(s.rows, b) < 0 && a != b && (key == [] || key != first.key)
    ensures NewKey(Inserted(s, first, a).rows, key) && Find(Inserted(s, first, a).rows, b) < 0
  {
    var rows := Inserted(s, first, a).rows;
    assert rows[..|rows| - 1] == s.rows;
  }

  /** From every state with one free slot, that machine fills it twice. */
  lemma BreaksCapacity(cfg: Config, s: State, first: Command, a: Id, second: Command, b: Id)
    requires Inv(cfg, s) && s.admission.Free? && ActiveCount(s.rows) + 1 == cfg.maxActive
    requires NewKey(s.rows, first.key) && NewKey(s.rows, second.key)
    requires second.key == [] || second.key != first.key
    requires Find(s.rows, a) < 0 && Find(s.rows, b) < 0 && a != b
    ensures var t := RunEarly(cfg, Early(s, map[]), TwoAdmissions(first, a, second, b)).db;
            t.admission.Free? && ActiveCount(t.rows) == cfg.maxActive + 1
  {
    var e := Early(s, map[]);
    var steps := [Take(0)] + [Take(1)];
    BothTaken(cfg, s);
    EarlyInserts(cfg, e, steps, 0, first, a);
    NewAfterInsert(s, first, a, second.key, b);
    EarlyInserts(cfg, e, steps + [Enter(0)] + [Then(Execute(first, a))] + [Then(Commit)], 1, second, b);
    var t := Inserted(s, first, a);
    ActiveCountAppend(s.rows, Admitted(a, s.nextSeq, first, s.now));
    ActiveCountAppend(t.rows, Admitted(b, t.nextSeq, second, t.now));
  }
}
