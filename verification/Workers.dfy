/**
 The passes of all workers, each with the token that its own claim returned: tokens are exclusive, so a
 pass that stays within its lease writes its outcome, and a lease that is too short loses it.
 */
module Workers {
  import opened Domain
  import opened Queue
  import opened Invariants
  import opened Lease
  import opened Reads
  import opened Retry
  import opened S = Service
  import Recovery
  import Runs

  datatype Token = Token(id: Id, attempt: nat)

  /** A statement of one pass of a worker, or of anything else: recoveries, admissions, the clock. */
  datatype Event = ByPass(pass: nat, step: Step) | Aside(step: Step)

  /** The database, and the token that each pass was given in its claim's reply. */
  datatype System = System(db: State, held: map<nat, Token>)

  const START := System(INITIAL, map[])

  /** A pass claims once, and writes with its own token only. */
  predicate Enabled(sys: System, e: Event) {
    match e
    case Aside(step) => !step.Claim? && !IsWrite(step)
    case ByPass(pass, step) =>
      if step.Claim? then pass !in sys.held
      else IsWrite(step) && pass in sys.held && sys.held[pass] == Token(step.id, step.attempt)
  }

  /** The token that a claim of row i returns. */
  function NewToken(rows: seq<Row>, i: nat): Token
    requires i < |rows|
  {
    Token(rows[i].id, rows[i].attempt + 1)
  }

  function Next(cfg: Config, sys: System, e: Event): System {
    var db := Apply(cfg, sys.db, e.step);
    if e.ByPass? && e.step.Claim? then
      var i := First(Ready(sys.db.now, e.step.locked), sys.db.rows);
      if i < 0 then System(db, sys.held)
      else System(db, sys.held[e.pass := NewToken(sys.db.rows, i)])
    else System(db, sys.held)
  }

  function Play(cfg: Config, sys: System, events: seq<Event>): System {
    if events == [] then sys else Next(cfg, Play(cfg, sys, events[..|events| - 1]), events[|events| - 1])
  }

  ghost predicate Legal(cfg: Config, sys: System, events: seq<Event>) {
    events == []
    || (var front, last := events[..|events| - 1], events[|events| - 1];
        Legal(cfg, sys, front) && Enabled(Play(cfg, sys, front), last) && Disciplined(cfg, last.step))
  }

  function Steps(events: seq<Event>): seq<Step> {
    if events == [] then [] else Steps(events[..|events| - 1]) + [events[|events| - 1].step]
  }

  /** The database of the system makes an ordinary run. */
  lemma {:induction false} PlayRuns(cfg: Config, sys: System, events: seq<Event>)
    requires Legal(cfg, sys, events)
    ensures Play(cfg, sys, events).db == Run(cfg, sys.db, Steps(events)) && AllDisciplined(cfg, Steps(events))
  {
    if events != [] {
      var front, last := events[..|events| - 1], events[|events| - 1];
      PlayRuns(cfg, sys, front);
      Runs.RunStep(cfg, sys.db, Steps(front), last.step);
    }
  }

  // ---- tokens are exclusive

  /** The token was issued for row i, now or at an earlier attempt. */
  predicate IssuedFor(rows: seq<Row>, i: int, token: Token) {
    0 <= i < |rows| && rows[i].id == token.id && token.attempt <= rows[i].attempt
  }

  ghost predicate WasIssued(rows: seq<Row>, token: Token) {
    exists i :: IssuedFor(rows, i, token)
  }

  ghost predicate Exclusive(held: map<nat, Token>) {
    forall p, q :: p in held && q in held && p != q ==> held[p] != held[q]
  }

  ghost predicate SystemInv(cfg: Config, sys: System) {
    && Inv(cfg, sys.db) && Exclusive(sys.held)
    && forall p :: p in sys.held ==> WasIssued(sys.db.rows, sys.held[p])
  }

  lemma IssuedStays(before: seq<Row>, after: seq<Row>, held: map<nat, Token>)
    requires AllEvolve(before, after)
    requires forall p :: p in held ==> WasIssued(before, held[p])
    ensures forall p :: p in held ==> WasIssued(after, held[p])
  {
    forall p | p in held ensures WasIssued(after, held[p]) {
      var i :| IssuedFor(before, i, held[p]);
      assert Evolves(before[i], after[i]);
      assert IssuedFor(after, i, held[p]);
    }
  }

  /** A claim raises the attempt of its row above every token issued for it. */
  lemma ClaimIssuesNew(rows: seq<Row>, i: nat, held: map<nat, Token>)
    requires Unique(rows) && i < |rows|
    requires forall p :: p in held ==> WasIssued(rows, held[p])
    ensures forall p :: p in held ==> held[p] != NewToken(rows, i)
  {
    forall p | p in held ensures held[p] != NewToken(rows, i) {
      var j :| IssuedFor(rows, j, held[p]);
    }
  }

  lemma NextKeepsSystem(cfg: Config, sys: System, e: Event)
    requires cfg.Valid() && SystemInv(cfg, sys) && Enabled(sys, e) && Disciplined(cfg, e.step)
    ensures SystemInv(cfg, Next(cfg, sys, e))
  {
    var next := Next(cfg, sys, e);
    StepKeepsInv(cfg, sys.db, e.step);
    StepEvolves(cfg, sys.db, e.step);
    IssuedStays(sys.db.rows, next.db.rows, sys.held);
    if e.ByPass? && e.step.Claim? { ClaimKeepsSystem(cfg, sys, e, next); }
  }

  lemma ClaimKeepsSystem(cfg: Config, sys: System, e: Event, next: System)
    requires Unique(sys.db.rows) && Exclusive(sys.held) && Enabled(sys, e) && e.ByPass? && e.step.Claim?
    requires next == Next(cfg, sys, e)
    requires forall p :: p in sys.held ==> WasIssued(sys.db.rows, sys.held[p])
    requires forall p :: p in sys.held ==> WasIssued(next.db.rows, sys.held[p])
    ensures Exclusive(next.held) && forall p :: p in next.held ==> WasIssued(next.db.rows, next.held[p])
  {
    var i := First(Ready(sys.db.now, e.step.locked), sys.db.rows);
    if i >= 0 {
      ClaimIssuesNew(sys.db.rows, i, sys.held);
      assert IssuedFor(next.db.rows, i, NewToken(sys.db.rows, i));
    }
  }

  lemma {:induction false} PlayKeepsSystem(cfg: Config, sys: System, events: seq<Event>)
    requires cfg.Valid() && SystemInv(cfg, sys) && Legal(cfg, sys, events)
    ensures SystemInv(cfg, Play(cfg, sys, events))
  {
    if events != [] {
      PlayKeepsSystem(cfg, sys, events[..|events| - 1]);
      NextKeepsSystem(cfg, Play(cfg, sys, events[..|events| - 1]), events[|events| - 1]);
    }
  }

  /** However the passes of all workers interleave, no two of them ever hold the same token. */
  lemma TokensAreExclusive(cfg: Config, events: seq<Event>, p: nat, q: nat)
    requires cfg.Valid() && Legal(cfg, START, events)
    ensures var t := Play(cfg, START, events);
            SystemInv(cfg, t) && (p in t.held && q in t.held && p != q ==> t.held[p] != t.held[q])
  {
    ReachableInv(cfg, []);
    PlayKeepsSystem(cfg, START, events);
  }

  // ---- nobody else writes

  ghost predicate NotBy(events: seq<Event>, pass: nat) {
    forall k :: 0 <= k < |events| && events[k].ByPass? ==> events[k].pass != pass
  }

  lemma {:induction false} PassKeepsToken(cfg: Config, sys: System, events: seq<Event>, pass: nat)
    requires Legal(cfg, sys, events) && pass in sys.held
    ensures pass in Play(cfg, sys, events).held && Play(cfg, sys, events).held[pass] == sys.held[pass]
  {
    if events != [] { PassKeepsToken(cfg, sys, events[..|events| - 1], pass); }
  }

  lemma OtherDoesNotWrite(sys: System, e: Event, pass: nat)
    requires Exclusive(sys.held) && pass in sys.held && Enabled(sys, e) && (e.ByPass? ==> e.pass != pass)
    ensures !Runs.WritesWith(e.step, sys.held[pass].id, sys.held[pass].attempt)
  {
  }

  /** While a pass is fetching, no statement of the system writes with its token. */
  lemma {:induction false} OthersDoNotWrite(cfg: Config, sys: System, events: seq<Event>, pass: nat)
    requires cfg.Valid() && SystemInv(cfg, sys) && Legal(cfg, sys, events) && pass in sys.held && NotBy(events, pass)
    ensures NotWritten(Steps(events), sys.held[pass].id, sys.held[pass].attempt)
  {
    if events != [] {
      var front, last := events[..|events| - 1], events[|events| - 1];
      OthersDoNotWrite(cfg, sys, front, pass);
      PlayKeepsSystem(cfg, sys, front);
      PassKeepsToken(cfg, sys, front, pass);
      OtherDoesNotWrite(Play(cfg, sys, front), last, pass);
    }
  }

  // ---- a pass within its lease

  /** The system after a pass has claimed. */
  function AfterClaim(cfg: Config, sys: System, pass: nat, locked: set<Id>, lease: nat): System {
    Next(cfg, sys, ByPass(pass, Claim(locked, lease)))
  }

  /** There is work for the claim of a new pass. */
  ghost predicate CanClaim(cfg: Config, sys: System, pass: nat, locked: set<Id>) {
    SystemInv(cfg, sys) && pass !in sys.held && First(Ready(sys.db.now, locked), sys.db.rows) >= 0
  }

  /** Nothing of these events is of the pass itself: it is fetching. */
  ghost predicate Fetching(cfg: Config, sys: System, pass: nat, meanwhile: seq<Event>) {
    Legal(cfg, sys, meanwhile) && NotBy(meanwhile, pass)
  }

  predicate OwnsToken(sys: System, pass: nat) {
    pass in sys.held && Owned(sys.db.rows, sys.held[pass].id, sys.held[pass].attempt) >= 0
  }

  /** Whatever all other passes, recoveries and admissions do, a pass owns its row until its lease ends. */
  lemma LivePassOwnsItsRow(cfg: Config, sys: System, pass: nat, locked: set<Id>, lease: nat, meanwhile: seq<Event>)
    requires cfg.Valid() && CanClaim(cfg, sys, pass, locked)
    requires Fetching(cfg, AfterClaim(cfg, sys, pass, locked, lease), pass, meanwhile)
    requires Play(cfg, AfterClaim(cfg, sys, pass, locked, lease), meanwhile).db.now < sys.db.now + lease
    ensures OwnsToken(Play(cfg, AfterClaim(cfg, sys, pass, locked, lease), meanwhile), pass)
  {
    var claimed := AfterClaim(cfg, sys, pass, locked, lease);
    NextKeepsSystem(cfg, sys, ByPass(pass, Claim(locked, lease)));
    PlayRuns(cfg, claimed, meanwhile);
    PassKeepsToken(cfg, claimed, meanwhile, pass);
    OthersDoNotWrite(cfg, claimed, meanwhile, pass);
    UnwrittenClaimIsOwned(cfg, sys.db, locked, lease, Steps(meanwhile));
  }

  /** The claim and the write of a pass, less than `budget` nanoseconds apart, with others in between. */
  ghost predicate Timed(cfg: Config, sys: System, pass: nat, locked: set<Id>, lease: nat, budget: nat,
                        claim: int, write: int, meanwhile: seq<Event>) {
    var claimed := AfterClaim(cfg, sys, pass, locked, Micros(lease));
    && Fetching(cfg, claimed, pass, meanwhile) && claim <= write < claim + budget
    && sys.db.now == Micros(claim) && Play(cfg, claimed, meanwhile).db.now == Micros(write)
  }

  /** Whatever happens meanwhile, the pass still owns its row when it writes. */
  ghost predicate Safe(cfg: Config, sys: System, pass: nat, locked: set<Id>, lease: nat, budget: nat) {
    forall claim: int, write: int, meanwhile: seq<Event> ::
      Timed(cfg, sys, pass, locked, lease, budget, claim, write, meanwhile) ==>
        OwnsToken(Play(cfg, AfterClaim(cfg, sys, pass, locked, Micros(lease)), meanwhile), pass)
  }

  lemma CoveredPassOwnsItsRow(cfg: Config, sys: System, pass: nat, locked: set<Id>, lease: nat, budget: nat,
                              claim: int, write: int, meanwhile: seq<Event>)
    requires cfg.Valid() && CanClaim(cfg, sys, pass, locked) && Covers(lease, budget)
    requires Timed(cfg, sys, pass, locked, lease, budget, claim, write, meanwhile)
    ensures OwnsToken(Play(cfg, AfterClaim(cfg, sys, pass, locked, Micros(lease)), meanwhile), pass)
  {
    assert Micros(write) < Micros(claim) + Micros(lease);
    LivePassOwnsItsRow(cfg, sys, pass, locked, Micros(lease), meanwhile);
  }

  lemma ReleasedIsNotOwned(rows: seq<Row>, i: nat, attempt: nat)
    requires Unique(rows) && i < |rows| && !rows[i].status.Processing?
    ensures Owned(rows, rows[i].id, attempt) < 0
  {
  }

  /** A recovery of the whole backlog takes an expired row from its owner. */
  lemma RecoveryTakes(cfg: Config, s: State, i: nat)
    requires cfg.Valid() && Inv(cfg, s) && i < |s.rows| && Expired(s.now, {}).Lists(s.rows[i])
    ensures Owned(Apply(cfg, s, Recover({}, |s.rows|)).rows, s.rows[i].id, s.rows[i].attempt) < 0
  {
    var list, after := Expired(s.now, {}), Apply(cfg, s, Recover({}, |s.rows|)).rows;
    StepKeepsInv(cfg, s, Recover({}, |s.rows|));
    Recovery.BatchShrinksBacklog(cfg, s.rows, list, |s.rows|);
    EmptyBacklog(after, list);
    BatchPointwise(cfg, s.rows, list, |s.rows|, i);
    ReleasedIsNotOwned(after, i, s.rows[i].attempt);
  }

  /** What happens when the lease is too short: the clock moves on, and a recovery runs before the write. */
  function RecoveryFirst(sys: System, elapsed: nat): seq<Event> {
    [Aside(Tick(elapsed)), Aside(Recover({}, |sys.db.rows|))]
  }

  lemma PlayTwo(cfg: Config, sys: System, a: Event, b: Event)
    requires Enabled(sys, a) && Enabled(Next(cfg, sys, a), b) && Disciplined(cfg, a.step) && Disciplined(cfg, b.step)
    ensures Play(cfg, sys, [a, b]) == Next(cfg, Next(cfg, sys, a), b) && Legal(cfg, sys, [a, b])
  {
    assert [a, b][..1] == [a] && [a][..0] == [];
    assert Play(cfg, sys, [a]) == Next(cfg, sys, a) && Legal(cfg, sys, [a]);
  }

  lemma ClaimRunsOut(cfg: Config, s: State, locked: set<Id>, lease: nat, elapsed: nat)
    requires cfg.Valid() && Inv(cfg, s) && First(Ready(s.now, locked), s.rows) >= 0 && elapsed >= lease
    ensures var i := First(Ready(s.now, locked), s.rows);
            var late := Apply(cfg, Apply(cfg, s, Claim(locked, lease)), Tick(elapsed));
            Inv(cfg, late) && Expired(late.now, {}).Lists(late.rows[i])
  {
    StepKeepsInv(cfg, s, Claim(locked, lease));
    StepKeepsInv(cfg, Apply(cfg, s, Claim(locked, lease)), Tick(elapsed));
  }

  lemma ShortLeaseLoses(cfg: Config, sys: System, pass: nat, locked: set<Id>, lease: nat, elapsed: nat)
    requires cfg.Valid() && CanClaim(cfg, sys, pass, locked) && elapsed >= lease
    ensures var claimed := AfterClaim(cfg, sys, pass, locked, lease);
            var t := Play(cfg, claimed, RecoveryFirst(sys, elapsed));
            && Fetching(cfg, claimed, pass, RecoveryFirst(sys, elapsed))
            && t.db.now == sys.db.now + elapsed && !OwnsToken(t, pass)
  {
    var claimed := AfterClaim(cfg, sys, pass, locked, lease);
    var late := Next(cfg, claimed, Aside(Tick(elapsed)));
    ClaimRunsOut(cfg, sys.db, locked, lease, elapsed);
    PlayTwo(cfg, claimed, Aside(Tick(elapsed)), Aside(Recover({}, |sys.db.rows|)));
    RecoveryTakes(cfg, late.db, First(Ready(sys.db.now, locked), sys.db.rows));
  }

  /** A pass is safe with a lease if and only if the lease covers the budget on the clock of the database. */
  lemma SafeIff(cfg: Config, sys: System, pass: nat, locked: set<Id>, lease: nat, budget: nat)
    requires cfg.Valid() && CanClaim(cfg, sys, pass, locked) && budget > 0
    ensures Safe(cfg, sys, pass, locked, lease, budget) <==> Covers(lease, budget)
  {
    if Covers(lease, budget) {
      forall claim: int, write: int, meanwhile: seq<Event> |
        Timed(cfg, sys, pass, locked, lease, budget, claim, write, meanwhile)
        ensures OwnsToken(Play(cfg, AfterClaim(cfg, sys, pass, locked, Micros(lease)), meanwhile), pass)
      {
        CoveredPassOwnsItsRow(cfg, sys, pass, locked, lease, budget, claim, write, meanwhile);
      }
    } else {
      CoversIff(lease, budget);
      var claim, elapsed := 1000 * sys.db.now + 999, Micros(budget + 998);
      ShortLeaseLoses(cfg, sys, pass, locked, Micros(lease), elapsed);
      assert Timed(cfg, sys, pass, locked, lease, budget, claim, claim + budget - 1, RecoveryFirst(sys, elapsed));
    }
  }

  /** The smallest lease that the configuration accepts is not safe, and two microseconds more are. */
  lemma ConfiguredLease(cfg: Config, sys: System, pass: nat, locked: set<Id>, lease: nat, providerTimeout: nat)
    requires cfg.Valid() && CanClaim(cfg, sys, pass, locked) && ConfigAccepts(lease, providerTimeout)
    ensures lease == providerTimeout + COMMIT_MARGIN ==>
              !Safe(cfg, sys, pass, locked, lease, providerTimeout + COMMIT_MARGIN)
    ensures lease >= providerTimeout + COMMIT_MARGIN + 1998 ==>
              Safe(cfg, sys, pass, locked, lease, providerTimeout + COMMIT_MARGIN)
  {
    var budget := providerTimeout + COMMIT_MARGIN;
    SafeIff(cfg, sys, pass, locked, lease, budget);
    if lease == budget {
      BoundaryIsNotCovered(lease, providerTimeout);
    } else if lease >= budget + 1998 {
      TwoMicrosecondsSuffice(lease, providerTimeout);
    }
  }

  /**
   The pass of the service: with a lease that covers the time from its claim to its write, no fault
   and no cancellation, it writes with its own token, and is never reported as lost.
   */
  lemma LivePassIsNotLost(cfg: Config, policy: RetryPolicy, fnv: Hash, sys: System, pass: nat, lease: nat,
                          budget: nat, claim: int, finish: int, world: World, meanwhile: seq<Event>, before: State,
                          write: Step, after: State, r: Result<ProcessResult>)
    requires cfg.Valid() && CanClaim(cfg, sys, pass, world.locked) && Covers(lease, budget)
    requires Timed(cfg, sys, pass, world.locked, lease, budget, claim, finish, meanwhile)
    requires world.meanwhile == Steps(meanwhile) && !world.cancelled
    requires world.claimFault.NoFault? && world.writeFault.NoFault?
    requires Processed(cfg, policy, fnv, sys.db, Micros(lease), world, before, write, after, r)
    ensures Enabled(Play(cfg, AfterClaim(cfg, sys, pass, world.locked, Micros(lease)), meanwhile), ByPass(pass, write))
    ensures if Refused(before, write) then r == Err(Rejected) else r.Ok? && !IsLost(r)
  {
    var claimed := AfterClaim(cfg, sys, pass, world.locked, Micros(lease));
    PlayRuns(cfg, claimed, meanwhile);
    CoveredPassOwnsItsRow(cfg, sys, pass, world.locked, lease, budget, claim, finish, meanwhile);
    PassKeepsToken(cfg, claimed, meanwhile, pass);
  }
}
