/** One pass of a worker: claim, fetch outside any transaction, write under the fence. */
module Service {
  import opened Domain
  import opened Queue
  import opened Invariants
  import opened Reads
  import opened Retry
  import opened Provider
  import Rate
  import Runs
  import S = Store

  /** What the rate provider answers; a quote is always of the pair that was asked for. */
  datatype Fetched =
    | Rated(rate: string, provider: string, sourceDate: int)
    | Classified(err: ProviderError)
    | Unclassified

  datatype Outcome = Completed | RetryScheduled | Failed | Lost

  datatype ProcessResult = ProcessResult(update: QuoteUpdate, outcome: Outcome, retryAfter: nat)

  /** Everything one pass meets outside its own code. */
  datatype World = World(
    locked: set<Id>, claimFault: S.Fault, fetched: Fetched, cancelled: bool, meanwhile: seq<Step>, writeFault: S.Fault)

  predicate IsWrite(step: Step) {
    step.Complete? || step.Retry? || step.Fail?
  }

  /** Row i holds the token before the write; afterwards it has the status, and no other row has changed. */
  ghost predicate Transition(cfg: Config, before: State, after: State, write: Step, i: int, status: Status)
    requires IsWrite(write)
  {
    && 0 <= i < |before.rows| && Runs.Holds(before.rows[i], write.id, write.attempt)
    && after == Apply(cfg, before, write) && |after.rows| == |before.rows| && after.rows[i].status == status
    && forall j :: 0 <= j < |before.rows| && j != i ==> after.rows[j] == before.rows[j]
  }

  /** The outcome that is reported is the one that this token brought about. */
  ghost predicate Truthful(cfg: Config, before: State, after: State, write: Step, r: ProcessResult)
    requires IsWrite(write)
  {
    match r.outcome
    case Lost => after == before
    case Completed => write.Complete? && Brought(cfg, before, after, write, r, Status.Completed)
    case RetryScheduled =>
      write.Retry? && write.delay == r.retryAfter / 1000 && Brought(cfg, before, after, write, r, Pending)
    case Failed => write.Fail? && Brought(cfg, before, after, write, r, Status.Failed)
  }

  ghost predicate Brought(cfg: Config, before: State, after: State, write: Step, r: ProcessResult, status: Status)
    requires IsWrite(write)
  {
    exists i :: Transition(cfg, before, after, write, i, status) && Describes(r.update, after.rows[i])
  }

  /** The hash that spreads the delays of retries. */
  type Hash = (Id, Int64) -> UInt64

  /** The code of a failure that is not retried; one that the provider's error carries itself comes first. */
  function CodeOf(fetched: Fetched): FailureCode
    requires !fetched.Rated?
  {
    match fetched
    case Classified(err) => err.code.GetOr(if Retryable(err.kind) then AttemptsExhausted else ProviderPermanent)
    case Unclassified => ProviderPermanent
  }

  /** The answer calls for another attempt. */
  predicate Retries(maxAttempts: int, attempt: nat, fetched: Fetched) {
    fetched.Classified? && Retryable(fetched.err.kind) && attempt < maxAttempts
  }

  /** The write that an answer of the provider calls for. */
  ghost predicate Fits(policy: RetryPolicy, fnv: Hash, maxAttempts: int, update: QuoteUpdate, fetched: Fetched,
                       write: Step) {
    && IsWrite(write) && write.id == update.id && write.attempt == update.attempt
    && if fetched.Rated? then
         && write.Complete?
         && var stored := if Rate.Canonical(fetched.rate) then Rate.Scaled(fetched.rate) else 0;
            write.booking == Booking(update.pair, stored, fetched.provider, fetched.sourceDate)
       else if Retries(maxAttempts, update.attempt, fetched) then
         write.Retry? && Scheduled(policy, fnv, write, fetched.err)
       else
         write.Fail? && write.code == CodeOf(fetched)
  }

  /** The delay that the retry policy gives for this attempt, this hint and this request. */
  predicate Waits(policy: RetryPolicy, fnv: Hash, id: Id, attempt: nat, err: ProviderError, delay: int) {
    && attempt < 0x8000_0000_0000_0000
    && Spaced(policy, attempt as Int64, err.retryAfter as int, fnv(id, attempt as Int64), delay)
  }

  /** The stored delay is that delay, in microseconds. */
  ghost predicate Scheduled(policy: RetryPolicy, fnv: Hash, write: Step, err: ProviderError)
    requires write.Retry?
  {
    exists delay :: Waits(policy, fnv, write.id, write.attempt, err, delay) && write.delay == delay / 1000
  }

  /** What is reported of a request, in terms of the provider's answer and the time of the write. */
  predicate Delivered(policy: RetryPolicy, fnv: Hash, maxAttempts: int, id: Id, pair: Pair, attempt: nat,
                      fetched: Fetched, now: int, result: ProcessResult) {
    && result.update.id == id && result.update.attempt == attempt
    && (result.outcome.RetryScheduled? || result.retryAfter == 0)
    && match result.outcome
       case Completed =>
         && fetched.Rated? && result.update.status.Completed?
         && result.update.quote == Some(Quote(pair, fetched.rate, fetched.provider, fetched.sourceDate, now))
       case RetryScheduled =>
         && Retries(maxAttempts, attempt, fetched) && result.update.status.Pending?
         && Waits(policy, fnv, id, attempt, fetched.err, result.retryAfter)
       case Failed =>
         && !fetched.Rated? && !Retries(maxAttempts, attempt, fetched) && result.update.status.Failed?
         && result.update.failureCode == Some(CodeOf(fetched))
       case Lost => true
  }

  /** No other completed row of the pair has a later source date, or the same and a later request. */
  ghost predicate Unbeaten(rows: seq<Row>, i: nat)
    requires i < |rows|
  {
    forall j :: 0 <= j < |rows| && j != i && rows[j].status.Completed? && rows[j].pair == rows[i].pair ==>
      !Beats(rows[j], rows[i])
  }

  /** The entry of the quote's pair reads as this quote. */
  predicate Serves(latest: map<Pair, Latest>, q: Quote) {
    q.pair in latest
    && var l := latest[q.pair]; QuoteOf(q, q.pair, l.rate, l.provider, l.sourceDate, l.updatedAt)
  }

  /** The update is stored, and its quote is served as the latest one of its pair unless another one beats it. */
  ghost predicate Stands(s: State, u: QuoteUpdate) {
    exists i :: 0 <= i < |s.rows| && Describes(u, s.rows[i])
                && u.quote.Some? && (Unbeaten(s.rows, i) ==> Serves(s.latest, u.quote.value))
  }

  lemma UnbeatenServes(cfg: Config, s: State, i: nat, u: QuoteUpdate)
    requires Inv(cfg, s) && i < |s.rows| && Describes(u, s.rows[i]) && s.rows[i].status.Completed?
    requires Unbeaten(s.rows, i)
    ensures u.quote.Some? && Serves(s.latest, u.quote.value)
  {
    var p := s.rows[i].pair;
    assert PairOk(s.rows, s.latest, p) && RowOk(cfg, s.rows[i]) && CompletedFor(s.rows[i], p);
    var k :| WinnerFor(s.rows, k, p, s.latest[p]);
    assert k == i;
  }

  lemma CompletionStands(cfg: Config, before: State, after: State, write: Step, r: ProcessResult)
    requires IsWrite(write) && Truthful(cfg, before, after, write, r) && r.outcome.Completed? && Inv(cfg, after)
    ensures Stands(after, r.update)
  {
    var i :| Transition(cfg, before, after, write, i, Status.Completed) && Describes(r.update, after.rows[i]);
    assert RowOk(cfg, after.rows[i]);
    if Unbeaten(after.rows, i) { UnbeatenServes(cfg, after, i, r.update); }
  }

  /** A value of the write is refused: a rate that is no number, or a text that the row's constraints do not admit. */
  ghost predicate Refused(before: State, write: Step)
    requires IsWrite(write)
  {
    var owned := Owned(before.rows, write.id, write.attempt) >= 0;
    || (write.Complete? && (write.booking.rate == 0 || (owned && write.booking.provider == "")))
    || (write.Fail? && owned && !KnownCode(write.code))
  }

  /** The contract of the second half of a pass. */
  ghost predicate Ended(cfg: Config, before: State, after: State, write: Step, fault: S.Fault,
                        r: Result<ProcessResult>) {
    && IsWrite(write) && Disciplined(cfg, write)
    && after == S.Effect(cfg, before, write, fault)
    && (!fault.NoFault? ==> r == Err(Unavailable))
    && (fault.NoFault? ==>
          && (r.Ok? || (r == Err(Rejected) && after == before))
          && (r.Ok? ==> Truthful(cfg, before, after, write, r.value))
          && (r.Err? <==> Refused(before, write))
          && (IsLost(r) <==> !Refused(before, write) && Owned(before.rows, write.id, write.attempt) < 0))
  }

  predicate IsLost(r: Result<ProcessResult>) {
    r.Ok? && r.value.outcome.Lost?
  }

  /** The contract of a whole pass that starts in `start`. */
  ghost predicate Processed(cfg: Config, policy: RetryPolicy, fnv: Hash, start: State, lease: nat, world: World,
                            before: State, write: Step, after: State, r: Result<ProcessResult>) {
    var claimed := S.Effect(cfg, start, Claim(world.locked, lease), world.claimFault);
    var i := First(Ready(start.now, world.locked), start.rows);
    if !world.claimFault.NoFault? then r == Err(Unavailable) && after == claimed
    else if i < 0 then r == Err(NoWork) && after == start
    else
      && before == Run(cfg, claimed, world.meanwhile)
      && (r.Ok? ==>
            var row := claimed.rows[i];
            Delivered(policy, fnv, cfg.maxAttempts, row.id, row.pair, row.attempt, world.fetched, before.now, r.value))
      && if world.cancelled then after == before && IsLost(r)
         else
           && Ended(cfg, before, after, write, world.writeFault, r)
           && CallsFor(policy, fnv, cfg.maxAttempts, claimed.rows[i], world.fetched, write)
  }

  /** The write is the one that the answer calls for, for the row that was claimed. */
  ghost predicate CallsFor(policy: RetryPolicy, fnv: Hash, maxAttempts: int, row: Row, fetched: Fetched,
                           write: Step) {
    exists u :: Describes(u, row) && Fits(policy, fnv, maxAttempts, u, fetched, write)
  }

  class Service {
    const store: S.Store
    const maxAttempts: Int64
    const policy: RetryPolicy
    const fnv: Hash

    ghost predicate Valid()
      reads this, store
    {
      store.Valid() && store.cfg.maxAttempts == maxAttempts as int
    }

    constructor (store: S.Store, maxAttempts: Int64, policy: RetryPolicy, fnv: Hash)
      requires store.Valid() && store.cfg.maxAttempts == maxAttempts as int
      ensures Valid() && this.store == store
    {
      this.store, this.maxAttempts, this.policy, this.fnv := store, maxAttempts, policy, fnv;
    }

    method ProcessNextUpdate(leaseDuration: nat, world: World)
      returns (r: Result<ProcessResult>, ghost before: State, ghost write: Step)
      requires Valid() && Inv(store.cfg, store.db.State()) && AllDisciplined(store.cfg, world.meanwhile)
      requires world.fetched.Classified? ==> world.fetched.err.code != Some(AttemptsExhausted)
      modifies store.db
      ensures Inv(store.cfg, store.db.State())
      ensures Processed(store.cfg, policy, fnv, old(store.db.State()), leaseDuration / 1000, world,
                        before, write, store.db.State(), r)
      ensures r.Ok? && r.value.outcome.Completed? ==> Stands(store.db.State(), r.value.update)
    {
      ghost var start := store.db.State();
      before, write := start, Lock;
      StepKeepsInv(store.cfg, start, Claim(world.locked, leaseDuration / 1000));
      InvStored(store.cfg, start);
      var claim := store.ClaimNext(leaseDuration, world.locked, world.claimFault);
      if claim.Err? {
        return Err(claim.error), before, write;
      }
      r, before, write := FetchAndWrite(claim.value, world, First(Ready(start.now, world.locked), start.rows));
    }

    /** The second half: fetch while others make their steps, and write unless the pass is cancelled. */
    method FetchAndWrite(update: QuoteUpdate, world: World, ghost i: nat)
      returns (r: Result<ProcessResult>, ghost before: State, ghost write: Step)
      requires Valid() && Inv(store.cfg, store.db.State()) && AllDisciplined(store.cfg, world.meanwhile)
      requires i < |store.db.rows| && Describes(update, store.db.rows[i])
      requires world.fetched.Classified? ==> world.fetched.err.code != Some(AttemptsExhausted)
      modifies store.db
      ensures Inv(store.cfg, store.db.State())
      ensures before == Run(store.cfg, old(store.db.State()), world.meanwhile)
      ensures if world.cancelled then store.db.State() == before && IsLost(r)
              else
                && Ended(store.cfg, before, store.db.State(), write, world.writeFault, r)
                && CallsFor(policy, fnv, store.cfg.maxAttempts, old(store.db.rows[i]), world.fetched, write)
      ensures r.Ok? ==>
                Delivered(policy, fnv, store.cfg.maxAttempts, update.id, update.pair, update.attempt,
                          world.fetched, before.now, r.value)
      ensures r.Ok? && r.value.outcome.Completed? ==> Stands(store.db.State(), r.value.update)
    {
      write := Lock;
      ClaimLasts(store.cfg, store.db.State(), i, world.meanwhile);
      store.db.Interfere(store.cfg, world.meanwhile);
      before := store.db.State();
      if world.cancelled {
        return Ok(ProcessResult(update, Lost, 0)), before, write;
      }
      r, write := Write(update, world.fetched, world.writeFault);
      StepKeepsInv(store.cfg, before, write);
      if r.Ok? && r.value.outcome.Completed? {
        CompletionStands(store.cfg, before, store.db.State(), write, r.value);
      }
    }

    method Write(update: QuoteUpdate, fetched: Fetched, fault: S.Fault)
      returns (r: Result<ProcessResult>, ghost write: Step)
      requires Valid() && Inv(store.cfg, store.db.State())
      requires PairOfId(store.db.rows, update.id, update.pair) && update.attempt <= store.cfg.maxAttempts
      requires fetched.Classified? ==> fetched.err.code != Some(AttemptsExhausted)
      modifies store.db
      ensures Ended(store.cfg, old(store.db.State()), store.db.State(), write, fault, r)
      ensures Fits(policy, fnv, maxAttempts as int, update, fetched, write)
      ensures r.Ok? ==>
                Delivered(policy, fnv, maxAttempts as int, update.id, update.pair, update.attempt, fetched,
                          old(store.db.now), r.value)
    {
      match fetched {
        case Rated(rate, provider, sourceDate) =>
          r, write := Finish(update, Quote(update.pair, rate, provider, sourceDate, 0), fault);
        case Classified(err) =>
          r, write := HandleProviderFailure(update, Some(err), fault);
        case Unclassified =>
          r, write := HandleProviderFailure(update, None, fault);
      }
    }

    method Finish(update: QuoteUpdate, quote: Quote, fault: S.Fault)
      returns (r: Result<ProcessResult>, ghost write: Step)
      requires Valid() && Inv(store.cfg, store.db.State()) && quote.pair == update.pair
      requires PairOfId(store.db.rows, update.id, update.pair)
      modifies store.db
      ensures Ended(store.cfg, old(store.db.State()), store.db.State(), write, fault, r)
      ensures Fits(policy, fnv, maxAttempts as int, update, Rated(quote.rate, quote.provider, quote.sourceDate), write)
      ensures r.Ok? ==>
                Delivered(policy, fnv, maxAttempts as int, update.id, update.pair, update.attempt,
                          Rated(quote.rate, quote.provider, quote.sourceDate), old(store.db.now), r.value)
    {
      ghost var before := store.db.State();
      InvStored(store.cfg, before);
      var completed, booking := store.Complete(update.id, update.attempt, quote, fault);
      write := Step.Complete(update.id, update.attempt, booking);
      if completed == Err(LostOwnership) {
        r := Ok(ProcessResult(update, Lost, 0));
      } else if completed.Err? {
        r := Err(completed.error);
      } else {
        r := Ok(ProcessResult(completed.value, Outcome.Completed, 0));
      }
      assert Bookable(before.rows, update.id, update.attempt, booking)
             == Owned(before.rows, update.id, update.attempt);
      WriteEnds(store.cfg, before, store.db.State(), write, fault, completed, r);
    }

    method HandleProviderFailure(update: QuoteUpdate, err: Option<ProviderError>, fault: S.Fault)
      returns (r: Result<ProcessResult>, ghost write: Step)
      requires Valid() && Inv(store.cfg, store.db.State())
      requires update.attempt <= store.cfg.maxAttempts
      requires err.Some? ==> err.value.code != Some(AttemptsExhausted)
      modifies store.db
      ensures Ended(store.cfg, old(store.db.State()), store.db.State(), write, fault, r)
      ensures var fetched := if err.Some? then Classified(err.value) else Unclassified;
              && Fits(policy, fnv, maxAttempts as int, update, fetched, write)
              && (r.Ok? ==>
                    Delivered(policy, fnv, maxAttempts as int, update.id, update.pair, update.attempt, fetched,
                              old(store.db.now), r.value))
    {
      var retryable := err.Some? && (err.value.kind == Temporary || err.value.kind == Throttled);
      if retryable && update.attempt as Int64 < maxAttempts {
        r, write := ScheduleRetry(update, err.value, fault);
        return;
      }
      var code := ProviderPermanent;
      if retryable {
        code := AttemptsExhausted;
      }
      if err.Some? && err.value.code.Some? {
        code := err.value.code.value;
      }
      r, write := FailUpdate(update, code, fault);
    }

    method ScheduleRetry(update: QuoteUpdate, err: ProviderError, fault: S.Fault)
      returns (r: Result<ProcessResult>, ghost write: Step)
      requires Valid() && Inv(store.cfg, store.db.State())
      requires update.attempt < store.cfg.maxAttempts
      modifies store.db
      ensures Ended(store.cfg, old(store.db.State()), store.db.State(), write, fault, r)
      ensures write.Retry? && write.id == update.id && write.attempt == update.attempt
      ensures Scheduled(policy, fnv, write, err)
      ensures r.Ok? ==> r.value.update.id == update.id && r.value.update.attempt == update.attempt
      ensures r.Ok? && r.value.outcome.Lost? ==> r.value.retryAfter == 0
      ensures r.Ok? && !r.value.outcome.Lost? ==>
                && r.value.outcome.RetryScheduled? && r.value.update.status.Pending?
                && Waits(policy, fnv, update.id, update.attempt, err, r.value.retryAfter)
    {
      ghost var before := store.db.State();
      InvStored(store.cfg, before);
      var delay := Delay(policy, update.id, update.attempt as Int64, err.retryAfter, fnv);
      assert Waits(policy, fnv, update.id, update.attempt, err, delay as int);
      var retried := store.Retry(update.id, update.attempt, delay as int, fault);
      write := Step.Retry(update.id, update.attempt, delay as int / 1000);
      if retried == Err(LostOwnership) {
        r := Ok(ProcessResult(update, Lost, 0));
      } else if retried.Err? {
        r := Err(retried.error);
      } else {
        r := Ok(ProcessResult(retried.value, RetryScheduled, delay as int));
      }
      WriteEnds(store.cfg, before, store.db.State(), write, fault, retried, r);
    }

    method FailUpdate(update: QuoteUpdate, code: FailureCode, fault: S.Fault)
      returns (r: Result<ProcessResult>, ghost write: Step)
      requires Valid() && Inv(store.cfg, store.db.State())
      requires code == AttemptsExhausted ==> update.attempt >= store.cfg.maxAttempts
      modifies store.db
      ensures Ended(store.cfg, old(store.db.State()), store.db.State(), write, fault, r)
      ensures write == Step.Fail(update.id, update.attempt, code)
      ensures r.Ok? ==>
                r.value.update.id == update.id && r.value.update.attempt == update.attempt && r.value.retryAfter == 0
      ensures r.Ok? && !r.value.outcome.Lost? ==>
                && r.value.outcome.Failed? && r.value.update.status.Failed?
                && r.value.update.failureCode == Some(code)
    {
      ghost var before := store.db.State();
      InvStored(store.cfg, before);
      var failed := store.Fail(update.id, update.attempt, code, fault);
      write := Step.Fail(update.id, update.attempt, code);
      if failed == Err(LostOwnership) {
        r := Ok(ProcessResult(update, Lost, 0));
      } else if failed.Err? {
        r := Err(failed.error);
      } else {
        r := Ok(ProcessResult(failed.value, Outcome.Failed, 0));
      }
      WriteEnds(store.cfg, before, store.db.State(), write, fault, failed, r);
    }
  }

  /** The outcome that each kind of write reports when it took effect. */
  predicate Reported(write: Step, update: QuoteUpdate, result: ProcessResult)
    requires IsWrite(write)
  {
    && result.update == update
    && match write
       case Complete(_, _, _) => result.outcome.Completed?
       case Retry(_, _, delay) => result.outcome.RetryScheduled? && result.retryAfter / 1000 == delay
       case _ => result.outcome.Failed?
  }

  /** From the store's reply to the report of the pass. */
  lemma WriteEnds(cfg: Config, before: State, after: State, write: Step, fault: S.Fault, reply: Result<QuoteUpdate>,
                  r: Result<ProcessResult>)
    requires Inv(cfg, before) && IsWrite(write) && Disciplined(cfg, write)
    requires after == S.Effect(cfg, before, write, fault)
    requires write.Complete? ==> Bookable(before.rows, write.id, write.attempt, write.booking)
                                 == Owned(before.rows, write.id, write.attempt)
    requires write.Complete? ==> write.booking.rate == 0 || ValidRate(write.booking.rate)
    requires !fault.NoFault? ==> reply == Err(Unavailable)
    requires fault.NoFault? ==>
               S.Wrote(before, after, Owned(before.rows, write.id, write.attempt), Refused(before, write), reply)
    requires if reply == Err(LostOwnership) then IsLost(r)
             else if reply.Err? then r == Err(reply.error)
             else r.Ok? && Reported(write, reply.value, r.value)
    ensures Ended(cfg, before, after, write, fault, r)
  {
    var i := Owned(before.rows, write.id, write.attempt);
    if fault.NoFault? && i >= 0 && !Refused(before, write) { WriteTransition(cfg, before, write); }
  }

  lemma WriteTransition(cfg: Config, before: State, write: Step)
    requires IsWrite(write) && !Refused(before, write) && Owned(before.rows, write.id, write.attempt) >= 0
    requires write.Complete? ==> Bookable(before.rows, write.id, write.attempt, write.booking)
                                 == Owned(before.rows, write.id, write.attempt)
    requires write.Complete? ==> ValidRate(write.booking.rate)
    ensures Transition(cfg, before, Apply(cfg, before, write), write, Owned(before.rows, write.id, write.attempt),
                       if write.Complete? then Status.Completed else if write.Retry? then Pending else Status.Failed)
  {
  }

  /** A request never changes its pair. */
  ghost predicate PairOfId(rows: seq<Row>, id: Id, pair: Pair) {
    forall i :: 0 <= i < |rows| && rows[i].id == id ==> rows[i].pair == pair
  }

  lemma ClaimLasts(cfg: Config, claimed: State, i: nat, meanwhile: seq<Step>)
    requires cfg.Valid() && Inv(cfg, claimed) && AllDisciplined(cfg, meanwhile) && i < |claimed.rows|
    ensures Inv(cfg, Run(cfg, claimed, meanwhile))
    ensures PairOfId(Run(cfg, claimed, meanwhile).rows, claimed.rows[i].id, claimed.rows[i].pair)
    ensures claimed.rows[i].attempt <= cfg.maxAttempts
  {
    assert RowOk(cfg, claimed.rows[i]);
    RunKeepsInv(cfg, claimed, meanwhile);
    RunEvolves(cfg, claimed, meanwhile);
    PairStays(claimed.rows, Run(cfg, claimed, meanwhile).rows, i);
  }

  lemma PairStays(before: seq<Row>, after: seq<Row>, i: nat)
    requires AllEvolve(before, after) && Unique(after) && i < |before|
    ensures PairOfId(after, before[i].id, before[i].pair)
  {
    assert Evolves(before[i], after[i]);
  }

  lemma InvStored(cfg: Config, s: State)
    requires Inv(cfg, s)
    ensures S.Stored(s.rows)
  {
    forall i | 0 <= i < |s.rows| ensures Shape(s.rows[i]) && Columns(s.rows[i]) {
      assert RowOk(cfg, s.rows[i]);
    }
  }
}
