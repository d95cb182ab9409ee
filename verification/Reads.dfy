/** From stored rows to entities and to the response bodies of the API. */
module Reads {
  import opened Domain
  import opened Queue
  import opened Invariants
  import Rate

  /** The quote that a row's or an entry's columns stand for. */
  predicate QuoteOf(q: Quote, pair: Pair, rate: nat, provider: string, sourceDate: int, updatedAt: int) {
    && q.pair == pair && q.provider == provider && q.sourceDate == sourceDate && q.updatedAt == updatedAt
    && Rate.Canonical(q.rate) && Rate.Scaled(q.rate) == rate
  }

  /** The entity holds exactly what the row holds. */
  predicate Describes(u: QuoteUpdate, r: Row) {
    && u.id == r.id && u.pair == r.pair && u.status == r.status && u.attempt == r.attempt
    && u.createdAt == r.createdAt && u.failureCode == r.failure
    && (u.quote.Some? <==> r.rate.Some?)
    && (r.rate.Some? ==>
          && r.provider.Some? && r.sourceDate.Some? && r.finishedAt.Some?
          && QuoteOf(u.quote.value, r.pair, r.rate.value, r.provider.value, r.sourceDate.value, r.finishedAt.value))
  }

  predicate ScanPanics(r: Row) {
    r.rate.Some? && !(r.provider.Some? && r.sourceDate.Some? && r.finishedAt.Some?)
  }

  /** A stored rate is decoded, by its text form, into the canonical rate of the same value. */
  method DecodeRate(n: nat) returns (rate: Option<string>)
    ensures ValidRate(n) ==> rate.Some? && Rate.Canonical(rate.value) && Rate.Scaled(rate.value) == n
  {
    rate := Rate.ParseRate(Rate.NumericText(n));
    if ValidRate(n) { Rate.NumericReads(n, rate); }
  }

  method ScanUpdate(r: Row) returns (result: Result<QuoteUpdate>)
    ensures r.pair.Valid() && (r.rate.Some? ==> ValidRate(r.rate.value)) ==>
              if ScanPanics(r) then result == Err(NilDereference) else result.Ok? && Describes(result.value, r)
    ensures !r.pair.Valid() ==> result == Err(Corrupt)
  {
    if !r.pair.Valid() {
      return Err(Corrupt);
    }
    var update := QuoteUpdate(r.id, r.pair, r.status, r.attempt, None, None, r.createdAt);
    if r.failure.Some? {
      update := update.(failureCode := r.failure);
    }
    if r.rate.Some? {
      var parsed := DecodeRate(r.rate.value);
      if parsed.None? {
        return Err(Corrupt);
      }
      if r.provider.None? || r.sourceDate.None? || r.finishedAt.None? {
        return Err(NilDereference);
      }
      update := update.(quote := Some(
        Quote(update.pair, parsed.value, r.provider.value, r.sourceDate.value, r.finishedAt.value)));
    }
    return Ok(update);
  }

  /** A row that satisfies the table's constraints never makes the scan dereference nil. */
  lemma ShapeScans(r: Row)
    requires Shape(r) && Columns(r)
    ensures !ScanPanics(r)
  {
  }

  /** A rate that was stored by a completion is read back as the same text. */
  lemma StoredRateReadsBack(u: QuoteUpdate, r: Row, rate: string)
    requires Rate.Canonical(rate) && r.rate == Some(Rate.Scaled(rate)) && Describes(u, r)
    ensures u.quote.Some? && u.quote.value.rate == rate
  {
    Rate.CanonicalUnique(u.quote.value.rate, rate);
  }

  /** Every entry of latest_quotes satisfies its table's constraints and refers to an existing update. */
  lemma LatestEntryOk(cfg: Config, s: State, p: Pair)
    requires Inv(cfg, s) && p in s.latest
    ensures p.Valid() && ValidRate(s.latest[p].rate) && s.latest[p].provider != ""
    ensures exists i :: 0 <= i < |s.rows| && s.rows[i].id == s.latest[p].updateId && s.rows[i].pair == p
  {
    assert PairOk(s.rows, s.latest, p);
    var i :| WinnerFor(s.rows, i, p, s.latest[p]);
    assert RowOk(cfg, s.rows[i]);
  }

  // ---- response bodies

  datatype UpdateBody = UpdateBody(
    id: Id, pair: Pair, status: Status, createdAt: int, quote: Option<Quote>, failureCode: Option<FailureCode>)

  method MapUpdate(u: QuoteUpdate) returns (body: Option<UpdateBody>)
    ensures body.None? <==>
              || (u.status.Completed? && u.quote.None?)
              || (u.status.Failed? && !(u.failureCode.Some? && KnownCode(u.failureCode.value)))
    ensures body.Some? ==>
              && body.value.id == u.id && body.value.pair == u.pair
              && body.value.status == u.status && body.value.createdAt == u.createdAt
              && body.value.quote == (if u.status.Completed? then u.quote else None)
              && body.value.failureCode == (if u.status.Failed? then u.failureCode else None)
  {
    var result := UpdateBody(u.id, u.pair, u.status, u.createdAt, None, None);
    match u.status {
      case Pending =>
      case Processing =>
      case Completed =>
        if u.quote.None? {
          return None;
        }
        result := result.(quote := u.quote);
      case Failed =>
        if u.failureCode != Some(ProviderPermanent) && u.failureCode != Some(AttemptsExhausted) {
          return None;
        }
        result := result.(failureCode := u.failureCode);
    }
    return Some(result);
  }

  /** Every row of a reachable state is scanned without error and mapped without loss. */
  method ReadRow(cfg: Config, s: State, i: nat) returns (u: QuoteUpdate, body: UpdateBody)
    requires Inv(cfg, s) && i < |s.rows|
    ensures Describes(u, s.rows[i])
    ensures body.id == u.id && body.status == u.status && body.quote == u.quote && body.failureCode == u.failureCode
  {
    assert RowOk(cfg, s.rows[i]);
    ShapeScans(s.rows[i]);
    var scanned := ScanUpdate(s.rows[i]);
    u := scanned.value;
    var mapped := MapUpdate(u);
    body := mapped.value;
  }

  /** What is read as the latest quote of a pair is what is read as the quote of the winning update. */
  lemma LatestAgreesWithUpdate(s: State, i: nat, u: QuoteUpdate, latest: Quote)
    requires LatestOk(s.rows, s.latest) && Winner(s.rows, i) && Describes(u, s.rows[i])
    requires s.rows[i].pair in s.latest
    requires var l := s.latest[s.rows[i].pair];
             QuoteOf(latest, s.rows[i].pair, l.rate, l.provider, l.sourceDate, l.updatedAt)
    ensures u.quote == Some(latest)
  {
    var p := s.rows[i].pair;
    assert PairOk(s.rows, s.latest, p);
    var k :| WinnerFor(s.rows, k, p, s.latest[p]);
    assert i == k;
    Rate.CanonicalUnique(u.quote.value.rate, latest.rate);
  }
}
