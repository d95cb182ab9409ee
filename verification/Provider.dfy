/** How the provider adapter classifies a response and reads its retry hint. */
module Provider {
  import opened Domain
  import opened Retry
  import Decimal
  import Rate

  const MAX_RETRY_AFTER: Int64 := MINUTE
  const MAX_UINT64: int := 0xffff_ffff_ffff_ffff

  datatype FailureKind = Temporary | Throttled | Permanent

  /** `code` is set by no adapter of this repository; a caller may still find one there. */
  datatype ProviderError = ProviderError(kind: FailureKind, code: Option<FailureCode>, retryAfter: Int64)

  function Failure(kind: FailureKind): ProviderError {
    ProviderError(kind, None, 0)
  }

  /** strconv.ParseUint of a text of digits: the value, if 64 bits hold it. */
  function ParseUint(digits: string): Option<UInt64>
    requires Decimal.Digits(digits)
  {
    var n := Decimal.Value(digits);
    if n <= MAX_UINT64 then Some(n as UInt64) else None
  }

  /** What the header asks for, within [0, 60s]; `date` is the header read as an HTTP date, in nanoseconds. */
  function Hint(header: string, date: Option<int>, now: int): int {
    var text := Rate.TrimSpace(header);
    if |text| == 0 then 0
    else if Decimal.Digits(text) then Min(60_000_000_000, 1_000_000_000 * Decimal.Value(text))
    else if date.Some? then Min(60_000_000_000, Max(0, date.value - now))
    else 0
  }

  /** time.Time.Sub saturates at the limits of a duration. */
  function Sub(a: int, b: int): Int64 {
    Max(-0x8000_0000_0000_0000, Min(0x7fff_ffff_ffff_ffff, a - b)) as Int64
  }

  method RetryAfter(header: string, date: Option<int>, now: int) returns (hint: Int64)
    ensures hint as int == Hint(header, date, now)
    ensures 0 <= hint as int <= 60_000_000_000
    ensures var text := Rate.TrimSpace(header);
            if |text| == 0 || (!Decimal.Digits(text) && date.None?) then hint == 0
            else if Decimal.Digits(text) then
              hint as int == if Decimal.Value(text) < 60 then 1_000_000_000 * Decimal.Value(text) else 60_000_000_000
            else
              hint as int == if date.value <= now then 0
                             else if date.value < now + 60_000_000_000 then date.value - now else 60_000_000_000
  {
    var text := Rate.TrimSpace(header);
    if |text| == 0 {
      return 0;
    }
    var digits := OnlyDigits(text);
    if digits {
      hint := Seconds(text);
      return;
    }
    if date.Some? {
      hint := Until(date.value, now);
      return;
    }
    return 0;
  }

  method Until(date: int, now: int) returns (hint: Int64)
    ensures hint as int == Min(60_000_000_000, Max(0, date - now))
  {
    hint := Sub(date, now);
    hint := if hint > 0 then hint else 0;
    hint := if hint < MAX_RETRY_AFTER then hint else MAX_RETRY_AFTER;
  }

  /** A number of seconds, however many digits it has. */
  method Seconds(text: string) returns (hint: Int64)
    requires Decimal.Digits(text)
    ensures hint as int == Min(60_000_000_000, 1_000_000_000 * Decimal.Value(text))
  {
    var seconds := ParseUint(text);
    if seconds.None? || seconds.value >= (MAX_RETRY_AFTER / SECOND) as UInt64 {
      return MAX_RETRY_AFTER;
    }
    return seconds.value as Int64 * SECOND;
  }

  method OnlyDigits(text: string) returns (digits: bool)
    ensures digits <==> Decimal.Digits(text)
  {
    digits := true;
    for k := 0 to |text|
      invariant digits && Decimal.Digits(text[..k])
    {
      if text[k] < '0' || text[k] > '9' {
        assert !Decimal.IsDigit(text[k]);
        digits := false;
        break;
      }
      assert text[..k + 1] == text[..k] + [text[k]];
    }
    assert digits ==> text[..|text|] == text;
  }

  predicate Retryable(kind: FailureKind) {
    kind.Temporary? || kind.Throttled?
  }

  method ResponseFailure(status: int, header: string, date: Option<int>, now: int) returns (err: ProviderError)
    ensures Retryable(err.kind) <==> status in {408, 429, 500, 502, 503, 504}
    ensures err.kind.Throttled? <==> status == 429
    ensures err.code == None
    ensures err.retryAfter as int == if Retryable(err.kind) then Hint(header, date, now) else 0
    ensures 0 <= err.retryAfter <= MAX_RETRY_AFTER
  {
    var kind := Permanent;
    if status == 429 {
      kind := Throttled;
    } else if status in {408, 500, 502, 503, 504} {
      kind := Temporary;
    }
    err := Failure(kind);
    if kind != Permanent {
      var hint := RetryAfter(header, date, now);
      err := err.(retryAfter := hint);
    }
  }

  /** The fields of the response body that are read; a rate that is not a JSON number and a bad date are absent. */
  datatype Payload = Payload(base: string, quote: string, rate: Option<string>, date: Option<int>)

  function Code(currency: Currency): string {
    match currency
    case USD => "USD"
    case EUR => "EUR"
    case MXN => "MXN"
  }

  /** The three currency texts. */
  predicate Spells(text: string, currency: Currency) {
    && (currency.USD? <==> text == "USD")
    && (currency.EUR? <==> text == "EUR")
    && (currency.MXN? <==> text == "MXN")
  }

  lemma CodeSpells(text: string, currency: Currency)
    ensures Spells(text, currency) <==> text == Code(currency)
  {
    assert "USD"[0] != "EUR"[0] && "USD"[0] != "MXN"[0] && "EUR"[0] != "MXN"[0];
  }

  datatype Decoded = Obtained(quote: Quote) | Refused(err: ProviderError)

  /** A decoded quote is of the requested pair and carries the canonical text of the number that was sent. */
  method DecodeQuote(payload: Payload, pair: Pair) returns (d: Decoded)
    ensures d.Obtained? ==>
              && Spells(payload.base, pair.base) && Spells(payload.quote, pair.quote) && d.quote.pair == pair
              && payload.rate.Some? && Rate.Reads(payload.rate.value, Some(d.quote.rate))
              && d.quote.provider == "frankfurter-ecb" && payload.date == Some(d.quote.sourceDate)
    ensures d.Refused? ==> d.err == Failure(Permanent)
    ensures d.Refused? <==>
              || !Spells(payload.base, pair.base) || !Spells(payload.quote, pair.quote)
              || payload.date.None? || payload.rate.None? || !Rate.Accepted(payload.rate.value)
  {
    CodeSpells(payload.base, pair.base);
    CodeSpells(payload.quote, pair.quote);
    if payload.base != Code(pair.base) || payload.quote != Code(pair.quote) {
      return Refused(Failure(Permanent));
    }
    if payload.rate.None? {
      return Refused(Failure(Permanent));
    }
    var rate := Rate.ParseRate(payload.rate.value);
    if rate.None? {
      return Refused(Failure(Permanent));
    }
    if payload.date.None? {
      return Refused(Failure(Permanent));
    }
    return Obtained(Quote(pair, rate.value, "frankfurter-ecb", payload.date.value, 0));
  }

  /**
   A throttled or temporary response is retried no earlier than its header asks for, up to one
   minute, and no later than in one minute. The schedule keeps whole microseconds.
   */
  method ScheduledRetry(status: int, header: string, date: Option<int>, now: int,
                        id: Id, attempt: Int64, fnv: (Id, Int64) -> UInt64) returns (micros: Int64)
    requires status in {408, 429, 500, 502, 503, 504}
    ensures Hint(header, date, now) / 1000 <= micros as int <= 60_000_000
    ensures Decimal.Digits(Rate.TrimSpace(header)) && |Rate.TrimSpace(header)| > 0 ==>
              micros as int >= Min(60_000_000, Decimal.Value(Rate.TrimSpace(header)) * 1_000_000)
  {
    var err := ResponseFailure(status, header, date, now);
    var delay := Delay(RetryPolicy(SECOND, MINUTE), id, attempt, err.retryAfter, fnv);
    micros := delay / 1000;
  }
}
