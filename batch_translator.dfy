/**
 * The resilient batch translator (`translate_batch`): up to `MaxRetries` calls
 * of the generation service for the whole batch, each accepted only when its
 * reply parses to a list of exactly the batch's length; otherwise bisection at
 * `n / 2`, translating both halves and concatenating left then right.
 *
 * The service is a parameter: `service(k, b)` is the reply to the `k`-th call
 * of the whole run, which sends batch `b`. Every function threads the number of
 * calls made so far, so that call counts can be stated.
 */
module BatchTranslator {
  import opened Wrappers
  import opened ResponseParser

  /** `max_retries` */
  const MaxRetries: nat := 2
  /** RIGHT-TO-LEFT EMBEDDING, prepended to every translated line. */
  const RLE: char := '\U{202B}'
  /** POP DIRECTIONAL FORMATTING, appended to every translated line. */
  const PDF: char := '\U{202C}'

  /** What one service call yields: the reply text, or one of the two kinds of exception. */
  datatype Reply = Content(text: string) | RateLimited | ApiError

  type Service = (nat, seq<string>) -> Reply

  /** The outcome of a translation together with the number of service calls made so far. */
  datatype Run = Run(result: Option<seq<string>>, calls: nat)

  /** One translated line as it is returned: RLE, the text, PDF. */
  function Wrap(s: string): (r: string)
    ensures |r| == |s| + 2 && r[0] == RLE && r[|r| - 1] == PDF
    ensures r[1..|r| - 1] == s
  {
    [RLE] + s + [PDF]
  }

  predicate IsWrapped(s: string)
  {
    |s| >= 2 && s[0] == RLE && s[|s| - 1] == PDF
  }

  function WrapAll(ts: seq<string>): (r: seq<string>)
    ensures |r| == |ts| && forall i :: 0 <= i < |ts| ==> r[i] == Wrap(ts[i])
  {
    seq(|ts|, i requires 0 <= i < |ts| => Wrap(ts[i]))
  }

  /**
   * The body of one attempt: the parsed list when the reply is content that
   * parses to a list of exactly `|batch|` strings, `None` otherwise.
   */
  function Accept(reply: Reply, batch: seq<string>, decode: Decoder): (r: Option<seq<string>>)
    ensures r.Some? <==>
      reply.Content? && ExtractJsonList(reply.text, decode).Some? &&
      |ExtractJsonList(reply.text, decode).value| == |batch|
    ensures r.Some? ==> r == ExtractJsonList(reply.text, decode) && |r.value| == |batch|
  {
    match reply
    case Content(text) =>
      var parsed := ExtractJsonList(text, decode);
      if parsed.None? || |parsed.value| != |batch| then None else parsed
    case _ => None
  }

  /**
   * The retry loop `for attempt in range(max_retries)`, from `attempt` on: the
   * first accepted reply is wrapped and returned; rejected replies, rate limits
   * and other errors each use up one attempt.
   */
  function Attempts(batch: seq<string>, service: Service, decode: Decoder, attempt: nat, calls: nat): (r: Run)
    requires attempt <= MaxRetries
    ensures calls <= r.calls <= calls + (MaxRetries - attempt)
    ensures r.result.None? ==> r.calls == calls + (MaxRetries - attempt)
    ensures forall j: nat :: calls <= j < r.calls && (r.result.None? || j < r.calls - 1) ==>
      Accept(service(j, batch), batch, decode).None?
    ensures r.result.Some? ==>
      calls < r.calls && Accept(service(r.calls - 1, batch), batch, decode).Some? &&
      r.result.value == WrapAll(Accept(service(r.calls - 1, batch), batch, decode).value)
    decreases MaxRetries - attempt
  {
    if attempt == MaxRetries then Run(None, calls)
    else
      var parsed := Accept(service(calls, batch), batch, decode);
      if parsed.Some? then Run(Some(WrapAll(parsed.value)), calls + 1)
      else Attempts(batch, service, decode, attempt + 1, calls + 1)
  }

  /** The bisection point: `texts_batch[:mid]` and `texts_batch[mid:]` with `mid = n // 2`. */
  function Split(batch: seq<string>): (halves: (seq<string>, seq<string>))
    ensures halves.0 + halves.1 == batch
    ensures |halves.0| == |batch| / 2
    ensures |batch| > 1 ==> 0 < |halves.0| < |batch| && 0 < |halves.1| < |batch|
  {
    (batch[..|batch| / 2], batch[|batch| / 2..])
  }

  /** Python truthiness of a result: not `None` and not the empty list. */
  predicate Truthy(o: Option<seq<string>>)
    ensures Truthy(o) <==> o != None && o != Some([])
  {
    o.Some? && |o.value| > 0
  }

  /**
   * `translate_batch`: on success the result has exactly one wrapped line per
   * input line; each invocation makes at most `MaxRetries` calls of its own, so
   * a batch of `n >= 1` lines costs at most `MaxRetries * (2n - 1)` calls.
   */
  function TranslateBatch(batch: seq<string>, service: Service, decode: Decoder, calls: nat): (r: Run)
    ensures calls < r.calls
    ensures |batch| == 0 ==> r.calls <= calls + MaxRetries
    ensures |batch| > 0 ==> r.calls <= calls + MaxRetries * (2 * |batch| - 1)
    ensures r.result.Some? ==>
      |r.result.value| == |batch| &&
      forall i :: 0 <= i < |batch| ==> IsWrapped(r.result.value[i])
    decreases |batch|
  {
    var first := Attempts(batch, service, decode, 0, calls);
    if first.result.Some? then first
    else if |batch| > 1 then
      var (left, right) := Split(batch);
      var l := TranslateBatch(left, service, decode, first.calls);
      var rr := TranslateBatch(right, service, decode, l.calls);
      if Truthy(l.result) && Truthy(rr.result) then Run(Some(l.result.value + rr.result.value), rr.calls)
      else Run(None, rr.calls)
    else first
  }

  /**
   * Failure propagates: a batch of at most one line whose attempts all fail
   * gives `None`; a longer one gives a result exactly when both halves do, and
   * then it is the left half's result followed by the right half's. The right
   * half is translated even when the left half failed.
   */
  lemma FailurePropagates(batch: seq<string>, service: Service, decode: Decoder, calls: nat)
    requires Attempts(batch, service, decode, 0, calls).result.None?
    ensures |batch| <= 1 ==> TranslateBatch(batch, service, decode, calls) == Run(None, calls + MaxRetries)
    ensures |batch| > 1 ==>
      var l := TranslateBatch(Split(batch).0, service, decode, calls + MaxRetries);
      var rr := TranslateBatch(Split(batch).1, service, decode, l.calls);
      var r := TranslateBatch(batch, service, decode, calls);
      r.calls == rr.calls &&
      (r.result.Some? <==> l.result.Some? && rr.result.Some?) &&
      (r.result.Some? ==> r.result.value == l.result.value + rr.result.value)
  {
  }

  /** A service that never yields an acceptable reply. */
  ghost predicate NeverAccepts(service: Service, decode: Decoder)
  {
    forall j: nat, b: seq<string> :: Accept(service(j, b), b, decode).None?
  }

  /**
   * Under total failure, bisection goes all the way down to single lines:
   * `2n - 1` invocations of `translate_batch`, each using all its attempts,
   * and the result is `None`.
   */
  lemma {:induction false} TotalFailure(batch: seq<string>, service: Service, decode: Decoder, calls: nat)
    requires |batch| > 0 && NeverAccepts(service, decode)
    ensures TranslateBatch(batch, service, decode, calls) == Run(None, calls + MaxRetries * (2 * |batch| - 1))
    decreases |batch|
  {
    var first := Attempts(batch, service, decode, 0, calls);
    if first.result.None? && |batch| > 1 {
      var (left, right) := Split(batch);
      TotalFailure(left, service, decode, first.calls);
      var l := TranslateBatch(left, service, decode, first.calls);
      TotalFailure(right, service, decode, l.calls);
    }
  }

  /** A service that answers at once with an acceptable reply is called once. */
  lemma ReliableServiceOneCall(batch: seq<string>, service: Service, decode: Decoder, calls: nat)
    requires Accept(service(calls, batch), batch, decode).Some?
    ensures TranslateBatch(batch, service, decode, calls) ==
      Run(Some(WrapAll(Accept(service(calls, batch), batch, decode).value)), calls + 1)
  {
  }

  /** The line-by-line translation of a batch under `tr`. */
  function Translated(tr: string -> string, batch: seq<string>): (r: seq<string>)
    ensures |r| == |batch| && forall i :: 0 <= i < |batch| ==> r[i] == tr(batch[i])
  {
    seq(|batch|, i requires 0 <= i < |batch| => tr(batch[i]))
  }

  /**
   * A service whose every acceptable reply is the line-by-line translation of
   * the batch it was sent (it may still fail, rate-limit or miscount at will).
   */
  ghost predicate Honest(service: Service, decode: Decoder, tr: string -> string)
  {
    forall j: nat, b: seq<string> :: Accept(service(j, b), b, decode).Some? ==>
      Accept(service(j, b), b, decode).value == Translated(tr, b)
  }

  /**
   * Order and alignment survive bisection: with an honest service, a
   * successful result is exactly the wrapped line-by-line translation, so line
   * `i` of the result translates line `i` of the batch.
   */
  lemma {:induction false} HonestServiceAligned(batch: seq<string>, service: Service, decode: Decoder,
                                                tr: string -> string, calls: nat)
    requires Honest(service, decode, tr)
    ensures TranslateBatch(batch, service, decode, calls).result.Some? ==>
      TranslateBatch(batch, service, decode, calls).result.value == WrapAll(Translated(tr, batch))
    decreases |batch|
  {
    var first := Attempts(batch, service, decode, 0, calls);
    if first.result.Some? {
      var parsed := Accept(service(first.calls - 1, batch), batch, decode);
      assert parsed.value == Translated(tr, batch);
    } else if |batch| > 1 {
      var (left, right) := Split(batch);
      HonestServiceAligned(left, service, decode, tr, first.calls);
      var l := TranslateBatch(left, service, decode, first.calls);
      HonestServiceAligned(right, service, decode, tr, l.calls);
      var rr := TranslateBatch(right, service, decode, l.calls);
      if l.result.Some? && rr.result.Some? {
        TranslatedConcat(tr, left, right);
        WrapAllConcat(Translated(tr, left), Translated(tr, right));
      }
    }
  }

  lemma TranslatedConcat(tr: string -> string, a: seq<string>, b: seq<string>)
    ensures Translated(tr, a) + Translated(tr, b) == Translated(tr, a + b)
  {
  }

  lemma WrapAllConcat(a: seq<string>, b: seq<string>)
    ensures WrapAll(a) + WrapAll(b) == WrapAll(a + b)
  {
  }
}
