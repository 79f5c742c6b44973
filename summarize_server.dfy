/** The edge function of supabase/functions/summarize-content/index.ts: request validation,
    the recursive `fetchWithRetry` and the reading of the model's response. */
module SummarizeServer {
  import opened Text
  import opened Numbers
  import opened SummaryParsing

  const TextRequiredMessage: string := "Text content is required"
  const NotConfiguredMessage: string := "AI service not configured"
  const NoContentMessage: string := "No content generated"

  /** The budget `fetchWithRetry` is first called with: three retries, the first after 1000 ms. */
  const Retries: nat := 3
  const FirstBackoff: nat := 1000

  /** A thrown value: an `Error` with its message, or any other value. */
  datatype Thrown = ErrorObject(message: string) | OtherValue

  /** `error instanceof Error ? error.message : 'Unknown error'`. */
  function ErrorText(e: Thrown): string {
    match e
    case ErrorObject(message) => message
    case OtherValue => "Unknown error"
  }

  /** The request body as `req.json()` reads it: its `text` field (`None` when absent), or the
      error `json()` throws. */
  datatype RequestJson = Request(text: Option<string>) | BadRequest(error: Thrown)

  /** A response body as `response.json()` reads it: the string at
      `candidates[0].content.parts[0].text` (`None` when the path is missing), or the error
      `json()` throws. */
  datatype ResponseJson = Json(text: Option<string>) | Unreadable(error: Thrown)

  /** What the `k`-th `fetch` call gives: a response with its status, or a thrown error. */
  datatype FetchOutcome = Response(status: nat, json: ResponseJson) | NetworkError(error: Thrown)

  /** What `fetchWithRetry` settles with: the response it returns or the error it throws. */
  datatype FetchResult = Got(status: nat, json: ResponseJson) | Threw(error: Thrown)

  /** The result together with the number of `fetch` calls made and the delays slept. */
  datatype FetchRun = FetchRun(result: FetchResult, calls: nat, waits: seq<nat>)

  /** An outcome `fetchWithRetry` tries again on while retries are left. */
  predicate Retryable(o: FetchOutcome) {
    o.NetworkError? || o.status == 429
  }

  /** An outcome taken as the final one. */
  function Final(o: FetchOutcome): FetchResult {
    match o
    case Response(status, json) => Got(status, json)
    case NetworkError(e) => Threw(e)
  }

  /** `fetchWithRetry(url, options, retries, backoff)`, whose first call is the `k`-th `fetch`:
      a 429 response or a thrown error with retries left waits `backoff` ms and calls itself
      with one retry less and twice the backoff; otherwise the response is returned, or the error
      rethrown. */
  function FetchWithRetry(fetch: nat -> FetchOutcome, k: nat, retries: nat, backoff: nat): (r: FetchRun)
    ensures 1 <= r.calls <= retries + 1
    ensures |r.waits| == r.calls - 1
    decreases retries
  {
    var o := fetch(k);
    if Retryable(o) && retries > 0 then
      var rest := FetchWithRetry(fetch, k + 1, retries - 1, backoff * 2);
      FetchRun(rest.result, rest.calls + 1, [backoff] + rest.waits)
    else
      FetchRun(Final(o), 1, [])
  }

  /** The delays double from one retry to the next. */
  lemma {:induction false} FetchWaitsDouble(fetch: nat -> FetchOutcome, k: nat, retries: nat, backoff: nat)
    ensures var r := FetchWithRetry(fetch, k, retries, backoff);
      forall i :: 0 <= i < |r.waits| ==> r.waits[i] == backoff * Pow2(i)
    decreases retries
  {
    var o := fetch(k);
    if Retryable(o) && retries > 0 {
      FetchWaitsDouble(fetch, k + 1, retries - 1, backoff * 2);
      var rest := FetchWithRetry(fetch, k + 1, retries - 1, backoff * 2);
      var r := FetchWithRetry(fetch, k, retries, backoff);
      assert r.waits == [backoff] + rest.waits;
      forall i | 1 <= i < |r.waits|
        ensures r.waits[i] == backoff * Pow2(i)
      {
        assert r.waits[i] == rest.waits[i - 1] == backoff * 2 * Pow2(i - 1);
      }
    }
  }

  /** `fetchWithRetry` settles on the first outcome it does not retry: after `n` retryable
      outcomes it makes `n + 1` calls and ends with outcome `n`, when that is not retryable or
      no retry is left. */
  lemma {:induction false} FetchSettlesAt(fetch: nat -> FetchOutcome, k: nat, retries: nat, backoff: nat, n: nat)
    requires n <= retries
    requires forall t :: k <= t < k + n ==> Retryable(fetch(t))
    requires n == retries || !Retryable(fetch(k + n))
    ensures FetchWithRetry(fetch, k, retries, backoff).calls == n + 1
    ensures FetchWithRetry(fetch, k, retries, backoff).result == Final(fetch(k + n))
    decreases n
  {
    if n > 0 {
      FetchSettlesAt(fetch, k + 1, retries - 1, backoff * 2, n - 1);
    }
  }

  /** Conversely, every call but the last met a retryable outcome, and the last one a final
      outcome unless the retries ran out. */
  lemma {:induction false} FetchRetriedBefore(fetch: nat -> FetchOutcome, k: nat, retries: nat, backoff: nat)
    ensures var r := FetchWithRetry(fetch, k, retries, backoff);
      && (forall t :: k <= t < k + r.calls - 1 ==> Retryable(fetch(t)))
      && (r.calls <= retries ==> !Retryable(fetch(k + r.calls - 1)))
      && r.result == Final(fetch(k + r.calls - 1))
    decreases retries
  {
    if Retryable(fetch(k)) && retries > 0 {
      FetchRetriedBefore(fetch, k + 1, retries - 1, backoff * 2);
    }
  }

  /** The bodies the edge function answers with. */
  datatype Body = ErrorBody(error: string) | SummariesBody(summaries: seq<string>)

  datatype HttpResponse = HttpResponse(status: nat, body: Body)

  /** The response together with the number of `fetch` calls and the delays slept. */
  datatype Handled = Handled(response: HttpResponse, fetches: nat, waits: seq<nat>)

  /** A value JavaScript takes as false: absent or empty. */
  predicate Missing(s: Option<string>) {
    s.None? || s.value == []
  }

  /** What the function answers once `fetchWithRetry` has settled: a thrown error goes to the
      outer handler (500 with its message); a status outside 200-299 is
      `Gemini API Error: <status>`; a response without text is `No content generated`; text is
      read into summaries, answered with the default status 200. */
  function Respond(result: FetchResult, parse: string -> Option<seq<string>>): HttpResponse {
    match result
    case Threw(e) => HttpResponse(500, ErrorBody(ErrorText(e)))
    case Got(status, json) =>
      if !(200 <= status <= 299) then HttpResponse(500, ErrorBody("Gemini API Error: " + Decimal(status)))
      else
        match json
        case Unreadable(e) => HttpResponse(500, ErrorBody(ErrorText(e)))
        case Json(text) =>
          if Missing(text) then HttpResponse(500, ErrorBody(NoContentMessage))
          else HttpResponse(200, SummariesBody(ParseSummaries(text.value, parse)))
  }

  /** The handler for a POST request, with the `GEMINI_API_KEY` setting `apiKey` and `fetch(k)`
      the outcome of the `k`-th `fetch` call. */
  function HandleRequest(req: RequestJson, apiKey: Option<string>, fetch: nat -> FetchOutcome, parse: string -> Option<seq<string>>): Handled {
    match req
    case BadRequest(e) => Handled(HttpResponse(500, ErrorBody(ErrorText(e))), 0, [])
    case Request(text) =>
      if Missing(text) then Handled(HttpResponse(400, ErrorBody(TextRequiredMessage)), 0, [])
      else if Missing(apiKey) then Handled(HttpResponse(500, ErrorBody(NotConfiguredMessage)), 0, [])
      else
        var fr := FetchWithRetry(fetch, 0, Retries, FirstBackoff);
        Handled(Respond(fr.result, parse), fr.calls, fr.waits)
  }

  /** A request without text is refused with 400 before the key is looked at and before any
      fetch. */
  lemma MissingTextRefused(text: Option<string>, apiKey: Option<string>, fetch: nat -> FetchOutcome, parse: string -> Option<seq<string>>)
    requires Missing(text)
    ensures HandleRequest(Request(text), apiKey, fetch, parse) == Handled(HttpResponse(400, ErrorBody(TextRequiredMessage)), 0, [])
  {
  }

  /** With text but no key the answer is 500 `AI service not configured`, with no fetch. */
  lemma MissingKeyRefused(text: string, apiKey: Option<string>, fetch: nat -> FetchOutcome, parse: string -> Option<seq<string>>)
    requires text != [] && Missing(apiKey)
    ensures HandleRequest(Request(Some(text)), apiKey, fetch, parse) == Handled(HttpResponse(500, ErrorBody(NotConfiguredMessage)), 0, [])
  {
  }

  /** At most four fetches, the delays before the second, third and fourth being 1000, 2000 and
      4000 ms. */
  lemma FetchBudget(req: RequestJson, apiKey: Option<string>, fetch: nat -> FetchOutcome, parse: string -> Option<seq<string>>)
    ensures var h := HandleRequest(req, apiKey, fetch, parse);
      h.fetches <= 4 && h.waits == [1000, 2000, 4000][..if h.fetches == 0 then 0 else h.fetches - 1]
  {
    FetchWaitsDouble(fetch, 0, Retries, FirstBackoff);
    assert Pow2(1) == 2 && Pow2(2) == 4;
    var h := HandleRequest(req, apiKey, fetch, parse);
    assert |h.waits| <= 3;
  }

  /** A first response other than 429 is final: one fetch, and its status decides. */
  lemma FirstResponseFinal(text: string, key: string, fetch: nat -> FetchOutcome, parse: string -> Option<seq<string>>)
    requires text != [] && key != []
    requires fetch(0).Response? && fetch(0).status != 429
    ensures HandleRequest(Request(Some(text)), Some(key), fetch, parse)
      == Handled(Respond(Got(fetch(0).status, fetch(0).json), parse), 1, [])
  {
  }

  /** Four 429 responses in a row: the last one is returned, not thrown, and answered with
      500 `Gemini API Error: 429`. */
  lemma RateLimitedThroughout(text: string, key: string, fetch: nat -> FetchOutcome, parse: string -> Option<seq<string>>)
    requires text != [] && key != []
    requires forall t :: 0 <= t < 4 ==> fetch(t).Response? && fetch(t).status == 429
    ensures HandleRequest(Request(Some(text)), Some(key), fetch, parse).response == HttpResponse(500, ErrorBody("Gemini API Error: 429"))
    ensures HandleRequest(Request(Some(text)), Some(key), fetch, parse).fetches == 4
  {
    FetchSettlesAt(fetch, 0, Retries, FirstBackoff, 3);
    assert fetch(3).Response? && fetch(3).status == 429;
    DecimalOf429();
    assert "Gemini API Error: " + Decimal(429) == "Gemini API Error: 429";
  }

  lemma DecimalOf429()
    ensures Decimal(429) == "429"
  {
    assert DigitChar(4) == '4' && DigitChar(2) == '2' && DigitChar(9) == '9';
    assert Decimal(4) == "4";
    assert Decimal(42) == Decimal(4) + [DigitChar(2)] == "42";
    assert Decimal(429) == Decimal(42) + [DigitChar(9)];
  }

  /** Four thrown fetches in a row: the last error reaches the outer handler, which answers
      500 with its message. */
  lemma NetworkDownThroughout(text: string, key: string, fetch: nat -> FetchOutcome, parse: string -> Option<seq<string>>)
    requires text != [] && key != []
    requires forall t :: 0 <= t < 4 ==> fetch(t).NetworkError?
    ensures HandleRequest(Request(Some(text)), Some(key), fetch, parse).response == HttpResponse(500, ErrorBody(ErrorText(fetch(3).error)))
    ensures HandleRequest(Request(Some(text)), Some(key), fetch, parse).fetches == 4
  {
    FetchSettlesAt(fetch, 0, Retries, FirstBackoff, 3);
  }

  /** A 2xx response carrying text, after `n` retried outcomes, is answered with the summaries
      read from that text and the default status. */
  lemma AnsweredWithSummaries(text: string, key: string, fetch: nat -> FetchOutcome, parse: string -> Option<seq<string>>, n: nat, content: string)
    requires text != [] && key != [] && n <= Retries
    requires forall t :: 0 <= t < n ==> Retryable(fetch(t))
    requires fetch(n).Response? && 200 <= fetch(n).status <= 299 && fetch(n).json == Json(Some(content)) && content != []
    ensures HandleRequest(Request(Some(text)), Some(key), fetch, parse)
      == Handled(HttpResponse(200, SummariesBody(ParseSummaries(content, parse))), n + 1, FetchWithRetry(fetch, 0, Retries, FirstBackoff).waits)
  {
    FetchSettlesAt(fetch, 0, Retries, FirstBackoff, n);
  }

  /** A 2xx response without text at `candidates[0].content.parts[0].text` is answered with
      500 `No content generated`. */
  lemma NoTextAnswered(status: nat, text: Option<string>, parse: string -> Option<seq<string>>)
    requires 200 <= status <= 299 && Missing(text)
    ensures Respond(Got(status, Json(text)), parse) == HttpResponse(500, ErrorBody(NoContentMessage))
  {
  }
}
