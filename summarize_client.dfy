/** `summarizeTextToClips` of src/lib/summarizeContent.ts: up to three calls to the model with
    waits between them, retrying only rate-limit errors, then turning the summaries into clips. */
module SummarizeClient {
  import opened Text
  import opened Numbers
  import opened Clips
  import opened SummaryParsing

  /** `BACKGROUND_VIDEOS`: the two bundled background videos. */
  const Backgrounds: seq<string> := ["subway-surfers.mp4", "minecraft-parkour.mp4"]

  const MaxAttempts: nat := 3
  const KeyMissingMessage: string := "VITE_GEMINI_API_KEY is not configured in your .env file"
  const NoContentMessage: string := "No content generated from Gemini"

  /** What the `k`-th `model.generateContent(prompt)` call gives: the reply text, or an error
      with its message. */
  datatype Reply = Generated(text: string) | Failed(message: string)

  /** How `summarizeTextToClips` settles: the clips it resolves with, or the message of the
      error it rejects with. */
  datatype Outcome = Returned(clips: seq<VideoClip>) | Thrown(message: string)

  /** The outcome together with the number of model calls made and the waits, in milliseconds,
      slept before them. */
  datatype Run = Run(outcome: Outcome, calls: nat, waits: seq<nat>)

  /** A rate-limit error: its message mentions `429` or `quota`. */
  predicate IsRateLimit(message: string) {
    Contains(message, "429") || Contains(message, "quota")
  }

  /** A reply that makes the loop try again. */
  predicate Retried(r: Reply) {
    r.Failed? && IsRateLimit(r.message)
  }

  /** `Math.pow(2, attempt) * 10000`: the wait before attempt `attempt` (counted from 0). */
  function WaitBefore(attempt: nat): nat {
    Pow2(attempt) * 10000
  }

  /** Each wait is twice the one before. */
  lemma WaitDoubles(attempt: nat)
    requires attempt > 0
    ensures WaitBefore(attempt) == 2 * WaitBefore(attempt - 1)
  {
  }

  /** The waits in front of the first `calls` calls: none before the first. */
  function Waits(calls: nat): (ws: seq<nat>)
    ensures |ws| == if calls == 0 then 0 else calls - 1
  {
    if calls <= 1 then [] else Waits(calls - 1) + [WaitBefore(calls - 1)]
  }

  lemma WaitsOfThree()
    ensures Waits(1) == [] && Waits(2) == [20000] && Waits(3) == [20000, 40000]
  {
    assert Pow2(1) == 2 && Pow2(2) == 4;
  }

  /** Clip mapping: clip `i` carries the `i`-th summary trimmed, the chosen duration, the
      `i`-th clock reading in its id and a random bundled background. */
  function SummaryClips(summaries: seq<string>, duration: VideoDuration, clock: nat -> nat, random: nat -> real): (clips: seq<VideoClip>)
    requires IsRandomSource(random)
    ensures |clips| == |summaries|
    ensures forall i :: 0 <= i < |clips| ==>
      && clips[i].order == i
      && clips[i].content == Trim(summaries[i])
      && IsTrimmed(clips[i].content)
      && clips[i].duration == duration
      && clips[i].backgroundUrl in Backgrounds
      && clips[i].id == ClipId(clock(i), i)
  {
    MakeClips(TrimAll(summaries), duration, Backgrounds, clock, random)
  }

  /** How an attempt whose reply is not retried ends the call: an empty reply is the error
      `No content generated from Gemini`, any other error is rethrown as it is, and a reply
      text is parsed into clips. */
  function Settle(r: Reply, duration: VideoDuration, parse: string -> Option<seq<string>>, clock: nat -> nat, random: nat -> real): Outcome
    requires IsRandomSource(random)
  {
    match r
    case Failed(message) => Thrown(message)
    case Generated(text) =>
      if text == [] then Thrown(NoContentMessage)
      else Returned(SummaryClips(ParseSummaries(text, parse), duration, clock, random))
  }

  /** The number of consecutive retried replies from attempt `k` on, counting no further than
      the third attempt. */
  function RetriedRun(reply: nat -> Reply, k: nat): (n: nat)
    requires k <= MaxAttempts
    ensures n <= MaxAttempts - k
    decreases MaxAttempts - k
  {
    if k == MaxAttempts || !Retried(reply(k)) then 0 else 1 + RetriedRun(reply, k + 1)
  }

  /** `Failed after 3 attempts. Last error: ${lastError?.message}`. */
  function ExhaustedMessage(last: string): string {
    "Failed after 3 attempts. Last error: " + last
  }

  /** The whole of `summarizeTextToClips` for a given key, a given sequence of model replies,
      parser, clock and random stream. An empty key stands for a missing one. */
  function Summarize(apiKey: string, duration: VideoDuration, reply: nat -> Reply, parse: string -> Option<seq<string>>, clock: nat -> nat, random: nat -> real): Run
    requires IsRandomSource(random)
  {
    if apiKey == [] then Run(Thrown(KeyMissingMessage), 0, [])
    else
      var n := RetriedRun(reply, 0);
      if n == MaxAttempts then Run(Thrown(ExhaustedMessage(reply(MaxAttempts - 1).message)), MaxAttempts, Waits(MaxAttempts))
      else Run(Settle(reply(n), duration, parse, clock, random), n + 1, Waits(n + 1))
  }

  /** The run of retried replies from `k` is exactly as long as the retried prefix. */
  lemma {:induction false} RetriedRunStops(reply: nat -> Reply, k: nat, n: nat)
    requires k <= n < MaxAttempts
    requires forall t :: k <= t < n ==> Retried(reply(t))
    requires !Retried(reply(n))
    ensures RetriedRun(reply, k) == n - k
    decreases n - k
  {
    if k < n {
      RetriedRunStops(reply, k + 1, n);
    }
  }

  lemma {:induction false} RetriedRunFull(reply: nat -> Reply, k: nat)
    requires k <= MaxAttempts
    requires forall t :: k <= t < MaxAttempts ==> Retried(reply(t))
    ensures RetriedRun(reply, k) == MaxAttempts - k
    decreases MaxAttempts - k
  {
    if k < MaxAttempts {
      RetriedRunFull(reply, k + 1);
    }
  }

  /** The replies before the end of the run are all retried ones. */
  lemma {:induction false} RetriedRunPrefix(reply: nat -> Reply, k: nat, t: nat)
    requires k <= MaxAttempts && k <= t < k + RetriedRun(reply, k)
    ensures Retried(reply(t))
    decreases MaxAttempts - k
  {
    if t > k {
      RetriedRunPrefix(reply, k + 1, t);
    }
  }

  /** A missing key rejects before any model call. */
  lemma KeyMissingNoCall(duration: VideoDuration, reply: nat -> Reply, parse: string -> Option<seq<string>>, clock: nat -> nat, random: nat -> real)
    requires IsRandomSource(random)
    ensures Summarize([], duration, reply, parse, clock, random) == Run(Thrown(KeyMissingMessage), 0, [])
  {
  }

  /** With a key there are one to three calls, the second after 20000 ms and the third after a
      further 40000 ms; every call but the last got a rate-limit error, and the last did not
      unless it was the third. */
  lemma CallsAndWaits(apiKey: string, duration: VideoDuration, reply: nat -> Reply, parse: string -> Option<seq<string>>, clock: nat -> nat, random: nat -> real)
    requires IsRandomSource(random) && apiKey != []
    ensures var r := Summarize(apiKey, duration, reply, parse, clock, random);
      && 1 <= r.calls <= MaxAttempts
      && r.waits == [20000, 40000][..r.calls - 1]
      && (forall t :: 0 <= t < r.calls - 1 ==> Retried(reply(t)))
      && (r.calls < MaxAttempts ==> !Retried(reply(r.calls - 1)))
  {
    var r := Summarize(apiKey, duration, reply, parse, clock, random);
    WaitsOfThree();
    assert [20000, 40000][..0] == [] && [20000, 40000][..1] == [20000] && [20000, 40000][..2] == [20000, 40000];
    forall t | 0 <= t < r.calls - 1
      ensures Retried(reply(t))
    {
      RetriedRunPrefix(reply, 0, t);
    }
  }

  /** The first attempt whose reply is not a rate-limit error settles the call with that
      reply, after `k + 1` calls. */
  lemma SettlesAt(apiKey: string, duration: VideoDuration, reply: nat -> Reply, parse: string -> Option<seq<string>>, clock: nat -> nat, random: nat -> real, k: nat)
    requires IsRandomSource(random) && apiKey != []
    requires k < MaxAttempts && forall t :: 0 <= t < k ==> Retried(reply(t))
    requires !Retried(reply(k))
    ensures Summarize(apiKey, duration, reply, parse, clock, random) == Run(Settle(reply(k), duration, parse, clock, random), k + 1, Waits(k + 1))
  {
    RetriedRunStops(reply, 0, k);
  }

  /** An attempt whose error is not a rate limit ends the call at once with that error: no
      further call is made. */
  lemma OtherErrorStops(apiKey: string, duration: VideoDuration, reply: nat -> Reply, parse: string -> Option<seq<string>>, clock: nat -> nat, random: nat -> real, k: nat)
    requires IsRandomSource(random) && apiKey != []
    requires k < MaxAttempts && forall t :: 0 <= t < k ==> Retried(reply(t))
    requires reply(k).Failed? && !IsRateLimit(reply(k).message)
    ensures Summarize(apiKey, duration, reply, parse, clock, random).outcome == Thrown(reply(k).message)
    ensures Summarize(apiKey, duration, reply, parse, clock, random).calls == k + 1
  {
    SettlesAt(apiKey, duration, reply, parse, clock, random, k);
  }

  /** An empty reply is an error that is not retried. */
  lemma EmptyReplyStops(apiKey: string, duration: VideoDuration, reply: nat -> Reply, parse: string -> Option<seq<string>>, clock: nat -> nat, random: nat -> real, k: nat)
    requires IsRandomSource(random) && apiKey != []
    requires k < MaxAttempts && forall t :: 0 <= t < k ==> Retried(reply(t))
    requires reply(k) == Generated([])
    ensures Summarize(apiKey, duration, reply, parse, clock, random).outcome == Thrown(NoContentMessage)
    ensures Summarize(apiKey, duration, reply, parse, clock, random).calls == k + 1
  {
    SettlesAt(apiKey, duration, reply, parse, clock, random, k);
  }

  /** Three rate-limit errors in a row reject with `Failed after 3 attempts` and the last
      message, after three calls and both waits. */
  lemma ThreeRateLimits(apiKey: string, duration: VideoDuration, reply: nat -> Reply, parse: string -> Option<seq<string>>, clock: nat -> nat, random: nat -> real)
    requires IsRandomSource(random) && apiKey != []
    requires Retried(reply(0)) && Retried(reply(1)) && Retried(reply(2))
    ensures Summarize(apiKey, duration, reply, parse, clock, random) == Run(Thrown(ExhaustedMessage(reply(2).message)), 3, [20000, 40000])
  {
    RetriedRunFull(reply, 0);
    WaitsOfThree();
  }

  /** Two rate-limit errors and then a reply resolve with that reply's clips after exactly
      three calls, having waited 20000 and 40000 ms. */
  lemma TwoRateLimitsThenReply(apiKey: string, duration: VideoDuration, reply: nat -> Reply, parse: string -> Option<seq<string>>, clock: nat -> nat, random: nat -> real)
    requires IsRandomSource(random) && apiKey != []
    requires Retried(reply(0)) && Retried(reply(1))
    requires reply(2).Generated? && reply(2).text != []
    ensures Summarize(apiKey, duration, reply, parse, clock, random)
      == Run(Returned(SummaryClips(ParseSummaries(reply(2).text, parse), duration, clock, random)), 3, [20000, 40000])
  {
    SettlesAt(apiKey, duration, reply, parse, clock, random, 2);
    WaitsOfThree();
  }

  /** `summarizeTextToClips`: the retry `for` loop. `reply(k)` is the `k`-th call's reply; the
      clock and random stream are those of the clip mapping. */
  method SummarizeTextToClips(apiKey: string, duration: VideoDuration, reply: nat -> Reply, parse: string -> Option<seq<string>>, clock: nat -> nat, random: nat -> real)
    returns (outcome: Outcome, calls: nat, waits: seq<nat>)
    requires IsRandomSource(random)
    ensures Run(outcome, calls, waits) == Summarize(apiKey, duration, reply, parse, clock, random)
  {
    if apiKey == [] {
      return Thrown(KeyMissingMessage), 0, [];
    }
    var lastError := "";
    var attempt := 0;
    calls, waits := 0, [];
    while attempt < MaxAttempts
      invariant 0 <= attempt <= MaxAttempts
      invariant calls == attempt && waits == Waits(attempt)
      invariant forall t :: 0 <= t < attempt ==> Retried(reply(t))
      invariant attempt > 0 ==> lastError == reply(attempt - 1).message
    {
      if attempt > 0 {
        waits := waits + [Pow2(attempt) * 10000];
      }
      var r := reply(attempt);
      calls := calls + 1;
      match r {
        case Generated(content) =>
          SettlesAt(apiKey, duration, reply, parse, clock, random, attempt);
          if content == [] {
            return Thrown(NoContentMessage), calls, waits;
          }
          var summaries := ParseSummaries(content, parse);
          return Returned(SummaryClips(summaries, duration, clock, random)), calls, waits;
        case Failed(message) =>
          lastError := message;
          if !IsRateLimit(message) {
            SettlesAt(apiKey, duration, reply, parse, clock, random, attempt);
            return Thrown(message), calls, waits;
          }
      }
      attempt := attempt + 1;
    }
    RetriedRunFull(reply, 0);
    outcome := Thrown(ExhaustedMessage(lastError));
  }
}
