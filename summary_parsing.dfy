/** What the browser client (src/lib/summarizeContent.ts) and the edge function
    (supabase/functions/summarize-content/index.ts) do identically with the model: the number of
    summaries they ask for, and how they read the model's reply into a list of summaries. */
module SummaryParsing {
  import opened Text
  import opened Numbers

  /** `Math.min(50, Math.max(5, Math.ceil(length / 500)))`: one summary per started 500
      characters, at least 5 and at most 50. */
  function TargetChunkCount(length: nat): (n: nat)
    ensures 5 <= n <= 50
    ensures length <= 2500 ==> n == 5
    ensures length > 24500 ==> n == 50
    ensures 2000 < length <= 25000 ==> (n - 1) * 500 < length <= n * 500
  {
    var c := CeilDiv(length, 500);
    if c < 5 then 5 else if c > 50 then 50 else c
  }

  /** The count the text asks for, when it lies between 5 and 50, is the one requested. */
  lemma TargetChunkCountInRange(length: nat)
    requires 5 <= CeilDiv(length, 500) <= 50
    ensures TargetChunkCount(length) == CeilDiv(length, 500)
  {
  }

  // ---------------------------------------------------------------------------------------
  // Code fences

  /** `s` starts with "```". */
  predicate StartsWithFence(s: string) {
    |s| >= 3 && s[0] == '`' && s[1] == '`' && s[2] == '`'
  }

  /** `s` starts with "```json". */
  predicate StartsWithJsonFence(s: string) {
    StartsWithFence(s) && |s| >= 7 && s[3] == 'j' && s[4] == 's' && s[5] == 'o' && s[6] == 'n'
  }

  /** `s` starts with "\n```". */
  predicate StartsWithBreakFence(s: string) {
    |s| >= 4 && s[0] == '\n' && StartsWithFence(s[1..])
  }

  /** `replace(/```json\n?|\n?```/g, '')`: scanning from the left, an opening "```json" fence
      together with the line break that follows it, a "```" fence together with the line break
      that precedes it, and a bare "```" fence are each deleted. */
  function StripFences(s: string): (r: string)
    ensures |r| <= |s|
    decreases |s|
  {
    if StartsWithJsonFence(s) then
      var rest := s[7..];
      StripFences(if rest != [] && rest[0] == '\n' then rest[1..] else rest)
    else if StartsWithBreakFence(s) then StripFences(s[4..])
    else if StartsWithFence(s) then StripFences(s[3..])
    else if s == [] then []
    else [s[0]] + StripFences(s[1..])
  }

  /** A character that starts no fence is kept. */
  lemma StripFencesKeep(s: string)
    requires s != [] && s[0] != '`' && (|s| >= 2 ==> s[1] != '`')
    ensures StripFences(s) == [s[0]] + StripFences(s[1..])
  {
    assert !StartsWithBreakFence(s) by {
      if |s| >= 4 { assert s[1..][0] == s[1]; }
    }
  }

  /** The string handed to `JSON.parse`: the reply without fences, trimmed. */
  function CleanContent(content: string): (r: string)
    ensures IsTrimmed(r)
  {
    Trim(StripFences(content))
  }

  /** Text without a backtick holds no fence. */
  lemma {:induction false} StripFencesPlain(s: string)
    requires '`' !in s
    ensures StripFences(s) == s
  {
    if s != [] {
      assert s[0] in s;
      assert |s| >= 2 ==> s[1] in s;
      StripFencesKeep(s);
      assert '`' !in s[1..];
      StripFencesPlain(s[1..]);
      assert s == [s[0]] + s[1..];
    }
  }

  /** Text without a backtick is passed through whatever follows it, unless a backtick
      follows at once. */
  lemma {:induction false} StripFencesPrefix(body: string, t: string)
    requires '`' !in body
    requires t == [] || t[0] != '`'
    ensures StripFences(body + t) == body + StripFences(t)
  {
    if body == [] {
      assert body + t == t;
    } else {
      calc {
        StripFences(body + t);
        { StripFencesPrefixHead(body, t); }
        [body[0]] + StripFences(body[1..] + t);
        { assert '`' !in body[1..]; StripFencesPrefix(body[1..], t); }
        [body[0]] + (body[1..] + StripFences(t));
        { assert body == [body[0]] + body[1..]; }
        body + StripFences(t);
      }
    }
  }

  lemma StripFencesPrefixHead(body: string, t: string)
    requires body != [] && '`' !in body
    requires t == [] || t[0] != '`'
    ensures StripFences(body + t) == [body[0]] + StripFences(body[1..] + t)
  {
    var s := body + t;
    assert s[0] != '`' && (|s| >= 2 ==> s[1] != '`') by {
      assert s[0] == body[0] && body[0] in body;
      if |s| >= 2 {
        if |body| >= 2 { assert s[1] == body[1] && body[1] in body; }
        else { assert s[1] == t[0]; }
      }
    }
    StripFencesKeep(s);
    TailOfAppend(body, t);
  }

  lemma TailOfAppend(a: string, b: string)
    requires a != []
    ensures (a + b)[1..] == a[1..] + b
  {
  }

  /** A reply wrapped in a "```json" fence on its own line and a closing "```" on its own line
      reaches `JSON.parse` as the bare body, trimmed. */
  lemma FencedReply(body: string)
    requires '`' !in body
    ensures CleanContent("```json\n" + body + "\n```") == Trim(body)
  {
    var s := "```json\n" + body + "\n```";
    assert StartsWithJsonFence(s);
    assert s[7..] == "\n" + body + "\n```";
    assert s[8..] == body + "\n```";
    StripFencesPrefix(body, "\n```");
    var closing := "\n```";
    assert StartsWithBreakFence(closing) && closing[4..] == [];
    assert StripFences(closing) == [];
    assert body + [] == body;
  }

  // ---------------------------------------------------------------------------------------
  // Fallback

  /** The two characters the fallback strips from the ends of a line. */
  predicate IsQuoteOrDash(c: char) {
    c == '"' || c == '-'
  }

  /** `.replace(/^["-]|["-]$/g, '')`: a leading '"' or '-' is dropped, and a trailing one that
      is not that same leading character. */
  function StripQuoteDash(s: string): (r: string)
    ensures var i := if s != [] && IsQuoteOrDash(s[0]) then 1 else 0;
            var j := if |s| >= 2 && IsQuoteOrDash(s[|s| - 1]) then 1 else 0;
            i + j <= |s| && r == s[i..|s| - j]
  {
    var head := if s != [] && IsQuoteOrDash(s[0]) then s[1..] else s;
    if head != [] && IsQuoteOrDash(head[|head| - 1]) then head[..|head| - 1] else head
  }

  /** `.map(s => s.replace(/^["-]|["-]$/g, '').trim())` over the lines: one trimmed entry per
      line, each no longer than its line. */
  function CleanLines(lines: seq<string>): (r: seq<string>)
    ensures |r| == |lines|
    ensures forall i :: 0 <= i < |lines| ==> r[i] == Trim(StripQuoteDash(lines[i]))
    ensures forall i :: 0 <= i < |r| ==> IsTrimmed(r[i]) && |r[i]| <= |lines[i]|
  {
    seq(|lines|, i requires 0 <= i < |lines| => Trim(StripQuoteDash(lines[i])))
  }

  /** The fallback list: the raw reply (fences included) cut at '\n', each line cleaned, and
      the results longer than 10 characters kept. */
  function Fallback(content: string): (summaries: seq<string>)
    ensures forall i :: 0 <= i < |summaries| ==> IsTrimmed(summaries[i]) && |summaries[i]| > 10
  {
    KeepLongerTrimmed(CleanLines(Split(content, '\n')));
    KeepLonger(CleanLines(Split(content, '\n')))
  }

  lemma {:induction false} KeepLongerTrimmed(parts: seq<string>)
    requires forall i :: 0 <= i < |parts| ==> IsTrimmed(parts[i])
    ensures forall i :: 0 <= i < |KeepLonger(parts)| ==> IsTrimmed(KeepLonger(parts)[i])
  {
    if parts != [] {
      KeepLongerTrimmed(parts[1..]);
      var head := if |parts[0]| > 10 then [parts[0]] else [];
      var r := KeepLonger(parts);
      assert r == head + KeepLonger(parts[1..]);
      assert forall i :: |head| <= i < |r| ==> r[i] == KeepLonger(parts[1..])[i - |head|];
    }
  }

  lemma CleanLinesAppend(a: seq<string>, b: seq<string>)
    ensures CleanLines(a + b) == CleanLines(a) + CleanLines(b)
  {
  }

  /** Lines are handled one by one and in order: the fallback of two blocks of lines is the
      fallback of the first followed by that of the second. */
  lemma FallbackAppend(a: string, b: string)
    ensures Fallback(a + "\n" + b) == Fallback(a) + Fallback(b)
  {
    calc {
      Fallback(a + "\n" + b);
      KeepLonger(CleanLines(Split(a + "\n" + b, '\n')));
      { SplitAppend(a, b, '\n'); }
      KeepLonger(CleanLines(Split(a, '\n') + Split(b, '\n')));
      { CleanLinesAppend(Split(a, '\n'), Split(b, '\n')); }
      KeepLonger(CleanLines(Split(a, '\n')) + CleanLines(Split(b, '\n')));
      { KeepLongerAppend(CleanLines(Split(a, '\n')), CleanLines(Split(b, '\n'))); }
      Fallback(a) + Fallback(b);
    }
  }

  /** One line gives its cleaned text when that is longer than 10 characters, and nothing
      otherwise. */
  lemma FallbackLine(line: string)
    requires '\n' !in line
    ensures Fallback(line) == if |Trim(StripQuoteDash(line))| > 10 then [Trim(StripQuoteDash(line))] else []
  {
    SplitNoSeparator(line, '\n');
    var cleaned := CleanLines([line]);
    assert cleaned == [Trim(StripQuoteDash(line))];
    assert KeepLonger(cleaned[1..]) == [];
  }

  /** A bulleted line such as `- "..."` loses the dash and, when it ends in a quote, that quote;
      an inner quote stays. */
  lemma QuoteDashExample()
    ensures StripQuoteDash("- \"abc\"") == " \"abc"
    ensures StripQuoteDash("\"") == ""
    ensures StripQuoteDash("\"\"") == ""
  {
  }

  /** The summaries read from a reply: `JSON.parse` of the cleaned reply when it yields an array
      of strings (`parse` returns it), the fallback list when it throws or yields anything else
      (`parse` returns `None`). */
  function ParseSummaries(content: string, parse: string -> Option<seq<string>>): (summaries: seq<string>)
    ensures parse(CleanContent(content)).Some? ==> summaries == parse(CleanContent(content)).value
    ensures parse(CleanContent(content)).None? ==> summaries == Fallback(content)
    ensures parse(CleanContent(content)).None? ==>
      forall i :: 0 <= i < |summaries| ==> IsTrimmed(summaries[i]) && |summaries[i]| > 10
  {
    match parse(CleanContent(content))
    case Some(parsed) => parsed
    case None => Fallback(content)
  }

  datatype Option<T> = None | Some(value: T)
}
