/** Local clip generation (src/lib/parseContent.ts): whitespace normalisation, sentence
    splitting, greedy word-budget chunking and the mapping of chunks to clips. */
module ParseContent {
  import opened Text
  import opened Clips

  /** The four background assets `bg-1.mp4` ... `bg-4.mp4`, as opaque URLs. */
  const BackgroundVideos: seq<string> := ["bg-1.mp4", "bg-2.mp4", "bg-3.mp4", "bg-4.mp4"]

  // ---------------------------------------------------------------------------------------
  // Whitespace normalisation

  /** The suffix of `s` after its leading run of newlines. */
  function SkipNewlines(s: string): (r: string)
    ensures |r| <= |s|
    ensures s != [] && s[0] == '\n' ==> |r| < |s|
    ensures r == [] || r[0] != '\n'
  {
    if s != [] && s[0] == '\n' then SkipNewlines(s[1..]) else s
  }

  /** `.replace(/\n+/g, ' ')`: every maximal run of newlines becomes one space. */
  function ReplaceNewlineRuns(s: string): string
    decreases |s|
  {
    if s == [] then []
    else if s[0] == '\n' then [' '] + ReplaceNewlineRuns(SkipNewlines(s))
    else [s[0]] + ReplaceNewlineRuns(s[1..])
  }

  /** `.replace(/\s+/g, ' ')`: every maximal run of whitespace becomes one space. */
  function CollapseSpaceRuns(s: string): string
    decreases |s|
  {
    if s == [] then []
    else if IsSpace(s[0]) then [' '] + CollapseSpaceRuns(TrimStart(s))
    else [s[0]] + CollapseSpaceRuns(s[1..])
  }

  /** The cleaned text of `parseTextToClips`: newline runs and whitespace runs replaced by a
      space, then trimmed. */
  function CleanText(text: string): string {
    Trim(CollapseSpaceRuns(ReplaceNewlineRuns(text)))
  }

  /** Only ' ' is left as whitespace and no two whitespace characters are adjacent. */
  ghost predicate SingleSpaced(s: string) {
    && (forall i :: 0 <= i < |s| && IsSpace(s[i]) ==> s[i] == ' ')
    && (forall i :: 0 <= i < |s| - 1 ==> !(IsSpace(s[i]) && IsSpace(s[i + 1])))
  }

  lemma {:induction false} WithoutSpaceAllSpace(s: string)
    requires AllSpace(s)
    ensures WithoutSpace(s) == []
  {
    if s != [] {
      WithoutSpaceAllSpace(s[1..]);
    }
  }

  lemma {:induction false} WithoutSpaceTrimStart(s: string)
    ensures WithoutSpace(TrimStart(s)) == WithoutSpace(s)
  {
    if s != [] && IsSpace(s[0]) {
      WithoutSpaceTrimStart(s[1..]);
    }
  }

  lemma {:induction false} WithoutSpaceSkipNewlines(s: string)
    ensures WithoutSpace(SkipNewlines(s)) == WithoutSpace(s)
  {
    if s != [] && s[0] == '\n' {
      WithoutSpaceSkipNewlines(s[1..]);
    }
  }

  /** Trimming removes only whitespace. */
  lemma WithoutSpaceTrim(s: string)
    ensures WithoutSpace(Trim(s)) == WithoutSpace(s)
  {
    var pre, post := TrimInfix(s);
    calc {
      WithoutSpace(s);
      WithoutSpace(pre + Trim(s) + post);
      { WithoutSpaceAppend(pre + Trim(s), post); WithoutSpaceAppend(pre, Trim(s)); }
      WithoutSpace(pre) + WithoutSpace(Trim(s)) + WithoutSpace(post);
      { WithoutSpaceAllSpace(pre); WithoutSpaceAllSpace(post); }
      WithoutSpace(Trim(s));
    }
  }

  /** Replacing newline runs leaves no newline and keeps every visible character. */
  lemma {:induction false} ReplaceNewlineRunsFacts(s: string)
    ensures '\n' !in ReplaceNewlineRuns(s)
    ensures WithoutSpace(ReplaceNewlineRuns(s)) == WithoutSpace(s)
    decreases |s|
  {
    if s != [] {
      var r := ReplaceNewlineRuns(s);
      if s[0] == '\n' {
        var t := SkipNewlines(s);
        ReplaceNewlineRunsFacts(t);
        WithoutSpaceSkipNewlines(s);
        assert r == [' '] + ReplaceNewlineRuns(t);
        WithoutSpaceAppend([' '], ReplaceNewlineRuns(t));
        WithoutSpaceAppend([s[0]], s[1..]);
        assert s == [s[0]] + s[1..];
        assert WithoutSpace(s[1..]) == WithoutSpace(t) by {
          WithoutSpaceSkipNewlines(s[1..]);
          assert SkipNewlines(s[1..]) == t;
        }
      } else {
        ReplaceNewlineRunsFacts(s[1..]);
        assert r == [s[0]] + ReplaceNewlineRuns(s[1..]);
        WithoutSpaceAppend([s[0]], ReplaceNewlineRuns(s[1..]));
        WithoutSpaceAppend([s[0]], s[1..]);
        assert s == [s[0]] + s[1..];
      }
    }
  }

  /** One character in front of a single-spaced text. */
  lemma SingleSpacedCons(c: char, r: string)
    requires SingleSpaced(r)
    requires IsSpace(c) ==> c == ' ' && (r == [] || !IsSpace(r[0]))
    ensures SingleSpaced([c] + r)
  {
    var x := [c] + r;
    assert forall i :: 1 <= i < |x| ==> x[i] == r[i - 1];
  }

  lemma WithoutSpaceCons(c: char, r: string)
    ensures WithoutSpace([c] + r) == (if IsSpace(c) then [] else [c]) + WithoutSpace(r)
  {
    assert ([c] + r)[1..] == r;
  }

  /** Collapsing whitespace runs single-spaces the text, keeps every visible character and
      starts with whitespace exactly when the input does. */
  lemma {:induction false} CollapseSpaceRunsFacts(s: string)
    ensures SingleSpaced(CollapseSpaceRuns(s))
    ensures WithoutSpace(CollapseSpaceRuns(s)) == WithoutSpace(s)
    ensures '\n' !in CollapseSpaceRuns(s)
    ensures s != [] ==> CollapseSpaceRuns(s) != [] && (IsSpace(CollapseSpaceRuns(s)[0]) <==> IsSpace(s[0]))
    decreases |s|, 1
  {
    if s != [] {
      if IsSpace(s[0]) {
        CollapseAtSpace(s);
      } else {
        CollapseAtOther(s);
      }
    }
  }

  lemma {:induction false} CollapseAtSpace(s: string)
    requires s != [] && IsSpace(s[0])
    ensures SingleSpaced(CollapseSpaceRuns(s))
    ensures WithoutSpace(CollapseSpaceRuns(s)) == WithoutSpace(s)
    ensures '\n' !in CollapseSpaceRuns(s)
    ensures CollapseSpaceRuns(s) != [] && CollapseSpaceRuns(s)[0] == ' '
    decreases |s|, 0
  {
    var t := TrimStart(s);
    CollapseSpaceRunsFacts(t);
    var rt := CollapseSpaceRuns(t);
    assert CollapseSpaceRuns(s) == [' '] + rt;
    SingleSpacedCons(' ', rt);
    calc {
      WithoutSpace([' '] + rt);
      { WithoutSpaceCons(' ', rt); }
      WithoutSpace(rt);
      { WithoutSpaceTrimStart(s); }
      WithoutSpace(s);
    }
  }

  lemma {:induction false} CollapseAtOther(s: string)
    requires s != [] && !IsSpace(s[0])
    ensures SingleSpaced(CollapseSpaceRuns(s))
    ensures WithoutSpace(CollapseSpaceRuns(s)) == WithoutSpace(s)
    ensures '\n' !in CollapseSpaceRuns(s)
    ensures CollapseSpaceRuns(s) != [] && CollapseSpaceRuns(s)[0] == s[0]
    decreases |s|, 0
  {
    CollapseSpaceRunsFacts(s[1..]);
    var rt := CollapseSpaceRuns(s[1..]);
    assert CollapseSpaceRuns(s) == [s[0]] + rt;
    SingleSpacedCons(s[0], rt);
    calc {
      WithoutSpace([s[0]] + rt);
      { WithoutSpaceCons(s[0], rt); }
      [s[0]] + WithoutSpace(s[1..]);
      { WithoutSpaceCons(s[0], s[1..]); assert [s[0]] + s[1..] == s; }
      WithoutSpace(s);
    }
  }

  lemma SingleSpacedInfix(pre: string, r: string, post: string)
    requires SingleSpaced(pre + r + post)
    ensures SingleSpaced(r)
  {
    var x := pre + r + post;
    assert forall i :: 0 <= i < |r| ==> r[i] == x[|pre| + i];
  }

  /** The cleaned text has no newline, no two adjacent whitespace characters and no whitespace
      at either end, and it shows the same visible characters, in the same order, as the input. */
  lemma CleanTextIsNormalized(text: string)
    ensures '\n' !in CleanText(text)
    ensures forall i :: 0 <= i < |CleanText(text)| - 1 ==> !(IsSpace(CleanText(text)[i]) && IsSpace(CleanText(text)[i + 1]))
    ensures IsTrimmed(CleanText(text))
    ensures WithoutSpace(CleanText(text)) == WithoutSpace(text)
  {
    var m := ReplaceNewlineRuns(text);
    var c := CollapseSpaceRuns(m);
    ReplaceNewlineRunsFacts(text);
    CollapseSpaceRunsFacts(m);
    WithoutSpaceTrim(c);
    TrimKeepsAbsent(c, '\n');
    var pre, post := TrimInfix(c);
    SingleSpacedInfix(pre, Trim(c), post);
  }

  /** No character of `s` is whitespace. */
  predicate Visible(s: string) {
    forall i :: 0 <= i < |s| ==> !IsSpace(s[i])
  }

  /** `trimStart` of a text that ends in a visible character works on that text alone. */
  lemma {:induction false} TrimStartBeforeVisible(a: string, x: string)
    requires a != [] && !IsSpace(a[|a| - 1])
    ensures TrimStart(a + x) == TrimStart(a) + x
  {
    if IsSpace(a[0]) {
      assert |a| >= 2;
      assert (a + x)[1..] == a[1..] + x;
      TrimStartBeforeVisible(a[1..], x);
    }
  }

  lemma TrimStartKeepsLast(a: string)
    requires a != []
    ensures TrimStart(a) == [] || TrimStart(a)[|TrimStart(a)| - 1] == a[|a| - 1]
  {
    var pre := TrimStartSplit(a);
  }

  /** Collapsing works piecewise after a visible character: a run cannot reach across it. */
  lemma {:induction false} CollapseAfterVisible(a: string, x: string)
    requires a == [] || !IsSpace(a[|a| - 1])
    ensures CollapseSpaceRuns(a + x) == CollapseSpaceRuns(a) + CollapseSpaceRuns(x)
    decreases |a|
  {
    if a == [] {
      assert a + x == x;
    } else if IsSpace(a[0]) {
      var t := TrimStart(a);
      TrimStartKeepsLast(a);
      TrimStartBeforeVisible(a, x);
      assert (a + x)[0] == a[0];
      CollapseAfterVisible(t, x);
    } else {
      assert (a + x)[0] == a[0];
      assert (a + x)[1..] == a[1..] + x;
      assert a[1..] == [] || a[1..][|a[1..]| - 1] == a[|a| - 1];
      CollapseAfterVisible(a[1..], x);
    }
  }

  /** A whitespace run between a visible character (or the start) and a visible character (or
      the end) becomes exactly one space. */
  lemma CollapseSpaceRun(a: string, w: string, b: string)
    requires a == [] || !IsSpace(a[|a| - 1])
    requires w != [] && AllSpace(w)
    requires b == [] || !IsSpace(b[0])
    ensures CollapseSpaceRuns(a + w + b) == CollapseSpaceRuns(a) + " " + CollapseSpaceRuns(b)
  {
    var wb := w + b;
    var ca, cb := CollapseSpaceRuns(a), CollapseSpaceRuns(b);
    assert CollapseSpaceRuns(a + w + b) == ca + CollapseSpaceRuns(wb) by {
      assert a + w + b == a + wb;
      CollapseAfterVisible(a, wb);
    }
    assert CollapseSpaceRuns(wb) == [' '] + cb by {
      CollapseAtRun(w, b);
    }
    SpaceBetween(ca, cb);
  }

  lemma SpaceBetween(p: string, q: string)
    ensures p + ([' '] + q) == p + " " + q
  {
  }

  lemma CollapseAtRun(w: string, b: string)
    requires w != [] && AllSpace(w)
    requires b == [] || !IsSpace(b[0])
    ensures CollapseSpaceRuns(w + b) == [' '] + CollapseSpaceRuns(b)
  {
    assert (w + b)[0] == w[0];
    TrimStartSpaces(w, b);
  }

  /** A visible text is left as it is by collapsing. */
  lemma {:induction false} CollapseVisible(x: string, s: string)
    requires Visible(x)
    ensures CollapseSpaceRuns(x + s) == x + CollapseSpaceRuns(s)
  {
    if x != [] {
      assert (x + s)[0] == x[0];
      assert (x + s)[1..] == x[1..] + s;
      CollapseVisible(x[1..], s);
    } else {
      assert x + s == s;
    }
  }

  /** Skipping newlines stops before a text that does not start with one. */
  lemma {:induction false} SkipNewlinesAppend(a: string, b: string)
    requires b == [] || b[0] != '\n'
    ensures SkipNewlines(a + b) == SkipNewlines(a) + b
  {
    if a == [] {
      assert a + b == b;
    } else {
      assert (a + b)[0] == a[0];
      if a[0] == '\n' {
        assert (a + b)[1..] == a[1..] + b;
        SkipNewlinesAppend(a[1..], b);
      }
    }
  }

  /** Replacing newline runs works piecewise before a text that does not start with a newline. */
  lemma {:induction false} ReplaceNewlineRunsAppend(a: string, b: string)
    requires b == [] || b[0] != '\n'
    ensures ReplaceNewlineRuns(a + b) == ReplaceNewlineRuns(a) + ReplaceNewlineRuns(b)
    decreases |a|
  {
    if a == [] {
      assert a + b == b;
    } else {
      assert (a + b)[0] == a[0];
      if a[0] == '\n' {
        SkipNewlinesAppend(a, b);
        ReplaceNewlineRunsAppend(SkipNewlines(a), b);
      } else {
        assert (a + b)[1..] == a[1..] + b;
        ReplaceNewlineRunsAppend(a[1..], b);
      }
    }
  }

  /** A text without newlines is left as it is by the newline replacement. */
  lemma {:induction false} ReplaceVisible(x: string, s: string)
    requires Visible(x)
    ensures ReplaceNewlineRuns(x + s) == x + ReplaceNewlineRuns(s)
  {
    if x != [] {
      assert (x + s)[0] == x[0];
      assert (x + s)[1..] == x[1..] + s;
      ReplaceVisible(x[1..], s);
    } else {
      assert x + s == s;
    }
  }

  lemma {:induction false} SkipNewlinesAllSpace(w: string)
    requires AllSpace(w)
    ensures AllSpace(SkipNewlines(w))
  {
    if w != [] && w[0] == '\n' {
      SkipNewlinesAllSpace(w[1..]);
    }
  }

  /** The newline replacement turns a whitespace run into a whitespace run. */
  lemma {:induction false} ReplaceAllSpace(w: string)
    requires AllSpace(w)
    ensures AllSpace(ReplaceNewlineRuns(w))
    ensures w != [] ==> ReplaceNewlineRuns(w) != [] && IsSpace(ReplaceNewlineRuns(w)[0])
    decreases |w|
  {
    if w != [] {
      if w[0] == '\n' {
        SkipNewlinesAllSpace(w);
        ReplaceAllSpace(SkipNewlines(w));
        assert ReplaceNewlineRuns(w) == [' '] + ReplaceNewlineRuns(SkipNewlines(w));
        assert ([' '] + ReplaceNewlineRuns(SkipNewlines(w)))[1..] == ReplaceNewlineRuns(SkipNewlines(w));
      } else {
        ReplaceAllSpace(w[1..]);
        assert ReplaceNewlineRuns(w) == [w[0]] + ReplaceNewlineRuns(w[1..]);
        assert ([w[0]] + ReplaceNewlineRuns(w[1..]))[1..] == ReplaceNewlineRuns(w[1..]);
      }
    }
  }

  /** Two words separated by any run of whitespace, newlines included, are cleaned to the two
      words separated by one space. */
  lemma CleanTextSeparates(x: string, w: string, y: string)
    requires x != [] && y != [] && Visible(x) && Visible(y)
    requires w != [] && AllSpace(w)
    ensures CleanText(x + w + y) == x + " " + y
  {
    var r := ReplaceNewlineRuns(w);
    var c := x + " " + y;
    assert ReplaceNewlineRuns(x + w + y) == x + r + y by {
      ReplaceNewlineRunsAppend(x + w, y);
      ReplaceVisible(x, w);
      ReplaceVisible(y, []);
      assert y + [] == y;
    }
    assert CollapseSpaceRuns(x + r + y) == c by {
      ReplaceAllSpace(w);
      CollapseSpaceRun(x, r, y);
      CollapseVisible(x, []);
      CollapseVisible(y, []);
      assert x + [] == x && y + [] == y;
    }
    assert Trim(c) == c by {
      assert c[0] == x[0] && c[|c| - 1] == y[|y| - 1];
      TrimTrimmed(c);
    }
  }

  // ---------------------------------------------------------------------------------------
  // Sentence splitting

  /** The sentence-terminal punctuation of the pattern `[.!?]`. */
  predicate IsMark(c: char) {
    c == '.' || c == '!' || c == '?'
  }

  /** `.replace(/([.!?])\s+/g, '$1|')`: a mark followed by a whitespace run keeps the mark and
      has the run replaced by '|'. */
  function MarkBreaks(s: string): string
    decreases |s|
  {
    if s == [] then []
    else if |s| >= 2 && IsMark(s[0]) && IsSpace(s[1]) then [s[0], '|'] + MarkBreaks(TrimStart(s[1..]))
    else [s[0]] + MarkBreaks(s[1..])
  }

  /** Trimmed pieces without a break character. */
  ghost predicate TrimmedPieces(parts: seq<string>) {
    forall i :: 0 <= i < |parts| ==> IsTrimmed(parts[i]) && '|' !in parts[i]
  }

  lemma {:induction false} KeepLongerKeepsTrimmedPieces(parts: seq<string>)
    requires TrimmedPieces(parts)
    ensures TrimmedPieces(KeepLonger(parts))
  {
    if parts != [] {
      KeepLongerKeepsTrimmedPieces(parts[1..]);
      var head := if |parts[0]| > 10 then [parts[0]] else [];
      var r := KeepLonger(parts);
      assert r == head + KeepLonger(parts[1..]);
      assert forall i :: |head| <= i < |r| ==> r[i] == KeepLonger(parts[1..])[i - |head|];
    }
  }

  /** The trimmed pieces longer than 10 characters of a text in which breaks are marked. */
  function SentencesOfMarked(marked: string): (sentences: seq<string>)
    ensures forall i :: 0 <= i < |sentences| ==>
      IsTrimmed(sentences[i]) && |sentences[i]| > 10 && '|' !in sentences[i]
  {
    var pieces := Split(marked, '|');
    var trimmed := TrimAll(pieces);
    assert TrimmedPieces(trimmed) by {
      forall i | 0 <= i < |trimmed| ensures '|' !in trimmed[i] {
        TrimKeepsAbsent(pieces[i], '|');
      }
    }
    KeepLongerKeepsTrimmedPieces(trimmed);
    KeepLonger(trimmed)
  }

  /** `splitIntoSentences`. Every sentence is trimmed, longer than 10 characters and has no '|'. */
  function SplitIntoSentences(text: string): (sentences: seq<string>)
    ensures forall i :: 0 <= i < |sentences| ==>
      IsTrimmed(sentences[i]) && |sentences[i]| > 10 && '|' !in sentences[i]
  {
    SentencesOfMarked(MarkBreaks(text))
  }

  lemma {:induction false} TrimStartAppend(a: string, x: string)
    requires x == [] || !IsSpace(x[0])
    ensures TrimStart(a + x) == TrimStart(a) + x
  {
    if a == [] {
      assert a + x == x;
    } else {
      assert (a + x)[0] == a[0];
      assert (a + x)[1..] == a[1..] + x;
      if IsSpace(a[0]) {
        TrimStartAppend(a[1..], x);
      }
    }
  }

  /** `MarkBreaks` on a text that starts with a mark followed by whitespace. */
  lemma MarkBreaksAtBreak(s: string)
    requires |s| >= 2 && IsMark(s[0]) && IsSpace(s[1])
    ensures MarkBreaks(s) == [s[0], '|'] + MarkBreaks(TrimStart(s[1..]))
  {
  }

  /** `MarkBreaks` on a non-empty text that does not start with a mark followed by whitespace. */
  lemma MarkBreaksAtOther(s: string)
    requires s != [] && !(|s| >= 2 && IsMark(s[0]) && IsSpace(s[1]))
    ensures MarkBreaks(s) == [s[0]] + MarkBreaks(s[1..])
  {
  }

  /** The replace works locally: text that does not begin with whitespace can be processed
      apart from what precedes it. */
  lemma {:induction false} MarkBreaksAppend(a: string, x: string)
    requires x == [] || !IsSpace(x[0])
    ensures MarkBreaks(a + x) == MarkBreaks(a) + MarkBreaks(x)
    decreases |a|
  {
    if a == [] {
      assert a + x == x;
    } else if |a| >= 2 && IsMark(a[0]) && IsSpace(a[1]) {
      MarkBreaksAppendAtBreak(a, x);
    } else {
      MarkBreaksAppendAtOther(a, x);
    }
  }

  lemma {:induction false} MarkBreaksAppendAtBreak(a: string, x: string)
    requires x == [] || !IsSpace(x[0])
    requires |a| >= 2 && IsMark(a[0]) && IsSpace(a[1])
    ensures MarkBreaks(a + x) == MarkBreaks(a) + MarkBreaks(x)
    decreases |a|, 0
  {
    var t := TrimStart(a[1..]);
    calc {
      MarkBreaks(a + x);
      { MarkBreaksBreakAppend(a, x); }
      [a[0], '|'] + MarkBreaks(t + x);
      { MarkBreaksAppend(t, x); }
      [a[0], '|'] + (MarkBreaks(t) + MarkBreaks(x));
      ([a[0], '|'] + MarkBreaks(t)) + MarkBreaks(x);
      { MarkBreaksAtBreak(a); }
      MarkBreaks(a) + MarkBreaks(x);
    }
  }

  lemma MarkBreaksBreakAppend(a: string, x: string)
    requires x == [] || !IsSpace(x[0])
    requires |a| >= 2 && IsMark(a[0]) && IsSpace(a[1])
    ensures MarkBreaks(a + x) == [a[0], '|'] + MarkBreaks(TrimStart(a[1..]) + x)
  {
    MarkBreaksBreakHead(a, x);
    TrimStartAppend(a[1..], x);
  }

  lemma MarkBreaksBreakHead(a: string, x: string)
    requires |a| >= 2 && IsMark(a[0]) && IsSpace(a[1])
    ensures MarkBreaks(a + x) == [a[0], '|'] + MarkBreaks(TrimStart(a[1..] + x))
  {
    var s := a + x;
    assert s[0] == a[0] && s[1] == a[1] && s[1..] == a[1..] + x;
    MarkBreaksAtBreak(s);
  }

  lemma {:induction false} MarkBreaksAppendAtOther(a: string, x: string)
    requires x == [] || !IsSpace(x[0])
    requires a != [] && !(|a| >= 2 && IsMark(a[0]) && IsSpace(a[1]))
    ensures MarkBreaks(a + x) == MarkBreaks(a) + MarkBreaks(x)
    decreases |a|, 0
  {
    calc {
      MarkBreaks(a + x);
      { MarkBreaksOtherHead(a, x); }
      [a[0]] + MarkBreaks(a[1..] + x);
      { MarkBreaksAppend(a[1..], x); }
      [a[0]] + (MarkBreaks(a[1..]) + MarkBreaks(x));
      { ConsAssoc(a[0], MarkBreaks(a[1..]), MarkBreaks(x)); }
      ([a[0]] + MarkBreaks(a[1..])) + MarkBreaks(x);
      { MarkBreaksAtOther(a); }
      MarkBreaks(a) + MarkBreaks(x);
    }
  }

  lemma MarkBreaksOtherHead(a: string, x: string)
    requires x == [] || !IsSpace(x[0])
    requires a != [] && !(|a| >= 2 && IsMark(a[0]) && IsSpace(a[1]))
    ensures MarkBreaks(a + x) == [a[0]] + MarkBreaks(a[1..] + x)
  {
    var s := a + x;
    assert s[0] == a[0];
    assert s[1..] == a[1..] + x;
    assert !(|s| >= 2 && IsMark(s[0]) && IsSpace(s[1])) by {
      if |a| == 1 {
        assert |s| >= 2 ==> s[1] == x[0];
      } else {
        assert s[1] == a[1];
      }
    }
    MarkBreaksAtOther(s);
  }

  lemma ConsAssoc(c: char, p: string, q: string)
    ensures [c] + (p + q) == ([c] + p) + q
  {
  }

  /** A break in the marked text separates the sentences of its two sides. */
  lemma SentencesOfMarkedAppend(pa: string, pb: string)
    ensures SentencesOfMarked(pa + "|" + pb) == SentencesOfMarked(pa) + SentencesOfMarked(pb)
  {
    calc {
      SentencesOfMarked(pa + "|" + pb);
      KeepLonger(TrimAll(Split(pa + "|" + pb, '|')));
      { SplitAppend(pa, pb, '|'); }
      KeepLonger(TrimAll(Split(pa, '|') + Split(pb, '|')));
      { TrimAllAppend(Split(pa, '|'), Split(pb, '|')); }
      KeepLonger(TrimAll(Split(pa, '|')) + TrimAll(Split(pb, '|')));
      { KeepLongerAppend(TrimAll(Split(pa, '|')), TrimAll(Split(pb, '|'))); }
      SentencesOfMarked(pa) + SentencesOfMarked(pb);
    }
  }

  lemma MarkBreaksAtPipe(a: string, b: string)
    ensures MarkBreaks(a + "|" + b) == MarkBreaks(a) + "|" + MarkBreaks(b)
  {
    var x := "|" + b;
    calc {
      MarkBreaks(a + "|" + b);
      { assert a + "|" + b == a + x; }
      MarkBreaks(a + x);
      { MarkBreaksAppend(a, x); }
      MarkBreaks(a) + MarkBreaks(x);
      { assert x[1..] == b; MarkBreaksAtOther(x); }
      MarkBreaks(a) + "|" + MarkBreaks(b);
    }
  }

  /** A literal '|' in the text always separates sentences. */
  lemma SentencesSplitAtPipe(a: string, b: string)
    ensures SplitIntoSentences(a + "|" + b) == SplitIntoSentences(a) + SplitIntoSentences(b)
  {
    calc {
      SplitIntoSentences(a + "|" + b);
      SentencesOfMarked(MarkBreaks(a + "|" + b));
      { MarkBreaksAtPipe(a, b); }
      SentencesOfMarked(MarkBreaks(a) + "|" + MarkBreaks(b));
      { SentencesOfMarkedAppend(MarkBreaks(a), MarkBreaks(b)); }
      SplitIntoSentences(a) + SplitIntoSentences(b);
    }
  }

  lemma MarkBreaksAtMarkSpace(a: string, m: char, w: string, b: string)
    requires IsMark(m)
    requires w != [] && AllSpace(w)
    requires b == [] || !IsSpace(b[0])
    ensures MarkBreaks(a + [m] + w + b) == MarkBreaks(a + [m]) + "|" + MarkBreaks(b)
  {
    MarkBreaksBeforeBreak(a, m, w, b);
    MarkBreaksAppendMark(a, m);
    BreakAfter(MarkBreaks(a), m, MarkBreaks(b));
  }

  lemma MarkBreaksBeforeBreak(a: string, m: char, w: string, b: string)
    requires IsMark(m)
    requires w != [] && AllSpace(w)
    requires b == [] || !IsSpace(b[0])
    ensures MarkBreaks(a + [m] + w + b) == MarkBreaks(a) + ([m, '|'] + MarkBreaks(b))
  {
    var x := [m] + w + b;
    assert a + [m] + w + b == a + x;
    MarkBreaksAppend(a, x);
    MarkBreaksAfterMark(m, w, b);
  }

  lemma MarkBreaksAppendMark(a: string, m: char)
    requires IsMark(m)
    ensures MarkBreaks(a + [m]) == MarkBreaks(a) + [m]
  {
    MarkBreaksAppend(a, [m]);
    MarkBreaksAtOther([m]);
  }

  lemma BreakAfter(p: string, m: char, q: string)
    ensures p + ([m, '|'] + q) == (p + [m]) + "|" + q
  {
  }

  /** A '.', '!' or '?' followed by a whitespace run ends a sentence; the mark stays with the
      sentence before it and the run is dropped. */
  lemma SentencesSplitAfterMark(a: string, m: char, w: string, b: string)
    requires IsMark(m)
    requires w != [] && AllSpace(w)
    requires b == [] || !IsSpace(b[0])
    ensures SplitIntoSentences(a + [m] + w + b) == SplitIntoSentences(a + [m]) + SplitIntoSentences(b)
  {
    calc {
      SplitIntoSentences(a + [m] + w + b);
      SentencesOfMarked(MarkBreaks(a + [m] + w + b));
      { MarkBreaksAtMarkSpace(a, m, w, b); }
      SentencesOfMarked(MarkBreaks(a + [m]) + "|" + MarkBreaks(b));
      { SentencesOfMarkedAppend(MarkBreaks(a + [m]), MarkBreaks(b)); }
      SplitIntoSentences(a + [m]) + SplitIntoSentences(b);
    }
  }

  lemma MarkBreaksAfterMark(m: char, w: string, b: string)
    requires IsMark(m)
    requires w != [] && AllSpace(w)
    requires b == [] || !IsSpace(b[0])
    ensures MarkBreaks([m] + w + b) == [m, '|'] + MarkBreaks(b)
  {
    MarkThenSpaceBreaks(m, w, b);
    MarkThenSpaceTrim(m, w, b);
  }

  lemma MarkThenSpaceBreaks(m: char, w: string, b: string)
    requires IsMark(m) && w != [] && AllSpace(w)
    ensures MarkBreaks([m] + w + b) == [m, '|'] + MarkBreaks(TrimStart(([m] + w + b)[1..]))
  {
    var x := [m] + w + b;
    assert x[0] == m && x[1] == w[0];
    MarkBreaksAtBreak(x);
  }

  lemma MarkThenSpaceTrim(m: char, w: string, b: string)
    requires AllSpace(w)
    requires b == [] || !IsSpace(b[0])
    ensures TrimStart(([m] + w + b)[1..]) == b
  {
    assert ([m] + w + b)[1..] == w + b;
    TrimStartSpaces(w, b);
  }

  /** A text with no '|' and no mark followed by whitespace is not split: it is one sentence
      (its trim) when long enough, and none otherwise. */
  lemma {:induction false} NoBreakNoSplit(text: string)
    requires '|' !in text
    requires forall k :: 0 <= k < |text| - 1 ==> !(IsMark(text[k]) && IsSpace(text[k + 1]))
    ensures SplitIntoSentences(text) == if |Trim(text)| > 10 then [Trim(text)] else []
  {
    MarkBreaksIdentity(text);
    SplitNoSeparator(text, '|');
  }

  lemma {:induction false} MarkBreaksIdentity(text: string)
    requires forall k :: 0 <= k < |text| - 1 ==> !(IsMark(text[k]) && IsSpace(text[k + 1]))
    ensures MarkBreaks(text) == text
    decreases |text|
  {
    if text != [] {
      MarkBreaksIdentity(text[1..]);
      assert text == [text[0]] + text[1..];
    }
  }

  // ---------------------------------------------------------------------------------------
  // Chunking

  /** The word budget per chunk: 20 for 15 s, 40 for 30 s, 80 otherwise, that is four words for
      every three seconds of a selectable duration. */
  function WordsPerChunk(duration: int): (budget: nat)
    ensures duration == 15 || duration == 30 || duration == 60 ==> budget * 3 == duration * 4
    ensures duration != 15 && duration != 30 ==> budget == 80
  {
    if duration == 15 then 20 else if duration == 30 then 40 else 80
  }

  /** `s.split(' ').length`: one more than the number of ' ' characters. */
  function WordCount(s: string): nat {
    |Split(s, ' ')|
  }

  lemma WordCountAppend(a: string, b: string)
    ensures WordCount(a + " " + b) == WordCount(a) + WordCount(b)
  {
    SplitAppend(a, b, ' ');
  }

  /** The loop's state: the emitted chunks and `currentChunk`. */
  datatype ChunkState = ChunkState(chunks: seq<string>, current: string)

  /** One iteration of the `for` loop of `chunkContent`. */
  function ChunkStep(st: ChunkState, sentence: string, budget: nat): ChunkState {
    if WordCount(st.current + " " + sentence) <= budget then
      ChunkState(st.chunks, if st.current != "" then st.current + " " + sentence else sentence)
    else
      ChunkState(if st.current != "" then st.chunks + [st.current] else st.chunks, sentence)
  }

  /** The loop's state after the given sentences. */
  function ChunkPrefix(sentences: seq<string>, budget: nat): ChunkState
    decreases |sentences|
  {
    if sentences == [] then ChunkState([], "")
    else ChunkStep(ChunkPrefix(sentences[..|sentences| - 1], budget), sentences[|sentences| - 1], budget)
  }

  /** The final `if (currentChunk) chunks.push(currentChunk)`. */
  function Flushed(st: ChunkState): seq<string> {
    if st.current != "" then st.chunks + [st.current] else st.chunks
  }

  /** The value `chunkContent` returns. */
  function Chunks(sentences: seq<string>, duration: int): seq<string> {
    Flushed(ChunkPrefix(sentences, WordsPerChunk(duration)))
  }

  /** What holds of the loop state after every prefix of the sentences. */
  ghost predicate ChunkInvariant(st: ChunkState, sentences: seq<string>, budget: nat) {
    && (forall i :: 0 <= i < |st.chunks| ==> st.chunks[i] != "")
    && |st.chunks| + (if st.current != "" then 1 else 0) <= |sentences|
    && (forall i :: 0 <= i < |st.chunks| ==> WordCount(st.chunks[i]) <= budget || st.chunks[i] in sentences)
    && (st.current == "" || WordCount(st.current) <= budget || st.current in sentences)
    && (forall i :: 0 <= i < |st.chunks| - 1 ==> WordCount(st.chunks[i] + " " + st.chunks[i + 1]) > budget)
    && (st.chunks != [] ==> WordCount(st.chunks[|st.chunks| - 1] + " " + st.current) > budget)
  }

  lemma {:induction false} ChunkPrefixInvariant(sentences: seq<string>, budget: nat)
    ensures ChunkInvariant(ChunkPrefix(sentences, budget), sentences, budget)
    decreases |sentences|
  {
    if sentences != [] {
      var n := |sentences|;
      var init, s := sentences[..n - 1], sentences[n - 1];
      assert sentences == init + [s];
      ChunkPrefixInvariant(init, budget);
      var st := ChunkPrefix(init, budget);
      if WordCount(st.current + " " + s) <= budget {
        ChunkMergeKeepsInvariant(st, init, s, budget);
      } else {
        ChunkEmitKeepsInvariant(st, init, s, budget);
      }
    }
  }

  /** A sentence that fits is appended to the pending chunk. */
  lemma ChunkMergeKeepsInvariant(st: ChunkState, init: seq<string>, s: string, budget: nat)
    requires ChunkInvariant(st, init, budget)
    requires WordCount(st.current + " " + s) <= budget
    ensures ChunkInvariant(ChunkStep(st, s, budget), init + [s], budget)
  {
    if st.current != "" {
      ChunkMergePending(st, init, s, budget);
    } else {
      ChunkMergeNothingPending(st, init, s, budget);
    }
  }

  lemma ChunkMergePending(st: ChunkState, init: seq<string>, s: string, budget: nat)
    requires ChunkInvariant(st, init, budget)
    requires WordCount(st.current + " " + s) <= budget
    requires st.current != ""
    ensures ChunkInvariant(ChunkStep(st, s, budget), init + [s], budget)
  {
    var st' := ChunkStep(st, s, budget);
    assert st' == ChunkState(st.chunks, st.current + " " + s);
    assert forall x :: x in init ==> x in init + [s];
    if st.chunks != [] {
      var last := st.chunks[|st.chunks| - 1];
      assert WordCount(last + " " + st'.current) > budget by {
        WordCountAppend(last, st.current);
        WordCountAppend(st.current, s);
        WordCountAppend(last, st.current + " " + s);
      }
    }
  }

  lemma ChunkMergeNothingPending(st: ChunkState, init: seq<string>, s: string, budget: nat)
    requires ChunkInvariant(st, init, budget)
    requires WordCount(st.current + " " + s) <= budget
    requires st.current == ""
    ensures ChunkInvariant(ChunkStep(st, s, budget), init + [s], budget)
  {
    var st' := ChunkStep(st, s, budget);
    assert st' == ChunkState(st.chunks, s);
    assert forall x :: x in init ==> x in init + [s];
    assert s in init + [s];
    if st.chunks != [] {
      var last := st.chunks[|st.chunks| - 1];
      assert WordCount(last + " " + s) > budget by {
        WordCountAppend(last, s);
        WordCountAppend(last, st.current);
        assert WordCount(st.current) == 1;
      }
    }
  }

  /** A sentence that does not fit closes the pending chunk and starts the next one. */
  lemma ChunkEmitKeepsInvariant(st: ChunkState, init: seq<string>, s: string, budget: nat)
    requires ChunkInvariant(st, init, budget)
    requires WordCount(st.current + " " + s) > budget
    ensures ChunkInvariant(ChunkStep(st, s, budget), init + [s], budget)
  {
    if st.current != "" {
      ChunkEmitPending(st, init, s, budget);
    } else {
      ChunkEmitNothingPending(st, init, s, budget);
    }
  }

  lemma ChunkEmitPending(st: ChunkState, init: seq<string>, s: string, budget: nat)
    requires ChunkInvariant(st, init, budget)
    requires WordCount(st.current + " " + s) > budget
    requires st.current != ""
    ensures ChunkInvariant(ChunkStep(st, s, budget), init + [s], budget)
  {
    var st' := ChunkStep(st, s, budget);
    assert st' == ChunkState(st.chunks + [st.current], s);
    assert forall x :: x in init ==> x in init + [s];
    assert s in init + [s];
    assert forall i :: 0 <= i < |st.chunks| ==> st'.chunks[i] == st.chunks[i];
  }

  lemma ChunkEmitNothingPending(st: ChunkState, init: seq<string>, s: string, budget: nat)
    requires ChunkInvariant(st, init, budget)
    requires WordCount(st.current + " " + s) > budget
    requires st.current == ""
    ensures ChunkInvariant(ChunkStep(st, s, budget), init + [s], budget)
  {
    var st' := ChunkStep(st, s, budget);
    assert st' == ChunkState(st.chunks, s);
    assert forall x :: x in init ==> x in init + [s];
    assert s in init + [s];
    if st.chunks != [] {
      var last := st.chunks[|st.chunks| - 1];
      WordCountAppend(last, s);
      WordCountAppend(st.current, s);
    }
  }

  /** Under non-empty sentences, the pending chunk closes the join of everything seen. */
  lemma {:induction false} ChunkPrefixJoin(sentences: seq<string>, budget: nat)
    requires forall i :: 0 <= i < |sentences| ==> sentences[i] != ""
    ensures sentences == [] ==> ChunkPrefix(sentences, budget) == ChunkState([], "")
    ensures sentences != [] ==>
      ChunkPrefix(sentences, budget).current != ""
      && Join(ChunkPrefix(sentences, budget).chunks + [ChunkPrefix(sentences, budget).current], " ") == Join(sentences, " ")
    decreases |sentences|
  {
    if sentences != [] {
      var n := |sentences|;
      var init, s := sentences[..n - 1], sentences[n - 1];
      assert sentences == init + [s];
      ChunkPrefixJoin(init, budget);
      var st := ChunkPrefix(init, budget);
      if init == [] {
        assert ChunkPrefix(sentences, budget) == ChunkState([], s);
      } else {
        JoinAppend(init, s, " ");
        var st' := ChunkStep(st, s, budget);
        if WordCount(st.current + " " + s) <= budget {
          assert st'.chunks + [st'.current] == st.chunks + [st.current + " " + s];
          if st.chunks == [] {
            assert Join([st.current + " " + s], " ") == st.current + " " + s;
          } else {
            JoinAppend(st.chunks, st.current + " " + s, " ");
            JoinAppend(st.chunks, st.current, " ");
          }
        } else {
          assert st'.chunks + [st'.current] == (st.chunks + [st.current]) + [s];
          JoinAppend(st.chunks + [st.current], s, " ");
        }
      }
    }
  }

  /** Every chunk is non-empty, there are no more chunks than sentences, and no sentences give
      no chunks. */
  lemma ChunksNonEmptyAndFewer(sentences: seq<string>, duration: int)
    ensures forall i :: 0 <= i < |Chunks(sentences, duration)| ==> Chunks(sentences, duration)[i] != ""
    ensures |Chunks(sentences, duration)| <= |sentences|
    ensures sentences == [] ==> Chunks(sentences, duration) == []
  {
    ChunkPrefixInvariant(sentences, WordsPerChunk(duration));
  }

  /** A chunk over the word budget is a single sentence: every merged chunk fits. */
  lemma ChunksWithinBudget(sentences: seq<string>, duration: int)
    ensures forall i :: 0 <= i < |Chunks(sentences, duration)| ==>
      WordCount(Chunks(sentences, duration)[i]) <= WordsPerChunk(duration) || Chunks(sentences, duration)[i] in sentences
  {
    ChunkPrefixInvariant(sentences, WordsPerChunk(duration));
  }

  /** The packing is greedy: no two neighbouring chunks would fit the budget together. */
  lemma ChunksAreGreedy(sentences: seq<string>, duration: int)
    ensures forall i :: 0 <= i < |Chunks(sentences, duration)| - 1 ==>
      WordCount(Chunks(sentences, duration)[i] + " " + Chunks(sentences, duration)[i + 1]) > WordsPerChunk(duration)
  {
    var budget := WordsPerChunk(duration);
    ChunkPrefixInvariant(sentences, budget);
    var st := ChunkPrefix(sentences, budget);
    var r := Flushed(st);
    if st.current != "" {
      assert forall i :: 0 <= i < |st.chunks| ==> r[i] == st.chunks[i];
    }
  }

  /** No text is lost, duplicated or reordered: the chunks joined by spaces are the
      (non-empty) sentences joined by spaces. */
  lemma ChunksJoin(sentences: seq<string>, duration: int)
    requires forall i :: 0 <= i < |sentences| ==> sentences[i] != ""
    ensures Join(Chunks(sentences, duration), " ") == Join(sentences, " ")
  {
    ChunkPrefixJoin(sentences, WordsPerChunk(duration));
  }

  /** `chunkContent`: the `for` loop over the sentences. */
  method ChunkContent(sentences: seq<string>, duration: VideoDuration) returns (chunks: seq<string>)
    ensures chunks == Chunks(sentences, duration)
    ensures forall i :: 0 <= i < |chunks| ==> chunks[i] != ""
    ensures |chunks| <= |sentences|
    ensures forall i :: 0 <= i < |chunks| ==> WordCount(chunks[i]) <= WordsPerChunk(duration) || chunks[i] in sentences
    ensures forall i :: 0 <= i < |chunks| - 1 ==> WordCount(chunks[i] + " " + chunks[i + 1]) > WordsPerChunk(duration)
  {
    var wordsPerChunk := WordsPerChunk(duration);
    chunks := [];
    var currentChunk := "";
    for i := 0 to |sentences|
      invariant ChunkState(chunks, currentChunk) == ChunkPrefix(sentences[..i], wordsPerChunk)
    {
      var sentence := sentences[i];
      assert sentences[..i + 1][..i] == sentences[..i];
      var wordCount := |Split(currentChunk + " " + sentence, ' ')|;
      if wordCount <= wordsPerChunk {
        currentChunk := if currentChunk != "" then currentChunk + " " + sentence else sentence;
      } else {
        if currentChunk != "" {
          chunks := chunks + [currentChunk];
        }
        currentChunk := sentence;
      }
    }
    if currentChunk != "" {
      chunks := chunks + [currentChunk];
    }
    assert sentences[..|sentences|] == sentences;
    ChunksNonEmptyAndFewer(sentences, duration);
    ChunksWithinBudget(sentences, duration);
    ChunksAreGreedy(sentences, duration);
  }

  // ---------------------------------------------------------------------------------------
  // Clips

  function Contents(clips: seq<VideoClip>): (r: seq<string>)
    ensures |r| == |clips| && forall i :: 0 <= i < |clips| ==> r[i] == clips[i].content
  {
    seq(|clips|, i requires 0 <= i < |clips| => clips[i].content)
  }

  /** The sentences `parseTextToClips` chunks. */
  function Sentences(text: string): seq<string> {
    SplitIntoSentences(CleanText(text))
  }

  /** `parseTextToClips`; `clock` stands for `Date.now()` and `random` for `Math.random()`,
      both read once per clip. Clip `i` carries chunk `i`; so the clip contents joined by spaces
      are the sentences of the cleaned text joined by spaces, and each clip is within the word
      budget unless it holds a single sentence. */
  function ParseTextToClips(text: string, duration: VideoDuration, clock: nat -> nat, random: nat -> real): (clips: seq<VideoClip>)
    requires IsRandomSource(random)
    ensures Contents(clips) == Chunks(Sentences(text), duration)
    ensures |clips| <= |Sentences(text)|
    ensures Join(Contents(clips), " ") == Join(Sentences(text), " ")
    ensures forall i :: 0 <= i < |clips| ==>
      && clips[i].order == i
      && clips[i].duration == duration
      && clips[i].content != ""
      && (WordCount(clips[i].content) <= WordsPerChunk(duration) || clips[i].content in Sentences(text))
      && clips[i].backgroundUrl in BackgroundVideos
      && clips[i].id == ClipId(clock(i), i)
  {
    var sentences := Sentences(text);
    var chunks := Chunks(sentences, duration);
    ChunksNonEmptyAndFewer(sentences, duration);
    ChunksJoin(sentences, duration);
    ChunksWithinBudget(sentences, duration);
    var clips := MakeClips(chunks, duration, BackgroundVideos, clock, random);
    assert Contents(clips) == chunks;
    clips
  }
}
