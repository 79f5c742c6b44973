/** `map_words_to_title_description` of OBrainRot-master/example.py: every word after a
    "Title:" or "Description:" prefix, paired with the whole line it came from. */
module WordMapper {
  import opened Text

  /** The characters Python's `str.strip()` and `str.split()` treat as whitespace. */
  predicate PyIsSpace(c: char) {
    c == '\t' || c == '\n' || c == '\U{000B}' || c == '\U{000C}' || c == '\r'
    || ('\U{001C}' <= c <= '\U{001F}') || c == ' ' || c == '\U{0085}' || c == '\U{00A0}'
    || c == '\U{1680}' || ('\U{2000}' <= c <= '\U{200A}') || c == '\U{2028}' || c == '\U{2029}'
    || c == '\U{202F}' || c == '\U{205F}' || c == '\U{3000}'
  }

  /** Nothing but whitespace. */
  predicate AllPySpace(s: string) {
    s == [] || (PyIsSpace(s[0]) && AllPySpace(s[1..]))
  }

  /** A word as `split()` yields it: non-empty, without whitespace. */
  predicate IsToken(w: string) {
    w != [] && forall i :: 0 <= i < |w| ==> !PyIsSpace(w[i])
  }

  /** `s.lstrip()`: the leading whitespace removed. */
  function PyStripStart(s: string): (r: string)
    ensures |r| <= |s|
    ensures r == [] || !PyIsSpace(r[0])
  {
    if s != [] && PyIsSpace(s[0]) then PyStripStart(s[1..]) else s
  }

  /** `s.rstrip()`: the trailing whitespace removed. */
  function PyStripEnd(s: string): (r: string)
    ensures |r| <= |s|
    ensures r == [] || !PyIsSpace(r[|r| - 1])
    ensures r != [] ==> r[0] == s[0]
  {
    if s != [] && PyIsSpace(s[|s| - 1]) then PyStripEnd(s[..|s| - 1]) else s
  }

  lemma {:induction false} AllPySpaceAppend(p: string, q: string)
    requires AllPySpace(p) && AllPySpace(q)
    ensures AllPySpace(p + q)
  {
    if p == [] {
      assert p + q == q;
    } else {
      assert (p + q)[1..] == p[1..] + q;
      AllPySpaceAppend(p[1..], q);
    }
  }

  /** `lstrip()` removes a whitespace run and nothing else. */
  lemma {:induction false} PyStripStartSplit(s: string) returns (pre: string)
    ensures s == pre + PyStripStart(s) && AllPySpace(pre)
  {
    if s != [] && PyIsSpace(s[0]) {
      var p := PyStripStartSplit(s[1..]);
      pre := [s[0]] + p;
      assert pre[1..] == p;
      assert s == [s[0]] + s[1..];
    } else {
      pre := [];
    }
  }

  /** `rstrip()` removes a whitespace run and nothing else. */
  lemma {:induction false} PyStripEndSplit(s: string) returns (post: string)
    ensures s == PyStripEnd(s) + post && AllPySpace(post)
  {
    if s != [] && PyIsSpace(s[|s| - 1]) {
      var init := s[..|s| - 1];
      var q := PyStripEndSplit(init);
      post := q + [s[|s| - 1]];
      assert AllPySpace([s[|s| - 1]]);
      AllPySpaceAppend(q, [s[|s| - 1]]);
      assert s == init + [s[|s| - 1]];
    } else {
      post := [];
    }
  }

  /** `s.strip()`. */
  function PyStrip(s: string): (r: string)
    ensures r == [] || (!PyIsSpace(r[0]) && !PyIsSpace(r[|r| - 1]))
  {
    PyStripEnd(PyStripStart(s))
  }

  /** The word `split()` reads at the start of `s`: the longest prefix without whitespace. */
  function Token(s: string): (t: string)
    ensures |t| <= |s| && t == s[..|t|]
    ensures forall i :: 0 <= i < |t| ==> !PyIsSpace(t[i])
    ensures |t| < |s| ==> PyIsSpace(s[|t|])
  {
    if s == [] || PyIsSpace(s[0]) then [] else [s[0]] + Token(s[1..])
  }

  /** `s.split()`: the maximal runs of non-whitespace characters, in order. */
  function Words(s: string): (ws: seq<string>)
    ensures forall i :: 0 <= i < |ws| ==> IsToken(ws[i])
    decreases |s|
  {
    if s == [] then []
    else if PyIsSpace(s[0]) then Words(s[1..])
    else var t := Token(s); [t] + Words(s[|t|..])
  }

  /** One `[word, line]` entry of the result. */
  datatype Pair = Pair(word: string, line: string)

  /** The words a line contributes: those after "Title:" when it starts with it, else those
      after "Description:" when it starts with that, else none. */
  function LineWords(line: string): seq<string> {
    if StartsWith(line, "Title:") then Words(PyStrip(line[|"Title:"|..]))
    else if StartsWith(line, "Description:") then Words(PyStrip(line[|"Description:"|..]))
    else []
  }

  /** Each word paired with `line`. */
  function PairsOf(words: seq<string>, line: string): (ps: seq<Pair>)
    ensures |ps| == |words|
    ensures forall k :: 0 <= k < |words| ==> ps[k] == Pair(words[k], line)
  {
    seq(|words|, k requires 0 <= k < |words| => Pair(words[k], line))
  }

  /** The pairs one line contributes. */
  function LinePairs(line: string): seq<Pair> {
    PairsOf(LineWords(line), line)
  }

  /** The result for a list of lines, line after line. */
  function Mapping(lines: seq<string>): seq<Pair>
    decreases |lines|
  {
    if lines == [] then []
    else LinePairs(lines[0]) + Mapping(lines[1..])
  }

  /** The function as written. The `for word in words: mapping_array.append([word, line])` loop,
      which both branches repeat, is `AppendPairs`. */
  method MapWordsToTitleDescription(textList: seq<string>) returns (mappingArray: seq<Pair>)
    ensures mappingArray == Mapping(textList)
  {
    mappingArray := [];
    for i := 0 to |textList|
      invariant mappingArray == Mapping(textList[..i])
    {
      var line := textList[i];
      ghost var before := mappingArray;
      if StartsWith(line, "Title:") {
        var titleLine := line;
        var words := Words(PyStrip(titleLine[|"Title:"|..]));
        mappingArray := AppendPairs(mappingArray, words, titleLine);
        LinePairsTitle(line, words);
      } else if StartsWith(line, "Description:") {
        var descriptionLine := line;
        var words := Words(PyStrip(descriptionLine[|"Description:"|..]));
        mappingArray := AppendPairs(mappingArray, words, descriptionLine);
        LinePairsDescription(line, words);
      } else {
        LinePairsOther(line);
      }
      MappingPrefix(textList, i);
    }
    assert textList[..|textList|] == textList;
  }

  /** The lines read so far, one more. */
  lemma MappingPrefix(lines: seq<string>, i: nat)
    requires i < |lines|
    ensures Mapping(lines[..i + 1]) == Mapping(lines[..i]) + LinePairs(lines[i])
  {
    assert lines[..i + 1] == lines[..i] + [lines[i]];
    MappingSnoc(lines[..i], lines[i]);
  }

  /** One `[word, line]` pair appended per word, in word order. */
  method AppendPairs(pairs: seq<Pair>, words: seq<string>, line: string) returns (r: seq<Pair>)
    ensures r == pairs + PairsOf(words, line)
  {
    r := pairs;
    for k := 0 to |words|
      invariant r == pairs + PairsOf(words[..k], line)
    {
      PairsOfSnoc(pairs, r, words, k, line);
      r := r + [Pair(words[k], line)];
    }
    assert words[..|words|] == words;
  }

  lemma LinePairsTitle(line: string, words: seq<string>)
    requires StartsWith(line, "Title:") && words == Words(PyStrip(line[|"Title:"|..]))
    ensures LinePairs(line) == PairsOf(words, line)
  {
  }

  lemma LinePairsDescription(line: string, words: seq<string>)
    requires !StartsWith(line, "Title:") && StartsWith(line, "Description:")
    requires words == Words(PyStrip(line[|"Description:"|..]))
    ensures LinePairs(line) == PairsOf(words, line)
  {
  }

  lemma LinePairsOther(line: string)
    requires !StartsWith(line, "Title:") && !StartsWith(line, "Description:")
    ensures LinePairs(line) == []
  {
  }

  /** One more word appended keeps the pairs of the words so far. */
  lemma PairsOfSnoc(before: seq<Pair>, done: seq<Pair>, words: seq<string>, k: nat, line: string)
    requires k < |words| && done == before + PairsOf(words[..k], line)
    ensures done + [Pair(words[k], line)] == before + PairsOf(words[..k + 1], line)
  {
    assert PairsOf(words[..k + 1], line) == PairsOf(words[..k], line) + [Pair(words[k], line)];
  }

  // ---------------------------------------------------------------------------------------
  // Properties

  /** The number of words the lines contribute, summed. */
  function WordCount(lines: seq<string>): nat
    decreases |lines|
  {
    if lines == [] then 0 else |LineWords(lines[0])| + WordCount(lines[1..])
  }

  /** Lines are handled independently and in order. */
  lemma {:induction false} MappingAppend(a: seq<string>, b: seq<string>)
    ensures Mapping(a + b) == Mapping(a) + Mapping(b)
    decreases |a|
  {
    if a == [] {
      assert a + b == b;
    } else {
      assert (a + b)[0] == a[0];
      assert (a + b)[1..] == a[1..] + b;
      MappingAppend(a[1..], b);
    }
  }

  /** One line yields the pairs of its own words. */
  lemma MappingSingle(line: string)
    ensures Mapping([line]) == LinePairs(line)
  {
    assert [line][1..] == [];
  }

  /** A further line adds its own pairs at the end. */
  lemma MappingSnoc(lines: seq<string>, line: string)
    ensures Mapping(lines + [line]) == Mapping(lines) + LinePairs(line)
  {
    MappingAppend(lines, [line]);
    MappingSingle(line);
  }

  /** The result holds one pair per word of every line. */
  lemma {:induction false} MappingLength(lines: seq<string>)
    ensures |Mapping(lines)| == WordCount(lines)
    decreases |lines|
  {
    if lines != [] {
      MappingLength(lines[1..]);
    }
  }

  /** Every pair holds a whitespace-free word and one of the input lines. */
  lemma MappingPairs(lines: seq<string>)
    ensures forall k :: 0 <= k < |Mapping(lines)| ==>
      IsToken(Mapping(lines)[k].word) && Mapping(lines)[k].line in lines
  {
    MappingPairsIn(lines, lines);
  }

  /** Each pair's word is a token, and its line is one of `all`. */
  predicate PairsFrom(ps: seq<Pair>, all: seq<string>) {
    forall k :: 0 <= k < |ps| ==> IsToken(ps[k].word) && ps[k].line in all
  }

  lemma {:induction false} MappingPairsIn(lines: seq<string>, all: seq<string>)
    requires forall i :: 0 <= i < |lines| ==> lines[i] in all
    ensures PairsFrom(Mapping(lines), all)
    decreases |lines|
  {
    if lines != [] {
      MappingPairsIn(lines[1..], all);
      LinePairsFrom(lines[0], all);
      PairsFromAppend(LinePairs(lines[0]), Mapping(lines[1..]), all);
    }
  }

  lemma LinePairsFrom(line: string, all: seq<string>)
    requires line in all
    ensures PairsFrom(LinePairs(line), all)
  {
  }

  lemma PairsFromAppend(p: seq<Pair>, q: seq<Pair>, all: seq<string>)
    requires PairsFrom(p, all) && PairsFrom(q, all)
    ensures PairsFrom(p + q, all)
  {
    forall k | 0 <= k < |p + q|
      ensures IsToken((p + q)[k].word) && (p + q)[k].line in all
    {
      if k >= |p| {
        assert (p + q)[k] == q[k - |p|];
      }
    }
  }

  /** A line with neither prefix contributes nothing. */
  lemma OtherLineIgnored(lines: seq<string>, line: string)
    requires !StartsWith(line, "Title:") && !StartsWith(line, "Description:")
    ensures Mapping(lines + [line]) == Mapping(lines)
  {
    MappingSnoc(lines, line);
  }

  /** A leading space never starts a word. */
  lemma WordsSpace(c: char, s: string)
    requires PyIsSpace(c)
    ensures Words([c] + s) == Words(s)
  {
    assert ([c] + s)[1..] == s;
  }

  /** All-whitespace text holds no word. */
  lemma {:induction false} WordsAllSpace(s: string)
    requires AllPySpace(s)
    ensures Words(s) == []
  {
    if s != [] {
      WordsAllSpace(s[1..]);
    }
  }

  /** Leading whitespace holds no word. */
  lemma {:induction false} WordsDropSpace(pre: string, x: string)
    requires AllPySpace(pre)
    ensures Words(pre + x) == Words(x)
    decreases |pre|
  {
    if pre == [] {
      assert pre + x == x;
    } else {
      assert (pre + x)[0] == pre[0];
      assert (pre + x)[1..] == pre[1..] + x;
      WordsDropSpace(pre[1..], x);
    }
  }

  /** The word before a space-led tail is read the same without the tail. */
  lemma {:induction false} TokenAppendSpace(x: string, t: string)
    requires t == [] || PyIsSpace(t[0])
    ensures Token(x + t) == Token(x)
    decreases |x|
  {
    if x == [] {
      assert x + t == t;
    } else {
      assert (x + t)[0] == x[0];
      assert (x + t)[1..] == x[1..] + t;
      if !PyIsSpace(x[0]) {
        TokenAppendSpace(x[1..], t);
      }
    }
  }

  /** Trailing whitespace holds no word. */
  lemma {:induction false} WordsAppendSpace(x: string, t: string)
    requires AllPySpace(t)
    ensures Words(x + t) == Words(x)
    decreases |x|
  {
    if x == [] {
      assert x + t == t;
      WordsAllSpace(t);
    } else {
      assert (x + t)[0] == x[0];
      if PyIsSpace(x[0]) {
        assert (x + t)[1..] == x[1..] + t;
        WordsAppendSpace(x[1..], t);
      } else {
        TokenAppendSpace(x, t);
        var n := |Token(x)|;
        assert (x + t)[n..] == x[n..] + t;
        WordsAppendSpace(x[n..], t);
      }
    }
  }

  /** `strip()` before `split()` changes nothing: `split()` already ignores the ends. */
  lemma WordsStrip(s: string)
    ensures Words(PyStrip(s)) == Words(s)
  {
    var m := PyStripStart(s);
    var pre := PyStripStartSplit(s);
    WordsDropSpace(pre, m);
    var post := PyStripEndSplit(m);
    WordsAppendSpace(PyStripEnd(m), post);
  }

  /** A word followed by whitespace and more text comes first. */
  lemma WordsCons(w: string, c: char, rest: string)
    requires IsToken(w) && PyIsSpace(c)
    ensures Words(w + [c] + rest) == [w] + Words(rest)
  {
    var s := w + [c] + rest;
    assert s == w + ([c] + rest);
    TokenAppendSpace(w, [c] + rest);
    TokenOfToken(w);
    assert s[0] == w[0];
    assert s[|w|..] == [c] + rest;
    WordsSpace(c, rest);
  }

  /** A whitespace-free word is read whole. */
  lemma {:induction false} TokenOfToken(w: string)
    requires forall i :: 0 <= i < |w| ==> !PyIsSpace(w[i])
    ensures Token(w) == w
  {
    if w != [] {
      TokenOfToken(w[1..]);
    }
  }

  /** A lone word is read back. */
  lemma WordsOne(w: string)
    requires IsToken(w)
    ensures Words(w) == [w]
  {
    TokenOfToken(w);
    assert w[|w|..] == [];
  }

  /** Words joined by single spaces are split back into the same words. */
  lemma {:induction false} WordsJoin(ws: seq<string>)
    requires forall i :: 0 <= i < |ws| ==> IsToken(ws[i])
    ensures Words(Join(ws, " ")) == ws
  {
    if |ws| == 1 {
      WordsOne(ws[0]);
    } else if |ws| > 1 {
      WordsJoin(ws[1..]);
      WordsCons(ws[0], ' ', Join(ws[1..], " "));
    }
  }

  // ---------------------------------------------------------------------------------------
  // The sample at the end of the script

  /** The title's words, in order. */
  function SampleTitleWords(): seq<string> {
    ["I", "am", "exploiting", "my", "employer", "and", "I", "have", "never", "been", "happier"]
  }

  /** The two lines the script maps, "Title: I am exploiting my employer and I have never been
      happier" and "Description: [deleted]", each written as its prefix, one space and its words
      separated by single spaces. */
  function SampleLines(): seq<string> {
    ["Title:" + " " + Join(SampleTitleWords(), " "), "Description:" + " " + Join(["[deleted]"], " ")]
  }

  /** A line made of a prefix and a rest starts with the prefix, and the rest follows it. */
  lemma Prefixed(prefix: string, rest: string)
    ensures StartsWith(prefix + rest, prefix) && (prefix + rest)[|prefix|..] == rest
  {
    assert (prefix + rest)[..|prefix|] == prefix;
  }

  /** A "Title:" line contributes the words after the prefix, one pair each. */
  lemma TitleLine(rest: string)
    ensures LinePairs("Title:" + rest) == PairsOf(Words(rest), "Title:" + rest)
  {
    Prefixed("Title:", rest);
    WordsStrip(rest);
  }

  /** So does a "Description:" line: it cannot also start with "Title:". */
  lemma DescriptionLine(rest: string)
    ensures LinePairs("Description:" + rest) == PairsOf(Words(rest), "Description:" + rest)
  {
    var line := "Description:" + rest;
    assert !StartsWith(line, "Title:") by { assert line[0] == 'D'; }
    Prefixed("Description:", rest);
    WordsStrip(rest);
  }

  /** Words after a space are the words themselves. */
  lemma SpacedWords(ws: seq<string>)
    requires forall i :: 0 <= i < |ws| ==> IsToken(ws[i])
    ensures Words(" " + Join(ws, " ")) == ws
  {
    WordsSpace(' ', Join(ws, " "));
    WordsJoin(ws);
  }

  /** A title line and a description line yield the title's words, then the description's, each
      with its own line. */
  lemma TitleThenDescription(lines: seq<string>, ws: seq<string>, ds: seq<string>)
    requires forall i :: 0 <= i < |ws| ==> IsToken(ws[i])
    requires forall i :: 0 <= i < |ds| ==> IsToken(ds[i])
    requires lines == ["Title:" + " " + Join(ws, " "), "Description:" + " " + Join(ds, " ")]
    ensures Mapping(lines) == PairsOf(ws, lines[0]) + PairsOf(ds, lines[1])
  {
    var title := " " + Join(ws, " ");
    var description := " " + Join(ds, " ");
    assert lines[0] == "Title:" + title;
    assert lines[1] == "Description:" + description;
    TitleLine(title);
    SpacedWords(ws);
    DescriptionLine(description);
    SpacedWords(ds);
    assert lines == [lines[0]] + [lines[1]];
    MappingAppend([lines[0]], [lines[1]]);
    MappingSingle(lines[0]);
    MappingSingle(lines[1]);
  }

  lemma SampleTokens()
    ensures forall i :: 0 <= i < |SampleTitleWords()| ==> IsToken(SampleTitleWords()[i])
    ensures forall i :: 0 <= i < |["[deleted]"]| ==> IsToken(["[deleted]"][i])
  {
    var ws := SampleTitleWords();
    forall i | 0 <= i < |ws|
      ensures IsToken(ws[i])
    {
      assert i == 0 || i == 1 || i == 2 || i == 3 || i == 4 || i == 5 || i == 6 || i == 7 || i == 8 || i == 9 || i == 10;
    }
    assert IsToken("[deleted]");
  }

  /** The sample yields 12 pairs: the 11 title words with the title line, then "[deleted]" with
      the description line. */
  lemma SampleMapping(lines: seq<string>)
    requires lines == SampleLines()
    ensures |Mapping(lines)| == 12
    ensures forall k :: 0 <= k < 11 ==> Mapping(lines)[k] == Pair(SampleTitleWords()[k], lines[0])
    ensures Mapping(lines)[11] == Pair("[deleted]", lines[1])
  {
    SampleTokens();
    TitleThenDescription(lines, SampleTitleWords(), ["[deleted]"]);
  }
}
