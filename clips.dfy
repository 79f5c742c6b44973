/** The `VideoClip` record, the clip factory shared by local and model-backed generation, and the
    Fisher-Yates `shuffleClips` (identical in src/lib/parseContent.ts and src/lib/summarizeContent.ts). */
module Clips {
  import opened Text

  /** `VideoDuration`: the seconds per clip a user can pick. */
  type VideoDuration = d: nat | d == 15 || d == 30 || d == 60 witness 15

  /** `VideoClip`. The record types `duration` and `order` as plain numbers; the model keeps
      durations non-negative and whole. */
  datatype VideoClip = VideoClip(id: string, content: string, duration: nat, backgroundUrl: string, order: int)

  /** What a clip carries besides its position: everything the shuffle must not touch. */
  datatype Payload = Payload(id: string, content: string, duration: nat, backgroundUrl: string)

  function PayloadOf(c: VideoClip): Payload {
    Payload(c.id, c.content, c.duration, c.backgroundUrl)
  }

  function Payloads(s: seq<VideoClip>): (r: seq<Payload>)
    ensures |r| == |s| && forall i :: 0 <= i < |s| ==> r[i] == PayloadOf(s[i])
  {
    seq(|s|, i requires 0 <= i < |s| => PayloadOf(s[i]))
  }

  /** A draw of `Math.random()`, a real number in [0, 1). */
  ghost predicate IsRandomSource(random: nat -> real) {
    forall k :: 0.0 <= random(k) < 1.0
  }

  /** `Math.floor(r * n)`: the index a draw `r` selects among `n` choices. */
  function RandomIndex(r: real, n: nat): (j: nat)
    requires 0.0 <= r < 1.0 && n > 0
    ensures j < n
  {
    assert r * (n as real) < n as real by {
      assert (1.0 - r) * (n as real) > 0.0;
    }
    (r * (n as real)).Floor
  }

  /** The id template `clip-${Date.now()}-${index}`. */
  function ClipId(now: nat, index: nat): string {
    "clip-" + Decimal(now) + "-" + Decimal(index)
  }

  /** Cutting at the first occurrence of a separator that the left parts do not contain. */
  lemma CutAtSeparator(a: string, b: string, c: string, d: string, sep: char)
    requires sep !in a && sep !in c
    requires a + [sep] + b == c + [sep] + d
    ensures a == c && b == d
  {
    var x := a + [sep] + b;
    assert forall k :: 0 <= k < |a| ==> x[k] == a[k] != sep;
    assert forall k :: 0 <= k < |c| ==> x[k] == c[k] != sep;
    assert x[|a|] == sep && x[|c|] == sep;
    assert |a| == |c|;
    assert a == x[..|a|] && c == x[..|c|];
    assert b == x[|a| + 1..] && d == x[|c| + 1..];
  }

  lemma DecimalHasNoDash(n: nat)
    ensures '-' !in Decimal(n)
  {
    var d := Decimal(n);
    assert forall k :: 0 <= k < |d| ==> d[k] != '-';
  }

  lemma ClipIdTail(now: nat, index: nat)
    ensures ClipId(now, index)[5..] == Decimal(now) + "-" + Decimal(index)
  {
    assert ClipId(now, index) == "clip-" + (Decimal(now) + "-" + Decimal(index));
  }

  /** Two ids are equal only for the same timestamp and the same index: a numeral has no '-'. */
  lemma ClipIdInjective(now1: nat, index1: nat, now2: nat, index2: nat)
    requires ClipId(now1, index1) == ClipId(now2, index2)
    ensures now1 == now2 && index1 == index2
  {
    ClipIdTail(now1, index1);
    ClipIdTail(now2, index2);
    DecimalHasNoDash(now1);
    DecimalHasNoDash(now2);
    CutAtSeparator(Decimal(now1), Decimal(index1), Decimal(now2), Decimal(index2), '-');
    DecimalInjective(now1, now2);
    DecimalInjective(index1, index2);
  }

  /** The clip factory: the `map` that turns the `i`-th content string into clip `i`, reading
      the clock (`Date.now()`, call `i`) for its id and drawing its background from `pool`
      (`Math.random()`, call `i`). */
  function MakeClips(contents: seq<string>, duration: nat, pool: seq<string>, clock: nat -> nat, random: nat -> real): (clips: seq<VideoClip>)
    requires |pool| > 0 && IsRandomSource(random)
    ensures |clips| == |contents|
    ensures forall i :: 0 <= i < |clips| ==>
      && clips[i].order == i
      && clips[i].content == contents[i]
      && clips[i].duration == duration
      && clips[i].backgroundUrl in pool
      && clips[i].id == ClipId(clock(i), i)
  {
    seq(|contents|, i requires 0 <= i < |contents| =>
      VideoClip(ClipId(clock(i), i), contents[i], duration, pool[RandomIndex(random(i), |pool|)], i))
  }

  /** Clips of one generation never share an id, whatever the clock reads. */
  lemma ClipIdsDistinct(contents: seq<string>, duration: nat, pool: seq<string>, clock: nat -> nat, random: nat -> real, i: nat, j: nat)
    requires |pool| > 0 && IsRandomSource(random)
    requires i < j < |contents|
    ensures MakeClips(contents, duration, pool, clock, random)[i].id != MakeClips(contents, duration, pool, clock, random)[j].id
  {
    var clips := MakeClips(contents, duration, pool, clock, random);
    if clips[i].id == clips[j].id {
      ClipIdInjective(clock(i), i, clock(j), j);
    }
  }

  /** `[shuffled[i], shuffled[j]] = [shuffled[j], shuffled[i]]` on a value. */
  function Swap<T>(s: seq<T>, i: nat, j: nat): (r: seq<T>)
    requires i < |s| && j < |s|
    ensures |r| == |s|
  {
    s[i := s[j]][j := s[i]]
  }

  /** A swap exchanges two elements, leaves the others in place and keeps the multiset. */
  lemma SwapExchanges<T>(s: seq<T>, i: nat, j: nat)
    requires i < |s| && j < |s|
    ensures Swap(s, i, j)[i] == s[j] && Swap(s, i, j)[j] == s[i]
    ensures forall k :: 0 <= k < |s| && k != i && k != j ==> Swap(s, i, j)[k] == s[k]
    ensures multiset(Swap(s, i, j)) == multiset(s)
  {
  }

  /** The array of the Fisher-Yates loop when its counter has reached `i`: the swaps at
      positions `|s| - 1`, ..., `i + 1` have been made, the one at position `p` with the
      `(|s| - 1 - p)`-th draw of `Math.random()` choosing a partner in `[0, p]`. */
  function Shuffled<T>(s: seq<T>, i: int, random: nat -> real): (r: seq<T>)
    requires -1 <= i && IsRandomSource(random)
    ensures |r| == |s|
    decreases |s| - i
  {
    if i >= |s| - 1 then s
    else Swap(Shuffled(s, i + 1, random), i + 1, RandomIndex(random(|s| - 2 - i), i + 2))
  }

  /** `shuffled.map((clip, index) => ({ ...clip, order: index }))`. */
  function Renumber(s: seq<VideoClip>): (r: seq<VideoClip>)
    ensures |r| == |s|
  {
    seq(|s|, i requires 0 <= i < |s| => s[i].(order := i))
  }

  /** The value `shuffleClips` returns for a given stream of random draws. */
  function Shuffle(clips: seq<VideoClip>, random: nat -> real): seq<VideoClip>
    requires IsRandomSource(random)
  {
    Renumber(Shuffled(clips, 0, random))
  }

  /** The swap loop neither loses nor duplicates an element. */
  lemma {:induction false} ShuffledPermutes<T>(s: seq<T>, i: int, random: nat -> real)
    requires -1 <= i && IsRandomSource(random)
    ensures multiset(Shuffled(s, i, random)) == multiset(s)
    decreases |s| - i
  {
    if i < |s| - 1 {
      ShuffledPermutes(s, i + 1, random);
      SwapExchanges(Shuffled(s, i + 1, random), i + 1, RandomIndex(random(|s| - 2 - i), i + 2));
    }
  }

  lemma PayloadsSwap(s: seq<VideoClip>, i: nat, j: nat)
    requires i < |s| && j < |s|
    ensures Payloads(Swap(s, i, j)) == Swap(Payloads(s), i, j)
  {
  }

  /** The swap loop neither loses nor duplicates a clip payload. */
  lemma {:induction false} ShuffledKeepsPayloads(s: seq<VideoClip>, i: int, random: nat -> real)
    requires -1 <= i && IsRandomSource(random)
    ensures multiset(Payloads(Shuffled(s, i, random))) == multiset(Payloads(s))
    decreases |s| - i
  {
    if i < |s| - 1 {
      var j := RandomIndex(random(|s| - 2 - i), i + 2);
      var prev := Shuffled(s, i + 1, random);
      ShuffledKeepsPayloads(s, i + 1, random);
      PayloadsSwap(prev, i + 1, j);
      SwapExchanges(Payloads(prev), i + 1, j);
    }
  }

  /** The shuffle keeps the length and the multiset of clip payloads (id, content, duration,
      background) and renumbers `order` to match each clip's new position. */
  lemma ShuffleIsRenumberedPermutation(clips: seq<VideoClip>, random: nat -> real)
    requires IsRandomSource(random)
    ensures |Shuffle(clips, random)| == |clips|
    ensures forall i :: 0 <= i < |clips| ==> Shuffle(clips, random)[i].order == i
    ensures multiset(Payloads(Shuffle(clips, random))) == multiset(Payloads(clips))
  {
    var swapped := Shuffled(clips, 0, random);
    assert Payloads(Renumber(swapped)) == Payloads(swapped);
    ShuffledKeepsPayloads(clips, 0, random);
  }

  lemma ShuffledStep<T>(s: seq<T>, i: nat, random: nat -> real, before: seq<T>, j: nat)
    requires 0 < i < |s| && IsRandomSource(random)
    requires before == Shuffled(s, i, random) && j == RandomIndex(random(|s| - 1 - i), i + 1)
    ensures Swap(before, i, j) == Shuffled(s, i - 1, random)
  {
  }

  /** `shuffleClips`: copies the input (`[...clips]`), runs the Fisher-Yates swap loop on the
      copy, then renumbers. The input is a value and is left as it was. */
  method ShuffleClips(clips: seq<VideoClip>, random: nat -> real) returns (shuffled: seq<VideoClip>)
    requires IsRandomSource(random)
    ensures shuffled == Shuffle(clips, random)
    ensures |shuffled| == |clips|
    ensures forall i :: 0 <= i < |shuffled| ==> shuffled[i].order == i
    ensures multiset(Payloads(shuffled)) == multiset(Payloads(clips))
  {
    var a := new VideoClip[|clips|](k requires 0 <= k < |clips| => clips[k]);
    assert a[..] == clips;
    var i := a.Length - 1;
    while i > 0
      invariant -1 <= i < a.Length
      invariant a[..] == Shuffled(clips, i, random)
    {
      var j := RandomIndex(random(a.Length - 1 - i), i + 1);
      ghost var before := a[..];
      ShuffledStep(clips, i, random, before, j);
      var t := a[i];
      a[i] := a[j];
      a[j] := t;
      assert a[..] == Swap(before, i, j);
      i := i - 1;
    }
    shuffled := Renumber(a[..]);
    ShuffleIsRenumberedPermutation(clips, random);
  }
}
