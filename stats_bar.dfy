/** The figure src/components/StatsBar.tsx shows as total watch time. */
module StatsBar {
  import opened Numbers

  /** `Math.ceil((clipCount * duration) / 60)`: the whole minutes that cover every clip's
      seconds, and no more. */
  function TotalMinutes(clipCount: nat, duration: nat): (minutes: nat)
    ensures minutes * 60 >= clipCount * duration
    ensures minutes > 0 ==> (minutes - 1) * 60 < clipCount * duration
  {
    CeilDiv(clipCount * duration, 60)
  }

  /** No clips, no minutes. */
  lemma NoClipsNoMinutes(duration: nat)
    ensures TotalMinutes(0, duration) == 0
  {
  }

  /** Zero minutes only when there is nothing to watch. */
  lemma ZeroMinutesOnlyWhenEmpty(clipCount: nat, duration: nat)
    requires TotalMinutes(clipCount, duration) == 0
    ensures clipCount * duration == 0
  {
  }

  /** A whole number of minutes is shown as it is. */
  lemma WholeMinutes(clipCount: nat, duration: nat, k: nat)
    requires clipCount * duration == k * 60
    ensures TotalMinutes(clipCount, duration) == k
  {
    CeilDivExact(k, 60);
  }

  /** More clips, or longer ones, never show fewer minutes. */
  lemma TotalMinutesMonotone(clipCount: nat, duration: nat, clipCount': nat, duration': nat)
    requires clipCount <= clipCount' && duration <= duration'
    ensures TotalMinutes(clipCount, duration) <= TotalMinutes(clipCount', duration')
  {
    MulMonotone(clipCount, clipCount', duration);
    MulMonotone(duration, duration', clipCount');
    CeilDivMonotone(clipCount * duration, clipCount' * duration', 60);
  }
}
