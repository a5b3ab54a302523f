/**
 * The exporter's state and its scrape cycle (exporter.go): the registry of
 * collectors, the `up` gauge and the scrape counters, updated in place.
 */
module Exporter {
  import opened Wrappers
  import opened Statistics
  import opened Metrics
  import opened Translation

  /** What `Reset` does to one collector: a vector loses all its labels; a gauge has no reset. */
  function ResetCollector(c: Collector): Collector {
    if c.GaugeVec? then c.(values := map[]) else c
  }

  /** One entry after resetting each of its collectors. */
  function ResetEntry(ms: Entry): Entry {
    seq(|ms|, i requires 0 <= i < |ms| => ResetCollector(ms[i]))
  }

  /** The registry after every entry has been reset. */
  function ResetAll(m: Registry): (r: Registry)
    ensures r.Keys == m.Keys
    ensures forall k :: k in m ==> SameCollectors(m[k], r[k])
  {
    map k | k in m :: ResetEntry(m[k])
  }

  /**
   * Resetting leaves gauges exactly as they were, empties every vector, and
   * doing it twice is doing it once.
   */
  lemma ResetAllEffect(m: Registry)
    ensures forall k, i :: k in m && 0 <= i < |m[k]| && m[k][i].Gauge? ==> ResetAll(m)[k][i] == m[k][i]
    ensures forall k, i :: k in m && 0 <= i < |m[k]| && m[k][i].GaugeVec? ==> ResetAll(m)[k][i].values == map[]
    ensures ResetAll(ResetAll(m)) == ResetAll(m)
  {
    var r := ResetAll(m);
    forall k | k in m
      ensures ResetAll(r)[k] == r[k]
    {
      assert ResetEntry(r[k]) == r[k];
    }
  }

  /** Resetting keeps every entry well shaped. */
  lemma ResetKeepsShapes(m: Registry)
    requires AllWellShaped(m)
    ensures AllWellShaped(ResetAll(m))
  {
    forall k | k in m
      ensures WellShaped(ResetAll(m)[k])
    {
      ResetAllEffect(m);
      SameCollectorsKeepShape(m[k], ResetAll(m)[k]);
    }
  }

  /**
   * The bucket loop of a distribution: bucket `i` is set, under the label of
   * its cut (or "+Inf"), to the running total of the counts up to `i`.
   */
  method FillBuckets(vec: map<string, real>, cuts: seq<real>, counts: seq<int>, formatCut: CutFormat)
    returns (r: map<string, real>)
    ensures r == ApplyBuckets(vec, cuts, counts, formatCut, |counts|)
  {
    r := vec;
    var cummulative := 0;
    for i := 0 to |counts|
      invariant cummulative == Sum(counts[..i])
      invariant r == ApplyBuckets(vec, cuts, counts, formatCut, i)
    {
      var leValue := if i < |cuts| then formatCut(cuts[i]) else "+Inf";
      r := r[leValue := (cummulative + counts[i]) as real];
      cummulative := cummulative + counts[i];
      assert counts[..i + 1][..i] == counts[..i];
    }
  }

  /**
   * The type switch of the figure loop, applied to the entry found (or
   * created) for the figure. A sub-update whose collector the entry lacks is
   * skipped.
   */
  method UpdateEntry(ms: Entry, f: StatisticFigure, groupStats: Statistics, formatCut: CutFormat)
    returns (r: Entry)
    ensures r == Dispatch(ms, f, groupStats, formatCut)
    ensures SameCollectors(ms, r)
  {
    r := ms;
    match f.figureType {
      case Current | Accumulated =>
        var v := GetFloat(groupStats, f.identifier);
        if v.Some? && 0 < |r| && r[0].Gauge? {
          r := r[0 := r[0].(value := v)];
        }
      case Distribution =>
        var distStats := GetGroup(groupStats, f.identifier);
        if distStats.Some? {
          var dist := distStats.value;
          // the sum gauge comes first
          var sum := GetFloat(dist, "sum");
          if sum.Some? && 0 < |r| && r[0].Gauge? {
            r := r[0 := r[0].(value := sum)];
          }
          // the count gauge comes second
          var count := GetFloat(dist, "count");
          if count.Some? && 1 < |r| && r[1].Gauge? {
            r := r[1 := r[1].(value := count)];
          }
          // the bucket vector comes third
          var counts := GetCounts(dist, "counts");
          if counts.Some? && 2 < |r| && r[2].GaugeVec? {
            var vec := FillBuckets(r[2].values, f.cuts, counts.value, formatCut);
            r := r[2 := r[2].(values := vec)];
          }
        }
      case Unrecognized(_) =>
    }
  }

  class Exporter {
    /** Collectors by metric key; entries are added, never removed or replaced. */
    var metrics: Registry
    /** The liveness gauge: 1 when the last scrape fetched both documents, 0 otherwise. */
    var up: real
    /** Counts every scrape attempt. */
    var totalScrapes: nat
    /** Counts failed scrapes; no path of the scrape increments it. */
    var failedScrapes: nat

    /**
     * Every entry has the shape `NewMetric` gives it. A preserved invariant:
     * the constructor establishes it and every method keeps it, and while it
     * holds a figure whose type matches its entry's shape cannot make the
     * source's dispatch fail (`StepAsWrittenSucceeds`).
     */
    ghost predicate Valid()
      reads this
    {
      AllWellShaped(metrics)
    }

    /** A new exporter: an empty registry, gauges and counters at zero. */
    constructor ()
      ensures Valid()
      ensures metrics == map[] && up == 0.0 && totalScrapes == 0 && failedScrapes == 0
    {
      metrics := map[];
      up := 0.0;
      totalScrapes := 0;
      failedScrapes := 0;
    }

    /** Empties every gauge vector in the registry; plain gauges keep their values. */
    method ResetMetrics()
      requires Valid()
      modifies this
      ensures Valid()
      ensures metrics == ResetAll(old(metrics))
      ensures up == old(up) && totalScrapes == old(totalScrapes) && failedScrapes == old(failedScrapes)
    {
      var keys := metrics.Keys;
      while keys != {}
        invariant keys <= metrics.Keys
        invariant metrics.Keys == old(metrics).Keys
        invariant forall k :: k in metrics && k !in keys ==> metrics[k] == ResetEntry(old(metrics)[k])
        invariant forall k :: k in keys ==> metrics[k] == old(metrics)[k]
        invariant up == old(up) && totalScrapes == old(totalScrapes) && failedScrapes == old(failedScrapes)
        decreases keys
      {
        var k :| k in keys;
        var ms := metrics[k];
        ghost var was := ms;
        var i := 0;
        while i < |ms|
          invariant 0 <= i <= |ms| == |was|
          invariant forall j :: 0 <= j < i ==> ms[j] == ResetCollector(was[j])
          invariant forall j :: i <= j < |ms| ==> ms[j] == was[j]
        {
          if ms[i].GaugeVec? {
            ms := ms[i := ms[i].(values := map[])];
          }
          i := i + 1;
        }
        assert ms == ResetEntry(was);
        metrics := metrics[k := ms];
        keys := keys - {k};
      }
      ghost var reset := ResetAll(old(metrics));
      assert metrics.Keys == reset.Keys;
      assert forall k :: k in metrics ==> metrics[k] == reset[k];
      assert metrics == reset;
      ResetKeepsShapes(old(metrics));
    }

    /**
     * One scrape: count it, fetch the description and then the values; on a
     * failed fetch mark the server down and change nothing else; otherwise
     * mark it up and run every figure through the registry.
     */
    method Scrape(descr: Fetch<StatisticsDescription>, stats: Fetch<Statistics>, formatCut: CutFormat)
      requires Valid()
      modifies this
      ensures Valid()
      ensures totalScrapes == old(totalScrapes) + 1
      ensures failedScrapes == old(failedScrapes)
      ensures up == (if descr.Ok? && stats.Ok? then 1.0 else 0.0)
      ensures metrics == (if descr.Ok? && stats.Ok? then Translate(old(metrics), descr.value, stats.value, formatCut)
                          else old(metrics))
    {
      totalScrapes := totalScrapes + 1;
      if descr.Err? {
        up := 0.0;
        return;
      }
      if stats.Err? {
        up := 0.0;
        return;
      }
      up := 1.0;
      var d := descr.value;
      var s := stats.value;

      var groups: map<string, StatisticGroup> := map[];
      for i := 0 to |d.groups|
        invariant groups == GroupIndex(d.groups[..i])
      {
        assert d.groups[..i + 1][..i] == d.groups[..i];
        groups := groups[d.groups[i].group := d.groups[i]];
      }
      assert d.groups[..|d.groups|] == d.groups;

      for j := 0 to |d.figures|
        invariant metrics == TranslateFigures(old(metrics), groups, d.figures[..j], s, formatCut)
        invariant totalScrapes == old(totalScrapes) + 1 && failedScrapes == old(failedScrapes) && up == 1.0
      {
        assert d.figures[..j + 1][..j] == d.figures[..j];
        ScrapeFigure(groups, d.figures[j], s, formatCut);
      }
      assert d.figures[..|d.figures|] == d.figures;
      TranslateKeepsShapes(old(metrics), groups, d.figures, s, formatCut);
    }

    /**
     * One iteration of the figure loop: skip a figure of an unknown group;
     * otherwise look up or create its entry and apply the type switch.
     */
    method ScrapeFigure(groups: map<string, StatisticGroup>, f: StatisticFigure, s: Statistics,
                        formatCut: CutFormat)
      modifies this
      ensures metrics == Step(old(metrics), groups, f, s, formatCut)
      ensures up == old(up) && totalScrapes == old(totalScrapes) && failedScrapes == old(failedScrapes)
    {
      if f.group in groups {
        var group := groups[f.group];
        // a group without values reads as an empty (nil) document
        var groupStats := GetGroup(s, f.group).GetOr(map[]);
        var key := MetricKey(group, f, "");
        var ms: Entry;
        if key in metrics {
          ms := metrics[key];
        } else {
          ms := NewMetric(group, f);
        }
        ms := UpdateEntry(ms, f, groupStats, formatCut);
        metrics := metrics[key := ms];
      }
    }

    /**
     * One collection cycle: reset the vectors, then scrape. After a failed
     * fetch every key and every gauge is as before and every vector is empty.
     */
    method Collect(descr: Fetch<StatisticsDescription>, stats: Fetch<Statistics>, formatCut: CutFormat)
      requires Valid()
      modifies this
      ensures Valid()
      ensures totalScrapes == old(totalScrapes) + 1
      ensures failedScrapes == old(failedScrapes)
      ensures up == (if descr.Ok? && stats.Ok? then 1.0 else 0.0)
      ensures descr.Ok? && stats.Ok? ==>
        metrics == Translate(ResetAll(old(metrics)), descr.value, stats.value, formatCut)
      ensures !(descr.Ok? && stats.Ok?) ==>
        metrics.Keys == old(metrics).Keys &&
        (forall k :: k in old(metrics) ==> SameCollectors(old(metrics)[k], metrics[k])) &&
        (forall k, i :: k in old(metrics) && 0 <= i < |old(metrics)[k]| && old(metrics)[k][i].Gauge? ==>
          metrics[k][i] == old(metrics)[k][i]) &&
        (forall k, i :: k in old(metrics) && 0 <= i < |old(metrics)[k]| && old(metrics)[k][i].GaugeVec? ==>
          metrics[k][i].values == map[])
    {
      ResetAllEffect(metrics);
      ResetMetrics();
      Scrape(descr, stats, formatCut);
    }
  }
}
