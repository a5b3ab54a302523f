/**
 * What one successful scrape does to the metric registry (exporter.go,
 * `scrape` after both fetches succeeded), as functions of the registry
 * before the scrape, the description and the values document.
 */
module Translation {
  import opened Wrappers
  import opened Statistics
  import opened Metrics

  /** The registry: collectors by metric key. */
  type Registry = map<string, Entry>

  /** Renders a histogram cut as a label value (`fmt.Sprintf("%v", cut)`), left abstract. */
  type CutFormat = real -> string

  // ---------------------------------------------------------------------------
  // Group index

  /** The group-id index of the description's groups; a later duplicate id wins. */
  function GroupIndex(groups: seq<StatisticGroup>): (idx: map<string, StatisticGroup>)
    ensures forall id :: id in idx ==> idx[id].group == id
    ensures forall j :: 0 <= j < |groups| ==> groups[j].group in idx
  {
    if groups == [] then map[]
    else GroupIndex(groups[..|groups| - 1])[groups[|groups| - 1].group := groups[|groups| - 1]]
  }

  /** The index holds exactly the ids that occur among the groups. */
  lemma {:induction false} GroupIndexKeys(groups: seq<StatisticGroup>)
    ensures GroupIndex(groups).Keys == set j | 0 <= j < |groups| :: groups[j].group
  {
    if groups != [] {
      var init := groups[..|groups| - 1];
      GroupIndexKeys(init);
      assert forall j :: 0 <= j < |init| ==> init[j] == groups[j];
      assert (set j | 0 <= j < |groups| :: groups[j].group)
          == (set j | 0 <= j < |init| :: init[j].group) + {groups[|groups| - 1].group};
    }
  }

  /** The index maps an id to the LAST group carrying it. */
  lemma {:induction false} GroupIndexLastWins(groups: seq<StatisticGroup>, j: nat)
    requires j < |groups|
    requires forall k :: j < k < |groups| ==> groups[k].group != groups[j].group
    ensures groups[j].group in GroupIndex(groups)
    ensures GroupIndex(groups)[groups[j].group] == groups[j]
  {
    if j < |groups| - 1 {
      GroupIndexLastWins(groups[..|groups| - 1], j);
    }
  }

  // ---------------------------------------------------------------------------
  // Cumulative histogram buckets

  /** The sum of a sequence of counts. */
  function Sum(xs: seq<int>): int {
    if xs == [] then 0 else Sum(xs[..|xs| - 1]) + xs[|xs| - 1]
  }

  /** The "le" label of bucket `i`: its cut, or "+Inf" past the last cut. */
  function BucketLabel(cuts: seq<real>, i: nat, formatCut: CutFormat): string {
    if i < |cuts| then formatCut(cuts[i]) else "+Inf"
  }

  /**
   * The bucket vector after the first `n` bucket writes: write `i` sets the
   * label of bucket `i` to the running total of `counts[0..i]`.
   */
  function ApplyBuckets(vec: map<string, real>, cuts: seq<real>, counts: seq<int>, formatCut: CutFormat, n: nat)
    : (r: map<string, real>)
    requires n <= |counts|
    ensures vec.Keys <= r.Keys
    ensures forall k :: 0 <= k < n ==> BucketLabel(cuts, k, formatCut) in r
  {
    if n == 0 then vec
    else ApplyBuckets(vec, cuts, counts, formatCut, n - 1)[BucketLabel(cuts, n - 1, formatCut) := Sum(counts[..n]) as real]
  }

  /**
   * The value a label ends up with is the running total at the last bucket
   * carrying that label.
   */
  lemma {:induction false} BucketValue(
    vec: map<string, real>, cuts: seq<real>, counts: seq<int>, formatCut: CutFormat, n: nat, i: nat)
    requires i < n <= |counts|
    requires forall k :: i < k < n ==> BucketLabel(cuts, k, formatCut) != BucketLabel(cuts, i, formatCut)
    ensures BucketLabel(cuts, i, formatCut) in ApplyBuckets(vec, cuts, counts, formatCut, n)
    ensures ApplyBuckets(vec, cuts, counts, formatCut, n)[BucketLabel(cuts, i, formatCut)] == Sum(counts[..i + 1]) as real
  {
    if i < n - 1 {
      BucketValue(vec, cuts, counts, formatCut, n - 1, i);
    }
  }

  /** The buckets add exactly the labels written; every other label keeps its value. */
  lemma {:induction false} BucketOthersUnchanged(
    vec: map<string, real>, cuts: seq<real>, counts: seq<int>, formatCut: CutFormat, n: nat)
    requires n <= |counts|
    ensures ApplyBuckets(vec, cuts, counts, formatCut, n).Keys
      == vec.Keys + set k | 0 <= k < n :: BucketLabel(cuts, k, formatCut)
    ensures forall l :: l in vec && (forall k :: 0 <= k < n ==> BucketLabel(cuts, k, formatCut) != l) ==>
      ApplyBuckets(vec, cuts, counts, formatCut, n)[l] == vec[l]
  {
    if n > 0 {
      BucketOthersUnchanged(vec, cuts, counts, formatCut, n - 1);
      assert (set k | 0 <= k < n :: BucketLabel(cuts, k, formatCut))
          == (set k | 0 <= k < n - 1 :: BucketLabel(cuts, k, formatCut)) + {BucketLabel(cuts, n - 1, formatCut)};
    }
  }

  /** When there are more counts than cuts, "+Inf" holds the total of all counts. */
  lemma PlusInfHoldsTotal(vec: map<string, real>, cuts: seq<real>, counts: seq<int>, formatCut: CutFormat)
    requires |counts| > |cuts|
    ensures "+Inf" in ApplyBuckets(vec, cuts, counts, formatCut, |counts|)
    ensures ApplyBuckets(vec, cuts, counts, formatCut, |counts|)["+Inf"] == Sum(counts) as real
  {
    BucketValue(vec, cuts, counts, formatCut, |counts|, |counts| - 1);
    assert counts[..|counts|] == counts;
  }

  /** Cuts [0.1, 0.2] with counts [3, 5, 2] give the buckets 3, 8 and 10. */
  lemma BucketsExample(formatCut: CutFormat)
    requires formatCut(0.1) == "0.1" && formatCut(0.2) == "0.2"
    ensures ApplyBuckets(map[], [0.1, 0.2], [3, 5, 2], formatCut, 3)
      == map["0.1" := 3.0, "0.2" := 8.0, "+Inf" := 10.0]
  {
    var counts := [3, 5, 2];
    assert counts[..1] == [3] && counts[..2] == [3, 5] && counts[..3] == counts;
    assert Sum([3]) == 3;
    assert Sum([3, 5]) == 8;
    assert Sum(counts) == 10;
  }

  // ---------------------------------------------------------------------------
  // Per-figure dispatch

  /** Set gauge `i` of an entry; an entry without a gauge there is left as it is. */
  function SetGauge(ms: Entry, i: nat, v: real): Entry {
    if i < |ms| && ms[i].Gauge? then ms[i := ms[i].(value := Some(v))] else ms
  }

  /** Write the buckets into vector `i` of an entry; an entry without a vector there is left as it is. */
  function SetBuckets(ms: Entry, i: nat, cuts: seq<real>, counts: seq<int>, formatCut: CutFormat): Entry {
    if i < |ms| && ms[i].GaugeVec? then
      ms[i := ms[i].(values := ApplyBuckets(ms[i].values, cuts, counts, formatCut, |counts|))]
    else ms
  }

  /**
   * The update of one figure's entry from its group's values: a current or
   * accumulated figure sets its gauge; a distribution sets sum, count and
   * buckets, each only when present. A sub-update whose collector is missing
   * from the entry is skipped.
   */
  function Dispatch(ms: Entry, f: StatisticFigure, groupStats: Statistics, formatCut: CutFormat): (r: Entry)
    ensures SameCollectors(ms, r)
    ensures f.figureType.Unrecognized? || (!f.figureType.Distribution? && GetFloat(groupStats, f.identifier).None?) ==> r == ms
  {
    match f.figureType
    case Current | Accumulated =>
      var value := GetFloat(groupStats, f.identifier);
      if value.Some? then SetGauge(ms, 0, value.value) else ms
    case Distribution =>
      var distStats := GetGroup(groupStats, f.identifier);
      if distStats.None? then ms
      else
        var sum := GetFloat(distStats.value, "sum");
        var ms1 := if sum.Some? then SetGauge(ms, 0, sum.value) else ms;
        var count := GetFloat(distStats.value, "count");
        var ms2 := if count.Some? then SetGauge(ms1, 1, count.value) else ms1;
        var counts := CountsOf(distStats.value, "counts");
        if counts.Some? then SetBuckets(ms2, 2, f.cuts, counts.value, formatCut) else ms2
    case Unrecognized(_) => ms
  }

  /** Two entries hold the same collectors (same kinds, names, help and label), whatever their values. */
  predicate SameCollectors(a: Entry, b: Entry) {
    |a| == |b| &&
    forall i :: 0 <= i < |a| ==>
      a[i].Gauge? == b[i].Gauge? && a[i].name == b[i].name && a[i].help == b[i].help &&
      (a[i].GaugeVec? ==> a[i].labelName == b[i].labelName)
  }

  /**
   * A current or accumulated figure sets the first gauge of its entry exactly
   * when `GetFloat` finds a value, and leaves the rest of the entry alone. On
   * an entry made for a distribution under the same key, that gauge is the
   * distribution's sum.
   */
  lemma DispatchScalar(ms: Entry, f: StatisticFigure, groupStats: Statistics, formatCut: CutFormat)
    requires f.figureType.Current? || f.figureType.Accumulated?
    requires 0 < |ms| && ms[0].Gauge?
    ensures var r := Dispatch(ms, f, groupStats, formatCut);
      |r| == |ms| && r[1..] == ms[1..] &&
      r[0].value == (if GetFloat(groupStats, f.identifier).Some? then GetFloat(groupStats, f.identifier) else ms[0].value)
  {
  }

  /**
   * A distribution updates sum, count and buckets independently: each one is
   * set when its value is present in the figure's sub-document and left as it
   * was otherwise.
   */
  lemma DispatchDistribution(ms: Entry, f: StatisticFigure, groupStats: Statistics, formatCut: CutFormat)
    requires f.figureType.Distribution?
    requires TripleShape(ms)
    ensures var r := Dispatch(ms, f, groupStats, formatCut);
      var dist := GetGroup(groupStats, f.identifier);
      TripleShape(r) &&
      (dist.None? ==> r == ms) &&
      (dist.Some? ==>
        r[0].value == (if GetFloat(dist.value, "sum").Some? then GetFloat(dist.value, "sum") else ms[0].value) &&
        r[1].value == (if GetFloat(dist.value, "count").Some? then GetFloat(dist.value, "count") else ms[1].value) &&
        r[2].values == (if CountsOf(dist.value, "counts").Some?
                        then ApplyBuckets(ms[2].values, f.cuts, CountsOf(dist.value, "counts").value, formatCut,
                                          |CountsOf(dist.value, "counts").value|)
                        else ms[2].values))
  {
  }

  // ---------------------------------------------------------------------------
  // Per-figure dispatch as the source writes it

  /** `ms[i].(prometheus.Gauge).Set(v)`: fails (a run-time panic) when there is no gauge at `i`. */
  function SetGaugeChecked(ms: Entry, i: nat, v: real): Option<Entry> {
    if i < |ms| && ms[i].Gauge? then Some(ms[i := ms[i].(value := Some(v))]) else None
  }

  /** The bucket writes into `ms[i].(*prometheus.GaugeVec)`: fail when there is no vector at `i`. */
  function SetBucketsChecked(ms: Entry, i: nat, cuts: seq<real>, counts: seq<int>, formatCut: CutFormat)
    : Option<Entry>
  {
    if i < |ms| && ms[i].GaugeVec? then
      Some(ms[i := ms[i].(values := ApplyBuckets(ms[i].values, cuts, counts, formatCut, |counts|))])
    else None
  }

  /**
   * The dispatch as written: it indexes the entry found under the key
   * without checking its length, so `None` stands for the panic the source
   * raises when the entry has fewer collectors than the figure's type uses.
   */
  function DispatchAsWritten(ms: Entry, f: StatisticFigure, groupStats: Statistics, formatCut: CutFormat)
    : (r: Option<Entry>)
    ensures r.Some? ==> SameCollectors(ms, r.value)
    ensures r.None? ==> !f.figureType.Unrecognized? && !TripleShape(ms)
  {
    match f.figureType
    case Current | Accumulated =>
      var value := GetFloat(groupStats, f.identifier);
      if value.Some? then SetGaugeChecked(ms, 0, value.value) else Some(ms)
    case Distribution =>
      var distStats := GetGroup(groupStats, f.identifier);
      if distStats.None? then Some(ms)
      else
        var sum := GetFloat(distStats.value, "sum");
        var r1 := if sum.Some? then SetGaugeChecked(ms, 0, sum.value) else Some(ms);
        if r1.None? then None
        else
          var count := GetFloat(distStats.value, "count");
          var r2 := if count.Some? then SetGaugeChecked(r1.value, 1, count.value) else r1;
          if r2.None? then None
          else
            var counts := CountsOf(distStats.value, "counts");
            if counts.Some? then SetBucketsChecked(r2.value, 2, f.cuts, counts.value, formatCut) else r2
    case Unrecognized(_) => Some(ms)
  }

  /**
   * Wherever the dispatch as written does not fail, it does what `Dispatch`
   * does; and it never fails on an entry of the shape its figure type gets
   * from `NewMetric`.
   */
  lemma DispatchAgreesWhereDefined(ms: Entry, f: StatisticFigure, groupStats: Statistics, formatCut: CutFormat)
    ensures DispatchAsWritten(ms, f, groupStats, formatCut).Some? ==>
      DispatchAsWritten(ms, f, groupStats, formatCut).value == Dispatch(ms, f, groupStats, formatCut)
    ensures FitsType(ms, f.figureType) ==>
      DispatchAsWritten(ms, f, groupStats, formatCut) == Some(Dispatch(ms, f, groupStats, formatCut))
  {
  }

  /**
   * A distribution figure meeting a single-gauge entry under its key, with a
   * count in its values, makes the dispatch as written fail.
   */
  lemma DispatchAsWrittenPanics(ms: Entry, f: StatisticFigure, groupStats: Statistics, formatCut: CutFormat)
    requires SingleShape(ms) && f.figureType.Distribution?
    requires GetGroup(groupStats, f.identifier).Some?
    requires GetFloat(GetGroup(groupStats, f.identifier).value, "count").Some?
    ensures DispatchAsWritten(ms, f, groupStats, formatCut).None?
  {
  }

  // ---------------------------------------------------------------------------
  // The figure loop

  /**
   * One iteration of the figure loop: a figure of an unknown group is
   * skipped; otherwise its entry is looked up (or created) under its key and
   * dispatched. A group missing from the values reads as an empty document.
   */
  function Step(m: Registry, groups: map<string, StatisticGroup>, f: StatisticFigure, stats: Statistics,
                formatCut: CutFormat): (r: Registry)
    ensures f.group !in groups ==> r == m
    ensures f.group in groups ==> r.Keys == m.Keys + {MetricKey(groups[f.group], f, "")}
  {
    if f.group !in groups then m
    else
      var group := groups[f.group];
      var groupStats := GetGroup(stats, f.group).GetOr(map[]);
      var key := MetricKey(group, f, "");
      var ms := if key in m then m[key] else NewMetric(group, f);
      m[key := Dispatch(ms, f, groupStats, formatCut)]
  }

  /** The registry after the figure loop ran over `figures`, in order. */
  function TranslateFigures(m: Registry, groups: map<string, StatisticGroup>, figures: seq<StatisticFigure>,
                            stats: Statistics, formatCut: CutFormat): (r: Registry)
    ensures m.Keys <= r.Keys
  {
    if figures == [] then m
    else Step(TranslateFigures(m, groups, figures[..|figures| - 1], stats, formatCut),
              groups, figures[|figures| - 1], stats, formatCut)
  }

  /** The registry after a successful scrape of `descr` and `stats`. */
  function Translate(m: Registry, descr: StatisticsDescription, stats: Statistics, formatCut: CutFormat)
    : (r: Registry)
    ensures m.Keys <= r.Keys
    ensures forall i :: 0 <= i < |descr.figures| && descr.figures[i].group in GroupIndex(descr.groups) ==>
      MetricKey(GroupIndex(descr.groups)[descr.figures[i].group], descr.figures[i], "") in r
  {
    RegistryOnlyGrows(m, GroupIndex(descr.groups), descr.figures, stats, formatCut);
    TranslateFigures(m, GroupIndex(descr.groups), descr.figures, stats, formatCut)
  }

  /** One iteration as written; `None` when its dispatch panics. */
  function StepAsWritten(m: Registry, groups: map<string, StatisticGroup>, f: StatisticFigure, stats: Statistics,
                         formatCut: CutFormat): (r: Option<Registry>)
    ensures r.Some? ==> r.value == Step(m, groups, f, stats, formatCut)
    ensures r.None? ==> f.group in groups && !f.figureType.Unrecognized?
  {
    if f.group !in groups then Some(m)
    else
      var group := groups[f.group];
      var groupStats := GetGroup(stats, f.group).GetOr(map[]);
      var key := MetricKey(group, f, "");
      var ms := if key in m then m[key] else NewMetric(group, f);
      var r := DispatchAsWritten(ms, f, groupStats, formatCut);
      DispatchAgreesWhereDefined(ms, f, groupStats, formatCut);
      if r.None? then None else Some(m[key := r.value])
  }

  /** The figure loop as written; `None` when some iteration panics. */
  function TranslateFiguresAsWritten(m: Registry, groups: map<string, StatisticGroup>,
                                     figures: seq<StatisticFigure>, stats: Statistics,
                                     formatCut: CutFormat): (r: Option<Registry>)
    ensures r.Some? ==> r.value == TranslateFigures(m, groups, figures, stats, formatCut)
  {
    if figures == [] then Some(m)
    else
      var r := TranslateFiguresAsWritten(m, groups, figures[..|figures| - 1], stats, formatCut);
      if r.None? then None else StepAsWritten(r.value, groups, figures[|figures| - 1], stats, formatCut)
  }

  // ---------------------------------------------------------------------------
  // Properties of the figure loop

  /** The key depends only on the group's name and the figure's name and units, not on its type. */
  lemma KeyIgnoresType(group: StatisticGroup, f: StatisticFigure, g: StatisticFigure)
    requires f.name == g.name && f.units == g.units
    ensures MetricKey(group, f, "") == MetricKey(group, g, "")
  {
  }

  /**
   * Two figures of one group with equal names and units, the first current
   * and the second a distribution with a count in its values: the first
   * creates a single-gauge entry, and the second then indexes past its end.
   */
  lemma {:induction false} ScrapeAsWrittenPanics(group: StatisticGroup, fc: StatisticFigure, fd: StatisticFigure,
                                                 stats: Statistics, formatCut: CutFormat)
    requires fc.figureType.Current? && fd.figureType.Distribution?
    requires fc.group == fd.group == group.group
    requires fc.name == fd.name && fc.units == fd.units
    requires stats == map[group.group := Map(map[fd.identifier := Map(map["count" := Float(1.0)])])]
    ensures TranslateFiguresAsWritten(map[], map[group.group := group], [fc, fd], stats, formatCut).None?
  {
    var groups := map[group.group := group];
    var key := MetricKey(group, fc, "");
    KeyIgnoresType(group, fc, fd);
    assert [fc, fd][..1] == [fc];
    assert [fc][..0] == [];
    var r1 := StepAsWritten(map[], groups, fc, stats, formatCut);
    assert r1.Some? && key in r1.value && SingleShape(r1.value[key]);
    assert TranslateFiguresAsWritten(map[], groups, [fc], stats, formatCut) == r1;
    DispatchAsWrittenPanics(r1.value[key], fd, GetGroup(stats, fd.group).value, formatCut);
  }

  /** A figure whose group is not in the index changes nothing. */
  lemma StepSkipsUnknownGroup(m: Registry, groups: map<string, StatisticGroup>, f: StatisticFigure,
                              stats: Statistics, formatCut: CutFormat)
    requires f.group !in groups
    ensures Step(m, groups, f, stats, formatCut) == m
  {
  }

  /**
   * A figure of a known group whose values are missing still gets its
   * entry, fresh and unset, when its key is new.
   */
  lemma StepCreatesWithoutValues(m: Registry, groups: map<string, StatisticGroup>, f: StatisticFigure,
                                 stats: Statistics, formatCut: CutFormat)
    requires f.group in groups && GetGroup(stats, f.group).None?
    requires MetricKey(groups[f.group], f, "") !in m
    ensures var key := MetricKey(groups[f.group], f, "");
      Step(m, groups, f, stats, formatCut) == m[key := NewMetric(groups[f.group], f)]
  {
    var empty: Statistics := map[];
    AccessorsOnNilDocument(f.identifier);
    assert GetGroup(stats, f.group).GetOr(map[]) == empty;
  }

  /** A step changes only the figure's own entry, and keeps the collectors of that entry if it existed. */
  lemma StepKeeps(m: Registry, groups: map<string, StatisticGroup>, f: StatisticFigure,
                  stats: Statistics, formatCut: CutFormat)
    ensures var r := Step(m, groups, f, stats, formatCut);
      (f.group !in groups ==> r == m) &&
      (f.group in groups ==>
        var key := MetricKey(groups[f.group], f, "");
        r.Keys == m.Keys + {key} &&
        (forall k :: k in m && k != key ==> r[k] == m[k]) &&
        (key in m ==> SameCollectors(m[key], r[key])) &&
        (key !in m ==> SameCollectors(NewMetric(groups[f.group], f), r[key])))
  {
    if f.group in groups {
      var group := groups[f.group];
      var key := MetricKey(group, f, "");
      var ms := if key in m then m[key] else NewMetric(group, f);
    }
  }

  /** The keys the figure loop creates: one per figure of a known group. */
  function CreatedKeys(groups: map<string, StatisticGroup>, figures: seq<StatisticFigure>): set<string> {
    set i | 0 <= i < |figures| && figures[i].group in groups :: MetricKey(groups[figures[i].group], figures[i], "")
  }

  /** The keys created by a non-empty figure list: those of all but the last figure, and the last one's. */
  lemma CreatedKeysSnoc(groups: map<string, StatisticGroup>, figures: seq<StatisticFigure>)
    requires figures != []
    ensures var init := figures[..|figures| - 1];
      var f := figures[|figures| - 1];
      CreatedKeys(groups, figures)
        == CreatedKeys(groups, init) + (if f.group in groups then {MetricKey(groups[f.group], f, "")} else {})
  {
    var init := figures[..|figures| - 1];
    assert forall i :: 0 <= i < |init| ==> init[i] == figures[i];
  }

  /**
   * The registry only grows: the figure loop adds exactly the keys of the
   * figures of known groups, and every entry already present keeps its key
   * and its collectors.
   */
  lemma RegistryOnlyGrows(m: Registry, groups: map<string, StatisticGroup>,
                          figures: seq<StatisticFigure>, stats: Statistics, formatCut: CutFormat)
    ensures var r := TranslateFigures(m, groups, figures, stats, formatCut);
      r.Keys == m.Keys + CreatedKeys(groups, figures) &&
      forall k :: k in m ==> SameCollectors(m[k], r[k])
  {
    RegistryKeys(m, groups, figures, stats, formatCut);
    RegistryKeepsCollectors(m, groups, figures, stats, formatCut);
  }

  /** The figure loop adds exactly the keys of the figures of known groups. */
  lemma {:induction false} RegistryKeys(m: Registry, groups: map<string, StatisticGroup>,
                                        figures: seq<StatisticFigure>, stats: Statistics, formatCut: CutFormat)
    ensures TranslateFigures(m, groups, figures, stats, formatCut).Keys == m.Keys + CreatedKeys(groups, figures)
  {
    if figures != [] {
      RegistryKeys(m, groups, figures[..|figures| - 1], stats, formatCut);
      CreatedKeysSnoc(groups, figures);
    }
  }

  /** Every entry present before the figure loop keeps its collectors. */
  lemma {:induction false} RegistryKeepsCollectors(m: Registry, groups: map<string, StatisticGroup>,
                                                   figures: seq<StatisticFigure>, stats: Statistics,
                                                   formatCut: CutFormat)
    ensures var r := TranslateFigures(m, groups, figures, stats, formatCut);
      forall k :: k in m ==> k in r && SameCollectors(m[k], r[k])
  {
    if figures != [] {
      var init := figures[..|figures| - 1];
      var f := figures[|figures| - 1];
      RegistryKeepsCollectors(m, groups, init, stats, formatCut);
      var mid := TranslateFigures(m, groups, init, stats, formatCut);
      StepKeeps(mid, groups, f, stats, formatCut);
      var r := Step(mid, groups, f, stats, formatCut);
      forall k | k in m
        ensures k in r && SameCollectors(m[k], r[k])
      {
        SameCollectorsTrans(m[k], mid[k], r[k]);
      }
    }
  }

  /** Keeping the same collectors is transitive. */
  lemma SameCollectorsTrans(a: Entry, b: Entry, c: Entry)
    requires SameCollectors(a, b) && SameCollectors(b, c)
    ensures SameCollectors(a, c)
  {
  }

  /** Every entry of the registry has one of the two shapes `NewMetric` creates. */
  predicate AllWellShaped(m: Registry) {
    forall k :: k in m ==> WellShaped(m[k])
  }

  /** Collectors kept the same keep the shape. */
  lemma SameCollectorsKeepShape(a: Entry, b: Entry)
    requires SameCollectors(a, b) && WellShaped(a)
    ensures WellShaped(b)
  {
    if TripleShape(a) {
      assert b[2].GaugeVec? && b[2].labelName == a[2].labelName;
    }
  }

  /** The figure loop keeps every entry well shaped. */
  lemma {:induction false} TranslateKeepsShapes(m: Registry, groups: map<string, StatisticGroup>,
                                                figures: seq<StatisticFigure>, stats: Statistics, formatCut: CutFormat)
    requires AllWellShaped(m)
    ensures AllWellShaped(TranslateFigures(m, groups, figures, stats, formatCut))
  {
    if figures != [] {
      var init := figures[..|figures| - 1];
      var f := figures[|figures| - 1];
      TranslateKeepsShapes(m, groups, init, stats, formatCut);
      var mid := TranslateFigures(m, groups, init, stats, formatCut);
      StepKeeps(mid, groups, f, stats, formatCut);
      if f.group in groups {
        var key := MetricKey(groups[f.group], f, "");
        var r := Step(mid, groups, f, stats, formatCut);
        if key in mid {
          SameCollectorsKeepShape(mid[key], r[key]);
        } else {
          SameCollectorsKeepShape(NewMetric(groups[f.group], f), r[key]);
        }
      }
    }
  }

  /**
   * The source's figure step cannot fail when the entry already under the
   * figure's key has the shape `NewMetric` gives the figure's type; a new key
   * always gets such an entry.
   */
  lemma StepAsWrittenSucceeds(m: Registry, groups: map<string, StatisticGroup>, f: StatisticFigure,
                              stats: Statistics, formatCut: CutFormat)
    requires f.group in groups
    requires var key := MetricKey(groups[f.group], f, ""); key in m ==> FitsType(m[key], f.figureType)
    ensures StepAsWritten(m, groups, f, stats, formatCut) == Some(Step(m, groups, f, stats, formatCut))
  {
    var group := groups[f.group];
    var key := MetricKey(group, f, "");
    var ms := if key in m then m[key] else NewMetric(group, f);
    DispatchAgreesWhereDefined(ms, f, GetGroup(stats, f.group).GetOr(map[]), formatCut);
  }

  /**
   * A description with one group and one accumulated figure whose value is a
   * number yields exactly one gauge, named by the figure's key, holding that
   * number.
   */
  lemma SingleFigureScrape(group: StatisticGroup, f: StatisticFigure, v: real, formatCut: CutFormat)
    requires f.figureType.Accumulated? && f.group == group.group
    ensures var stats := map[group.group := Map(map[f.identifier := Float(v)])];
      var key := MetricKey(group, f, "");
      Translate(map[], StatisticsDescription([group], [f]), stats, formatCut)
        == map[key := [Gauge(FqName(key), f.description, Some(v))]]
  {
    var descr := StatisticsDescription([group], [f]);
    assert descr.groups[..0] == [];
    assert GroupIndex(descr.groups) == map[group.group := group];
    assert descr.figures[..0] == [];
    var stats := map[group.group := Map(map[f.identifier := Float(v)])];
    var doc := map[f.identifier := Float(v)];
    assert GetGroup(stats, f.group) == Some(doc);
    assert GetFloat(doc, f.identifier) == Some(v);
    var key := MetricKey(group, f, "");
    var ms := NewMetric(group, f);
    assert ms == [Gauge(FqName(key), f.description, None)];
    assert Dispatch(ms, f, doc, formatCut) == [Gauge(FqName(key), f.description, Some(v))];
    assert TranslateFigures(map[], GroupIndex(descr.groups), descr.figures, stats, formatCut)
      == Step(map[], GroupIndex(descr.groups), f, stats, formatCut);
  }
}
