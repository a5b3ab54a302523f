/**
 * Metric naming and the shape of registry entries (exporter.go, `metricKey`
 * and `newMetric`).
 */
module Metrics {
  import opened Wrappers
  import opened Statistics

  /** The namespace every exported metric name is prefixed with. */
  const Namespace: string := "arangodb"

  /**
   * One collector of the metrics library, by value: a gauge that holds one
   * number (`None` until it is first set), or a gauge vector holding one
   * number per value of its single label.
   */
  datatype Collector =
    | Gauge(name: string, help: string, value: Option<real>)
    | GaugeVec(name: string, help: string, labelName: string, values: map<string, real>)

  /** The collectors the registry keeps for one metric key. */
  type Entry = seq<Collector>

  /** ASCII lower-casing of one character. */
  function LowerChar(c: char): char {
    if 'A' <= c <= 'Z' then (c as int - 'A' as int + 'a' as int) as char else c
  }

  /** `strings.ToLower`, character by character. */
  function Lower(s: string): (r: string)
    ensures |r| == |s|
    ensures forall i :: 0 <= i < |s| ==> r[i] == LowerChar(s[i])
  {
    if s == [] then [] else [LowerChar(s[0])] + Lower(s[1..])
  }

  /** `strings.Replace(s, from, to, -1)` for one-character `from` and `to`. */
  function ReplaceAll(s: string, from: char, to: char): (r: string)
    ensures |r| == |s|
    ensures forall i :: 0 <= i < |s| ==> r[i] == (if s[i] == from then to else s[i])
  {
    if s == [] then [] else [if s[0] == from then to else s[0]] + ReplaceAll(s[1..], from, to)
  }

  /** What one character of the group and figure names becomes in a metric key. */
  function Canon(c: char): char {
    if c == ' ' then '_' else LowerChar(c)
  }

  /** Lower-case, then replace every space by an underscore. */
  function Normalize(s: string): (r: string)
    ensures |r| == |s|
    ensures forall i :: 0 <= i < |s| ==> r[i] == Canon(s[i])
  {
    ReplaceAll(Lower(s), ' ', '_')
  }

  /** A normalized name has no spaces and no upper-case ASCII letters, and normalizing it again changes nothing. */
  lemma NormalizeIsCanonical(s: string)
    ensures forall i :: 0 <= i < |Normalize(s)| ==> Normalize(s)[i] != ' ' && !('A' <= Normalize(s)[i] <= 'Z')
    ensures Normalize(Normalize(s)) == Normalize(s)
  {
    var n := Normalize(s);
    assert forall i :: 0 <= i < |n| ==> Normalize(n)[i] == n[i];
  }

  /**
   * The registry key of a figure: the normalized "<group name>_<figure name>",
   * then the postfix as given, then "_" and the lower-cased units when there
   * are units.
   */
  function MetricKey(group: StatisticGroup, figure: StatisticFigure, postfix: string): (k: string)
    ensures |k| == |group.name| + 1 + |figure.name| + |postfix| + (if figure.units == "" then 0 else 1 + |figure.units|)
    ensures k[..|group.name| + 1 + |figure.name|] == Normalize(group.name + "_" + figure.name)
  {
    var result := Normalize(group.name + "_" + figure.name);
    var result := if postfix != "" then result + postfix else result;
    if figure.units != "" then result + "_" + Lower(figure.units) else result
  }

  /** The layout of a metric key, position by position. */
  lemma MetricKeyLayout(group: StatisticGroup, figure: StatisticFigure, postfix: string)
    ensures var base := group.name + "_" + figure.name;
      var k := MetricKey(group, figure, postfix);
      var p := |base| + |postfix|;
      |k| == p + (if figure.units == "" then 0 else 1 + |figure.units|) &&
      (forall i :: 0 <= i < |base| ==> k[i] == Canon(base[i])) &&
      k[|base|..p] == postfix &&
      (figure.units != "" ==>
        k[p] == '_' && forall i :: 0 <= i < |figure.units| ==> k[p + 1 + i] == LowerChar(figure.units[i]))
  {
    var base := group.name + "_" + figure.name;
    var k := MetricKey(group, figure, postfix);
    var p := |base| + |postfix|;
    assert k[..p] == Normalize(base) + postfix;
  }

  /** The fully qualified name the metrics library gives a collector. */
  function FqName(name: string): string {
    Namespace + "_" + name
  }

  /** An entry for a non-distribution figure: one gauge. */
  predicate SingleShape(ms: Entry) {
    |ms| == 1 && ms[0].Gauge?
  }

  /** An entry for a distribution figure: sum gauge, count gauge, bucket vector labelled "le". */
  predicate TripleShape(ms: Entry) {
    |ms| == 3 && ms[0].Gauge? && ms[1].Gauge? && ms[2].GaugeVec? && ms[2].labelName == "le"
  }

  /** The shape `newMetric` gives an entry for a figure of type `t`. */
  predicate FitsType(ms: Entry, t: FigureType) {
    if t.Distribution? then TripleShape(ms) else SingleShape(ms)
  }

  /** Every entry `newMetric` can create has one of the two shapes. */
  predicate WellShaped(ms: Entry) {
    SingleShape(ms) || TripleShape(ms)
  }

  /** A collector that was never set: a gauge without value, a vector without labels. */
  predicate Unset(c: Collector) {
    match c
    case Gauge(_, _, v) => v.None?
    case GaugeVec(_, _, _, vs) => vs == map[]
  }

  /**
   * The collectors created for a figure seen for the first time: sum, count
   * and bucket vector for a distribution, a single gauge otherwise.
   */
  function NewMetric(group: StatisticGroup, figure: StatisticFigure): (ms: Entry)
    ensures FitsType(ms, figure.figureType)
    ensures forall i :: 0 <= i < |ms| ==> Unset(ms[i]) && ms[i].help == figure.description
    ensures figure.figureType.Distribution? ==>
      ms[0].name == FqName(MetricKey(group, figure, "_sum")) &&
      ms[1].name == FqName(MetricKey(group, figure, "_count")) &&
      ms[2].name == FqName(MetricKey(group, figure, "_bucket"))
    ensures !figure.figureType.Distribution? ==> ms[0].name == FqName(MetricKey(group, figure, ""))
  {
    match figure.figureType
    case Distribution =>
      [ Gauge(FqName(MetricKey(group, figure, "_sum")), figure.description, None),
        Gauge(FqName(MetricKey(group, figure, "_count")), figure.description, None),
        GaugeVec(FqName(MetricKey(group, figure, "_bucket")), figure.description, "le", map[]) ]
    case _ =>
      [ Gauge(FqName(MetricKey(group, figure, "")), figure.description, None) ]
  }

  /** The naming test's group and its two accumulated figures, without and with units. */
  lemma MetricKeyExamples()
    ensures var g1 := StatisticGroup("g1", "g1-name", "Something g1");
      var f1 := StatisticFigure("g1", "f1", "f1-name", "descr-f1", Accumulated, "", []);
      var f1t := StatisticFigure("g1", "f1", "f1-name", "descr-f1", Accumulated, "tick", []);
      MetricKey(g1, f1, "_pf") == "g1-name_f1-name_pf" &&
      MetricKey(g1, f1t, "_pf") == "g1-name_f1-name_pf_tick" &&
      |NewMetric(g1, f1)| == 1 && |NewMetric(g1, f1t)| == 1
  {
    var base := "g1-name" + "_" + "f1-name";
    assert base == "g1-name_f1-name";
    NormalizeKeeps(base);
    NormalizeKeeps("tick");
    assert "g1-name_f1-name" + "_pf" == "g1-name_f1-name_pf";
    assert "g1-name_f1-name_pf" + "_" + "tick" == "g1-name_f1-name_pf_tick";
  }

  /**
   * For a distribution figure without units, the three collectors are named
   * after the figure's own key with "_sum", "_count" and "_bucket" appended.
   */
  lemma {:induction false} NewMetricDistributionNames(group: StatisticGroup, figure: StatisticFigure)
    requires figure.figureType.Distribution? && figure.units == ""
    ensures var ms := NewMetric(group, figure);
      var key := MetricKey(group, figure, "");
      ms[0].name == FqName(key) + "_sum" &&
      ms[1].name == FqName(key) + "_count" &&
      ms[2].name == FqName(key) + "_bucket"
  {
    var base := Normalize(group.name + "_" + figure.name);
    assert MetricKey(group, figure, "") == base;
    assert FqName(base + "_sum") == FqName(base) + "_sum";
    assert FqName(base + "_count") == FqName(base) + "_count";
    assert FqName(base + "_bucket") == FqName(base) + "_bucket";
  }

  /** The naming test's distribution figure. */
  lemma MetricKeyDistributionExample()
    ensures var g1 := StatisticGroup("g1", "g1-name", "Something g1");
      var f2 := StatisticFigure("g1", "f2", "f2-name", "descr-f2", Distribution, "", [0.1, 0.2]);
      MetricKey(g1, f2, "_pf") == "g1-name_f2-name_pf" &&
      |NewMetric(g1, f2)| == 3
  {
    var base := "g1-name" + "_" + "f2-name";
    assert base == "g1-name_f2-name";
    NormalizeKeeps(base);
    assert "g1-name_f2-name" + "_pf" == "g1-name_f2-name_pf";
  }

  /** A name made of lower-case letters, digits, '-' and '_' is its own normalization. */
  lemma NormalizeKeeps(s: string)
    requires forall i :: 0 <= i < |s| ==> 'a' <= s[i] <= 'z' || '0' <= s[i] <= '9' || s[i] == '-' || s[i] == '_'
    ensures Normalize(s) == s && Lower(s) == s
  {
  }
}
