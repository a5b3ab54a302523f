/**
 * The statistics schema and the loosely-typed statistics document (arangodb.go).
 *
 * The values document is whatever the server's JSON decodes to, so every
 * accessor is total: a missing key or a value of the wrong kind gives
 * `None` instead of a failure.
 */
module Statistics {
  import opened Wrappers

  /** One raw value of the document, tagged with the dynamic Go type it decoded to. */
  datatype Value =
    | Float(f: real)                  // float64
    | Int64(i: int)                   // int64
    | Int(n: int)                     // int
    | Array(items: seq<Value>)        // []interface{}
    | Map(fields: map<string, Value>) // map[string]interface{}
    | Other                           // string, bool, null, anything else

  /** A (sub-)document of statistics values. A nil document reads as the empty map. */
  type Statistics = map<string, Value>

  /** A group of statistics, as described by the server. */
  datatype StatisticGroup = StatisticGroup(group: string, name: string, description: string)

  /**
   * The type of a figure. The source keeps it as a string; any string other
   * than the three known ones is `Unrecognized`.
   */
  datatype FigureType = Accumulated | Current | Distribution | Unrecognized(text: string)

  /** The strings of the three known figure types. */
  const AccumulatedText: string := "accumulated"
  const CurrentText: string := "current"
  const DistributionText: string := "distribution"

  /** A figure type as decoding can produce it: `Unrecognized` never carries a known name. */
  predicate ValidFigureType(t: FigureType) {
    t.Unrecognized? ==> t.text != AccumulatedText && t.text != CurrentText && t.text != DistributionText
  }

  /** The figure type a decoded type string stands for. */
  function ParseFigureType(text: string): (t: FigureType)
    ensures ValidFigureType(t)
    ensures t.Accumulated? <==> text == AccumulatedText
    ensures t.Current? <==> text == CurrentText
    ensures t.Distribution? <==> text == DistributionText
  {
    if text == AccumulatedText then Accumulated
    else if text == CurrentText then Current
    else if text == DistributionText then Distribution
    else Unrecognized(text)
  }

  /** The string a figure type is written as. */
  function FigureTypeText(t: FigureType): string {
    match t
    case Accumulated => AccumulatedText
    case Current => CurrentText
    case Distribution => DistributionText
    case Unrecognized(text) => text
  }

  /** Parsing and writing a figure type are inverse to each other on valid types. */
  lemma FigureTypeRoundTrip(text: string, t: FigureType)
    ensures FigureTypeText(ParseFigureType(text)) == text
    ensures ValidFigureType(t) ==> ParseFigureType(FigureTypeText(t)) == t
  {
  }

  /** A single statistic, as described by the server. */
  datatype StatisticFigure = StatisticFigure(
    group: string,
    identifier: string,
    name: string,
    description: string,
    figureType: FigureType,
    units: string,
    cuts: seq<real>)

  /** The schema returned by the statistics-description request. */
  datatype StatisticsDescription = StatisticsDescription(
    groups: seq<StatisticGroup>,
    figures: seq<StatisticFigure>)

  /** The nested document stored under `group`, or `None` (nil) when absent or not a map. */
  function GetGroup(s: Statistics, group: string): (r: Option<Statistics>)
    ensures r.Some? <==> group in s && s[group].Map?
    ensures r.Some? ==> r.value == s[group].fields
  {
    if group !in s then None
    else match s[group]
      case Map(fields) => Some(fields)
      case _ => None
  }

  /** The value under `key` as a float: a float64 as is, an int64 widened; nothing else. */
  function GetFloat(s: Statistics, key: string): (r: Option<real>)
    ensures r.Some? <==> key in s && (s[key].Float? || s[key].Int64?)
    ensures r.Some? && s[key].Float? ==> r.value == s[key].f
    ensures r.Some? && s[key].Int64? ==> r.value == s[key].i as real
  {
    if key !in s then None
    else match s[key]
      case Float(f) => Some(f)
      case Int64(i) => Some(i as real)
      case _ => None
  }

  /** The value under `key` as an integer: only int64 and int are accepted. */
  function GetInt(s: Statistics, key: string): (r: Option<int>)
    ensures r.Some? <==> key in s && (s[key].Int64? || s[key].Int?)
    ensures r.Some? && s[key].Int64? ==> r.value == s[key].i
    ensures r.Some? && s[key].Int? ==> r.value == s[key].n
  {
    if key !in s then None
    else match s[key]
      case Int64(i) => Some(i)
      case Int(n) => Some(n)
      case _ => None
  }

  /** Go's conversion of a float64 to int64: truncation toward zero. */
  function Truncate(x: real): (r: int)
    ensures 0.0 <= x ==> r as real <= x < r as real + 1.0
    ensures x < 0.0 ==> r as real - 1.0 < x <= r as real
  {
    if 0.0 <= x then x.Floor else -((-x).Floor)
  }

  /** An array element that `GetCounts` can convert. */
  predicate IsCount(v: Value) {
    v.Int64? || v.Int? || v.Float?
  }

  /** The integer an array element converts to in `GetCounts`. */
  function ToCount(v: Value): int
    requires IsCount(v)
  {
    match v
    case Int64(i) => i
    case Int(n) => n
    case Float(f) => Truncate(f)
  }

  /**
   * Reference definition of `GetCounts`: the converted array when the key
   * holds an array whose every element converts, otherwise nothing.
   */
  function CountsOf(s: Statistics, key: string): (r: Option<seq<int>>)
    ensures r.Some? ==> key in s && s[key].Array? && |r.value| == |s[key].items|
  {
    if key in s && s[key].Array? && forall j | 0 <= j < |s[key].items| :: IsCount(s[key].items[j]) then
      var items := s[key].items;
      Some(seq(|items|, j requires 0 <= j < |items| => ToCount(items[j])))
    else
      None
  }

  /**
   * The value under `key` as an integer array, all or nothing: one element
   * that is not an int64, int or float64 makes the whole result absent.
   */
  method GetCounts(s: Statistics, key: string) returns (r: Option<seq<int>>)
    ensures r.Some? <==>
      key in s && s[key].Array? && forall j :: 0 <= j < |s[key].items| ==> IsCount(s[key].items[j])
    ensures r.Some? ==>
      |r.value| == |s[key].items| &&
      forall j :: 0 <= j < |r.value| ==> r.value[j] == ToCount(s[key].items[j])
    ensures r == CountsOf(s, key)
  {
    if key !in s {
      return None;
    }
    var raw := s[key];
    if !raw.Array? {
      return None;
    }
    var items := raw.items;
    var result := new int[|items|];
    var i := 0;
    while i < |items|
      invariant 0 <= i <= |items|
      invariant forall j :: 0 <= j < i ==> IsCount(items[j]) && result[j] == ToCount(items[j])
    {
      var x := items[i];
      if x.Int64? {
        result[i] := x.i;
      } else if x.Int? {
        result[i] := x.n;
      } else if x.Float? {
        result[i] := Truncate(x.f);
      } else {
        return None;
      }
      i := i + 1;
    }
    assert result[..] == seq(|items|, j requires 0 <= j < |items| => ToCount(items[j]));
    r := Some(result[..]);
  }

  /** Every accessor reports absence, without failing, on a nil or empty document. */
  lemma AccessorsOnNilDocument(key: string)
    ensures GetGroup(map[], key) == None
    ensures GetFloat(map[], key) == None
    ensures GetInt(map[], key) == None
    ensures CountsOf(map[], key) == None
  {
  }

  /** A plain `int` is an integer for `GetInt` and `GetCounts` but not a float for `GetFloat`. */
  lemma PlainIntOnlyForIntegers(s: Statistics, key: string)
    requires key in s && s[key].Int?
    ensures GetFloat(s, key) == None
    ensures GetInt(s, key) == Some(s[key].n)
    ensures CountsOf(map[key := Array([s[key]])], key) == Some([s[key].n])
  {
    var items := [s[key]];
    assert seq(|items|, j requires 0 <= j < |items| => ToCount(items[j])) == [s[key].n];
  }

  /** `GetFloat` and `GetInt` agree on an int64, and `GetInt` refuses every float64. */
  lemma FloatAndIntAgree(s: Statistics, key: string)
    requires key in s
    ensures s[key].Int64? ==> GetFloat(s, key) == Some(s[key].i as real) && GetInt(s, key) == Some(s[key].i)
    ensures s[key].Float? ==> GetInt(s, key) == None
  {
  }

  /** An empty array is a valid, empty, counts array. */
  lemma CountsOfEmptyArray(s: Statistics, key: string)
    requires key in s && s[key] == Array([])
    ensures CountsOf(s, key) == Some([])
  {
    assert |CountsOf(s, key).value| == 0;
  }

  /** One element that does not convert makes the whole counts array absent. */
  lemma CountsOfRejectsWhole(s: Statistics, key: string, j: nat)
    requires key in s && s[key].Array? && j < |s[key].items|
    requires !IsCount(s[key].items[j])
    ensures CountsOf(s, key) == None
  {
  }
}
