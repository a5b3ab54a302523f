# ArangoDB statistics exporter: translation engine in Dafny

This project models the core of a Prometheus exporter for ArangoDB. On every
collection cycle the exporter fetches two documents from the server:

- the statistics description: groups and figures, each figure with a type, units and histogram cuts;
- the statistics values: a loosely typed JSON document.

It then translates them into a registry of metric collectors that persists
across scrapes.

Modules:

- `Wrappers` (`wrappers.dfy`): `Option`, and `Fetch` (`Ok(value) | Err`). `Fetch` stands for the result of one HTTP request to the server.
- `Statistics` (`statistics.dfy`, from `arangodb.go`): the schema types `StatisticGroup`, `StatisticFigure`, `FigureType` and `StatisticsDescription`, plus the values document. A value is a tagged union `Float | Int64 | Int | Array | Map | Other`. The four total accessors `GetGroup`, `GetFloat`, `GetInt` and `GetCounts` are here. `GetCounts` is a method with the source's preallocate-and-fill loop, proved equal to the declarative `CountsOf`.
- `Metrics` (`metrics.dfy`, from `exporter.go`): collectors by value. A collector is `Gauge(name, help, value)` or `GaugeVec(name, help, labelName, values)`. This module also has the key derivation `MetricKey` and the entry constructor `NewMetric`.
- `Translation` (`translation.dfy`, from `exporter.go`): what a successful scrape does to the registry, as pure functions of the old registry, the description and the values. These are the group index `GroupIndex`, the per-figure `Step` with its type switch `Dispatch`, and the cumulative buckets `ApplyBuckets`. It also holds the same loop as the source writes it (`DispatchAsWritten`, `TranslateFiguresAsWritten`), where `None` stands for a run-time panic.
- `Exporter` (`exporter.dfy`, from `exporter.go`): the `Exporter` class. Its fields `metrics`, `up`, `totalScrapes` and `failedScrapes` are updated in place by `Scrape`, `ResetMetrics` and `Collect` (reset, then scrape). `Scrape` is proved against `Translate`, `ResetMetrics` against `ResetAll`, and `Collect` against both.

Conventions:

- A nil values document behaves as the empty map, as a nil Go map does for reads. So a group missing from the values reads as an empty document.
- A gauge's value is `None` until it is first set. The metrics library reports such a gauge as 0.
- `fmt.Sprintf("%v", cut)` is the parameter `formatCut: real -> string`, about which nothing is assumed.
- `FigureType` is a string in the source. `ParseFigureType` maps "accumulated", "current" and "distribution" to the three known types and any other string to `Unrecognized`, so it never yields `Unrecognized` with a known name (`ValidFigureType`). An unrecognized figure gets one gauge, as in the `default` branch of `newMetric`, and no update.

Three behaviours of the code differ from what its own comments and help texts suggest. The model follows the code:

- The comment "Skip no group is found in the statistics" at `exporter.go:216` sits in an `if` whose body is empty. Nothing is skipped, so a figure whose group has no values still gets a registry entry.
- The doc comment of `GetFloat` at `arangodb.go:61` speaks of values that "could not be converted to a float". The code converts only `float64` and `int64`; a plain `int`, which `GetInt` and `GetCounts` accept, is refused.
- The counter with help text "Number of failed ArangoDB scrapes" (`exporter.go:141-145`) is never incremented.

## Model

| member | source | states |
|---|---|---|
| `Statistics.GetGroup` | arangodb.go:48-58 | present exactly when the key exists and holds a map, and then it is that map |
| `Statistics.ParseFigureType` | arangodb.go:34-41 | exactly the three known strings give the three known types; every other string is `Unrecognized` and never carries a known name |
| `Statistics.FigureTypeRoundTrip` | arangodb.go:34-41 | writing a parsed type gives back the string, and parsing a written valid type gives back the type |
| `Statistics.GetFloat` | arangodb.go:62-74 | present exactly for a float64 (as is) or an int64 (widened); absent for a missing key, a plain int or anything else |
| `Statistics.GetInt` | arangodb.go:103-115 | present exactly for an int64 or an int, with that value; absent for float64 and every other kind |
| `Statistics.Truncate` | arangodb.go:90-91 | a float64 converts to the integer next to it toward zero |
| `Statistics.CountsOf` | arangodb.go:78-99 | a present result comes from an array under the key and has its length |
| `Statistics.GetCounts` | arangodb.go:78-99 | all or nothing: present exactly when the key holds an array whose every element is int64, int or float64; then same length with element i converted; equals `CountsOf` |
| `Statistics.AccessorsOnNilDocument` | arangodb.go:48-115 | on a nil (empty) document every accessor reports absence |
| `Statistics.PlainIntOnlyForIntegers` | arangodb.go:62-115 | a plain int is rejected by `GetFloat` but accepted by `GetInt` and as a counts element |
| `Statistics.FloatAndIntAgree` | arangodb.go:62-115 | on an int64 `GetFloat` and `GetInt` agree; `GetInt` refuses every float64 |
| `Statistics.CountsOfEmptyArray` | arangodb.go:83-96 | an empty array gives an empty, present counts array |
| `Statistics.CountsOfRejectsWhole` | arangodb.go:85-94 | one unconvertible element makes the whole counts result absent, never a partial array |
| `Metrics.Normalize` | exporter.go:47 | lower-casing then replacing spaces maps each character independently to its canonical form |
| `Metrics.NormalizeIsCanonical` | exporter.go:47 | a normalized name has no spaces or upper-case letters and is a fixed point of normalization |
| `Metrics.MetricKey` | exporter.go:46-55 | the key starts with the normalized "group_figure" names and its length adds the postfix and, when units are non-empty, "_" and the units |
| `Metrics.MetricKeyLayout` | exporter.go:46-55 | the key is the normalized "group_figure" names, then the postfix unchanged, then "_" and the lower-cased units only when units are non-empty |
| `Metrics.MetricKeyExamples` | exporter_test.go:48-49 | the test's keys "g1-name_f1-name_pf" and "g1-name_f1-name_pf_tick", each with one collector |
| `Metrics.MetricKeyDistributionExample` | exporter_test.go:50 | the test's distribution key "g1-name_f2-name_pf" with three collectors |
| `Metrics.NewMetric` | exporter.go:58-90 | a distribution gets sum gauge, count gauge, "le" bucket vector named with "_sum", "_count", "_bucket"; any other type one gauge; all unset, help is the figure's description |
| `Metrics.NewMetricDistributionNames` | exporter.go:60-80 | without units, the three collector names are the figure's key followed by "_sum", "_count" and "_bucket" |
| `Translation.GroupIndexKeys` | exporter.go:204-207 | the group index holds exactly the ids occurring among the groups |
| `Translation.GroupIndexLastWins` | exporter.go:204-207 | on duplicate ids the index keeps the last group |
| `Translation.GroupIndex` | exporter.go:204-207 | every group id is indexed, and each id maps to a group carrying that id |
| `Translation.ApplyBuckets` | exporter.go:246-256 | the bucket writes keep every existing label and add the label of every bucket written |
| `Translation.BucketValue` | exporter.go:246-256 | a bucket label ends up holding the running total counts[0]+...+counts[i] of the last bucket i that carries it |
| `Translation.BucketOthersUnchanged` | exporter.go:246-256 | the bucket loop adds exactly the labels it writes and leaves every other label's value alone |
| `Translation.PlusInfHoldsTotal` | exporter.go:249-255 | with more counts than cuts, "+Inf" ends up holding the total of all counts |
| `Translation.BucketsExample` | exporter.go:246-256 | cuts [0.1, 0.2] with counts [3, 5, 2] give buckets 3, 8 and 10 |
| `Translation.Dispatch` | exporter.go:224-259 | the type switch, with sub-updates whose collector is missing skipped: keeps the entry's collectors, and changes nothing for an unrecognized type or a scalar figure without a value |
| `Translation.DispatchScalar` | exporter.go:225-229 | on any entry whose first collector is a gauge, that gauge is set to `GetFloat` of the identifier when present and unchanged otherwise, and the rest of the entry is untouched; on a distribution's entry under the same key this writes the `_sum` gauge |
| `Translation.DispatchDistribution` | exporter.go:230-258 | nothing changes without the sub-document; otherwise sum, count and buckets are each updated only when present |
| `Translation.DispatchAgreesWhereDefined` | exporter.go:224-259 | where the source's dispatch does not panic it matches `Dispatch`, and it never panics on an entry of its own type's shape |
| `Translation.DispatchAsWritten` | exporter.go:224-259 | the type switch as written: where it does not panic it keeps the collectors; it panics only for a known type on an entry that is not a distribution's |
| `Translation.DispatchAsWrittenPanics` | exporter.go:239-245 | a distribution meeting a single-gauge entry, with a count present, panics as written |
| `Translation.KeyIgnoresType` | exporter.go:218 | figures with equal names and units share a key whatever their types |
| `Translation.ScrapeAsWrittenPanics` | exporter.go:208-260 | a current figure followed by a same-named distribution of the same group makes the scrape as written panic |
| `Translation.Step` | exporter.go:208-259 | one figure: unknown group leaves the registry as is, otherwise exactly the figure's key is added |
| `Translation.TranslateFigures` | exporter.go:208-260 | the figure loop never removes a key |
| `Translation.Translate` | exporter.go:203-260 | a successful scrape keeps every key and has an entry under the key of every figure whose group is described |
| `Translation.StepAsWritten` | exporter.go:208-259 | one figure as written: where it does not panic it equals `Step`; it panics only for a known type of a known group |
| `Translation.TranslateFiguresAsWritten` | exporter.go:208-260 | where the loop as written does not panic it builds the same registry as `TranslateFigures` |
| `Translation.StepAsWrittenSucceeds` | exporter.go:218-259 | when the entry under the figure's key has the shape its type gets, the step as written does not panic and equals `Step` |
| `Translation.StepSkipsUnknownGroup` | exporter.go:209-213 | a figure whose group is not indexed leaves the registry unchanged |
| `Translation.StepCreatesWithoutValues` | exporter.go:214-223 | a figure of a known group without values still gets a fresh, unset entry under a new key |
| `Translation.StepKeeps` | exporter.go:218-223 | a step adds only the figure's key, leaves other entries equal and keeps the collectors of an existing entry |
| `Translation.CreatedKeysSnoc` | exporter.go:208-223 | the keys a figure list creates are those of its prefix plus the last figure's when its group is known |
| `Translation.RegistryOnlyGrows` | exporter.go:208-260 | the loop adds exactly the keys of figures with known groups, and existing entries keep key and collectors |
| `Translation.RegistryKeys` | exporter.go:208-223 | the loop's keys are the old keys plus those of the figures of known groups |
| `Translation.RegistryKeepsCollectors` | exporter.go:218-223 | every entry present before the loop is still there with the same collectors |
| `Translation.SameCollectorsKeepShape` | exporter.go:58-90 | an entry with the same collectors as a well-shaped one is well-shaped |
| `Translation.TranslateKeepsShapes` | exporter.go:208-260 | after the loop every entry still has a shape `newMetric` creates |
| `Translation.SingleFigureScrape` | exporter.go:204-229 | one group and one accumulated figure with a numeric value yield exactly one gauge, named by the key, holding that value |
| `Exporter.ResetAllEffect` | exporter.go:267-275 | reset keeps gauge values, empties every vector, and is idempotent |
| `Exporter.ResetAll` | exporter.go:267-275 | resetting keeps every key and the collectors of every entry |
| `Exporter.ResetKeepsShapes` | exporter.go:267-275 | reset keeps every entry well shaped |
| `Exporter.FillBuckets` | exporter.go:244-256 | the bucket loop with its running total `cummulative` produces `ApplyBuckets` of the counts |
| `Exporter.UpdateEntry` | exporter.go:224-259 | the type switch yields `Dispatch` of the entry and keeps its collectors |
| `Exporter.Exporter.constructor` | exporter.go:128-147 | a new exporter has an empty registry and zero gauges and counters |
| `Exporter.Exporter.ResetMetrics` | exporter.go:267-275 | the registry becomes `ResetAll` of the old one; `up` and the counters are unchanged |
| `Exporter.Exporter.ScrapeFigure` | exporter.go:208-259 | one iteration of the figure loop turns the registry into `Step` of the old one; `up` and the counters are unchanged |
| `Exporter.Exporter.Scrape` | exporter.go:181-261 | total scrapes +1, failed scrapes unchanged, up is 1 iff both fetches succeed; the registry is unchanged on a failed fetch and `Translate` of the old one otherwise |
| `Exporter.Exporter.Collect` | exporter.go:165-178 | reset then scrape; after a failed fetch every key, collector and gauge is as before and every vector is empty |

## Findings

| source | as written | input that shows it | evidently intended | confidence | as-written member | corrected member |
|---|---|---|---|---|---|---|
| exporter.go:239-245 | the distribution branch indexes `ms[1]` and `ms[2]` of whatever entry is stored under the key. The key does not depend on the figure type, so that entry can be a single gauge. | A group with two figures of equal name and units: the first "current", the second "distribution" with `{"count": 1.0}` in its values. The first creates a one-gauge entry; the second indexes `ms[1]` past its end and the collector panics. | the scrape never crashes on schema surprises; a sub-update whose collector is missing is skipped | not executed | `Translation.ScrapeAsWrittenPanics` | `Translation.Dispatch` (total, keeps collectors; with `TranslateKeepsShapes` and `TranslateFiguresAsWritten`) |

## Left out

- The HTTP requests of `GetStatistics` and `GetStatisticsDescription`, with status checks and JSON decoding, are not modelled. Their results are the `Fetch` inputs of `Scrape` and `Collect`.
- `NewExporter` is reduced to the initial state it builds. Its connection, TLS and JWT setup go through external libraries.
- The mutex in `Collect` is not modelled. The same goes for publishing to Prometheus channels in `Describe`, `Collect` and `collectMetrics`, and for logging. A cycle is modelled as one sequential reset followed by one scrape.
- The context timeout is not modelled. A timed-out request is just an `Err` fetch.
- `Exporter.FillBuckets`: the running total and the bucket values use unbounded integers and exact reals. int64 overflow of `cummulative` and float64 rounding are not modelled.
- `Statistics.GetFloat`: widening an int64 gives the exact real. Rounding for magnitudes above 2^53 is not modelled.
- `Statistics.Truncate`: Go's implementation-defined result for NaN, infinities and out-of-range floats is not modelled.
- `Metrics.Lower`: lower-cases ASCII letters only. The Unicode case mapping of `strings.ToLower` is not modelled.
- Gauge values are opaque reals.
- The text of `fmt.Sprintf("%v", cut)` is not modelled. It is an arbitrary function parameter.
- The metrics library's own behaviour is outside the model: descriptor validation, label cardinality, exposition format. Collectors are plain values.
- main.go, server.go, passthru.go and connection.go are not part of this model: startup, the HTTP server, pass-through forwarding and token handling.
