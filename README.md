# prometheus-cloudwatch-federator: the sample-to-CloudWatch transformation in Dafny

The federator fetches a Prometheus federation snapshot. It turns each parsed
sample into a CloudWatch `MetricDatum` and sends the data to `PutMetricData`
in requests of at most 20. This project models that transformation and
proves its properties:

- **Dimension mapping** (`labels_to_dimensions`). Labels whose name or value is
  empty after `trim` are dropped. The rest are sorted by name with a stable
  sort and cut to at most 10 dimensions (`DIMENSION_MAX`). The cut-off part is
  what the source prints as a warning.
- **Datum building** (`scrape_to_metric_data`). Each sample becomes exactly one
  datum: the metric name copied verbatim, the mapped dimensions, the value and
  the timestamp. A counter, gauge or untyped value is passed through. A
  histogram or summary is sent as `0.0`.
- **Batching** (`chunks(METRIC_DATA_CHUNK_SIZE)` with size 20). The data are
  split losslessly and in order into requests of at most 20.
- **Submission loop.** Requests go out one at a time, and the first failed
  request ends the run.

Files, leaves first:

- `text.dfy` (module `Text`): Rust's `str::trim` with `char::is_whitespace`,
  the blank test `trim().is_empty()` (stated as "every character is
  whitespace" and proved equal to it), and the order that `String::cmp` uses. `String::cmp` compares UTF-8 bytes.
  UTF-8 keeps code-point order, so this is the lexicographic order on
  characters.
- `labels.dfy` (module `Labels`): the label and dimension type. It holds the
  stable sort by name, both as a function and as an in-place insertion sort on
  an array. It also proves that the sort output is sorted, is a permutation of
  the input, is stable, and is the only sorted arrangement that keeps each
  name's order. So Rust's `sort_by` gives the same result.
- `dimension_mapper.dfy` (module `DimensionMapper`): the filter, the
  sort-then-truncate method, and its properties. These include the two
  labelled test samples of the source.
- `batching.dfy` (module `Batching`): `chunks` and its properties.
- `federator.dfy` (module `Federator`): the value rule, the per-sample datum,
  the namespace default, the fail-fast request loop and the whole pass from
  samples to requests.

## Model

| member | source | states |
|---|---|---|
| `Text.TrimStart` | src/main.rs:71 | the result is a suffix of the input, everything removed is whitespace, and the result does not start with whitespace |
| `Text.TrimEnd` | src/main.rs:71 | the result is a prefix of the input, everything removed is whitespace, and the result does not end with whitespace |
| `Text.Trim` | src/main.rs:71 | `trim` is `trim_start` then `trim_end`; its own contract says only that it never lengthens its input, and its promise is `Text.TrimSpec` |
| `Text.IsBlank` | src/main.rs:71 | the test that a name or value is blank; it has no contract of its own, and `Text.IsBlankIsTrimEmpty` proves it holds exactly when trimming leaves the empty string |
| `Text.TrimSpec` | src/main.rs:71 | `trim` removes a blank prefix and a blank suffix and keeps the contiguous piece between them, which neither starts nor ends with whitespace and is empty exactly when the input is all whitespace |
| `Text.IsBlankIsTrimEmpty` | src/main.rs:71 | the blank test used by the filter holds exactly when trimming leaves the empty string |
| `Text.LexLe` | src/main.rs:78 | the `String` comparison used by the sort; it has no contract of its own, and its promises are `LexLeReflexive`, `LexLeAntisymmetric`, `LexLeTransitive`, `LexLeTotal` and `LexLeIffPrefixOrFirstDifference` |
| `Text.LexLeReflexive` | src/main.rs:78 | the name comparison orders every string at or below itself |
| `Text.LexLeAntisymmetric` | src/main.rs:78 | two names each at or below the other are equal |
| `Text.LexLeTransitive` | src/main.rs:78 | the name comparison is transitive |
| `Text.LexLeTotal` | src/main.rs:78 | any two names are comparable |
| `Text.LexLeIffPrefixOrFirstDifference` | src/main.rs:78 | the comparison is lexicographic order: `a <= b` exactly when `a` is a prefix of `b` or has the smaller character at the first difference |
| `Labels.Insert` | src/main.rs:78 | one stable insertion step of the sort; its own contract gives a result one longer than the input, and its promises are `InsertPermutes`, `InsertKeepsNameOrder` and `InsertSorted` |
| `Labels.SortByName` | src/main.rs:78 | the stable `sort_by` on names; its own contract keeps the length, and its promises are `SortByNamePermutes`, `SortByNameSorted`, `SortByNameStable` and `SortByNameOfSorted` |
| `Labels.InsertPermutes` | src/main.rs:78 | inserting a dimension adds exactly that element and changes nothing else in the multiset |
| `Labels.SortByNamePermutes` | src/main.rs:78 | the sort returns a permutation of its input |
| `Labels.SortByNameSorted` | src/main.rs:78 | the sort's result is ascending by name |
| `Labels.SortByNameStable` | src/main.rs:78 | for every name, the dimensions with that name come out in their input order, so the sort is stable as `sort_by` is |
| `Labels.SortedByNameUnique` | src/main.rs:78 | two sequences sorted by name with the same per-name order are equal, so any stable sort by name gives the same result |
| `Labels.SortedPermutationUnique` | src/main.rs:78 | when each name has one value, two sorted permutations of the same dimensions are equal |
| `Labels.SortByNameOfSorted` | src/main.rs:78 | input already in name order comes out unchanged |
| `Labels.ShiftGreater` | src/main.rs:78 | the shifting loop moves every prefix element whose name is greater than the inserted one a cell to the right, stops at the first one that is not greater, and leaves the rest of the array alone |
| `Labels.InsertIntoPrefix` | src/main.rs:78 | one in-place insertion step leaves the first i+1 cells equal to the sorted prefix with the new element inserted stably, and leaves the rest of the array alone |
| `Labels.SortByNameInPlace` | src/main.rs:78 | the in-place sort leaves the array holding the stable sort of its old contents |
| `DimensionMapper.Qualifies` | src/main.rs:71 | the filter's test, that name and value are both non-blank after trimming; it has no contract of its own, and `QualifyingMembers` and `QualifyingMultiplicity` carry its use |
| `DimensionMapper.Qualifying` | src/main.rs:69-76 | the filter and collect; its own contract says it never yields more labels than it is given, and its promises are `QualifyingMembers`, `QualifyingMultiplicity` and `QualifyingAll` |
| `DimensionMapper.DimensionsOf` | src/main.rs:78-88 | the dimensions returned; its own contract gives at most 10 of them, a prefix of the sorted qualifying labels, and its promises are `DimensionsWellFormed`, `NoTruncationWithinLimit` and `TruncationKeepsSmallestNames` |
| `DimensionMapper.DroppedOf` | src/main.rs:80-86 | the drained dimensions; its own contract says the kept dimensions followed by them are the whole sorted qualifying list, and `KeptAndDroppedAreQualifying` and `TruncationKeepsSmallestNames` carry the rest |
| `DimensionMapper.QualifyingMembers` | src/main.rs:69-76 | the collected dimensions are exactly the input labels whose name and value are both non-blank after trimming, copied unchanged |
| `DimensionMapper.LabelsToDimensions` | src/main.rs:68-89 | the method returns at most 10 dimensions, ascending by name, each an unaltered qualifying input label. Kept plus drained dimensions are the whole sorted qualifying list |
| `DimensionMapper.DimensionsWellFormed` | src/main.rs:68-89 | for every label set the result has at most 10 entries, is sorted by name, and contains only qualifying input labels |
| `DimensionMapper.KeptAndDroppedAreQualifying` | src/main.rs:78-86 | kept and dropped dimensions together are the sorted qualifying labels, a permutation of them, and contain a label exactly when it is in the input and qualifies |
| `DimensionMapper.NoTruncationWithinLimit` | src/main.rs:80-88 | with at most 10 qualifying labels, all of them are returned sorted and nothing is dropped |
| `DimensionMapper.TruncationKeepsSmallestNames` | src/main.rs:78-86 | with more than 10 qualifying labels exactly 10 are kept, the rest are dropped in sorted order, and no dropped name is smaller than a kept name |
| `DimensionMapper.QualifyingMultiplicity` | src/main.rs:69-76 | the filter keeps each qualifying label as many times as it occurs and removes every other label |
| `DimensionMapper.QualifyingAll` | src/main.rs:69-76 | when every label qualifies, the filter keeps the whole input |
| `DimensionMapper.LabelOrderIrrelevant` | src/main.rs:68-89 | when each name has one value, the label set's iteration order changes neither the kept nor the dropped dimensions |
| `DimensionMapper.BlankValueDropped` | src/main.rs:99-105 | a qualifying label and a label with a blank value, as in the test's `a="1", b=""`, give exactly the qualifying label and drop nothing, in either iteration order |
| `DimensionMapper.ElevenLabelsTruncatedToTen` | src/main.rs:100-106 | the eleven labels `a` to `k`, in any order, give exactly 10 dimensions `a` to `j`, and `k="11"` is dropped |
| `DimensionMapper.ElevenLabelsQualify` | src/main.rs:100 | all eleven test labels pass the blank filter |
| `DimensionMapper.ElevenLabelsSorted` | src/main.rs:100 | the eleven test labels are in ascending name order with distinct names |
| `DimensionMapper.DuplicateNamesKept` | src/main.rs:69-88 | two qualifying labels with the same name both survive, in input order, because names are never deduplicated. A sample's labels are a `HashMap`, so the program never passes two entries with one name; the lemma settles only what the mapping itself does |
| `Batching.Chunks` | src/main.rs:34 | the `chunks(size)` split; its own contract says it yields no chunk exactly for no data and never more chunks than data, and its promises are `FlattenChunks`, `ChunksShape` and `ChunkingIsUnique` |
| `Batching.FlattenChunks` | src/main.rs:34 | concatenating the chunks gives back the input exactly |
| `Batching.ChunksShape` | src/main.rs:34 | every chunk holds 1 to `size` elements, and every chunk but the last holds exactly `size` |
| `Batching.ChunkingIsUnique` | src/main.rs:34 | any split of that shape that concatenates to the input is the split `chunks` returns |
| `Batching.MetricDataChunksCount` | src/main.rs:12-34 | N data make ceil(N/20) requests, which is none for no data |
| `Batching.FortyFiveDataInThreeRequests` | src/main.rs:34 | 45 data go out as requests of 20, 20 and 5 |
| `Federator.SelectValue` | src/main.rs:51-57 | counter, gauge and untyped values pass through unchanged, and histograms and summaries become 0.0 |
| `Federator.ValueSelectionExamples` | src/main.rs:51-57 | `Counter(5.0)` gives 5.0, `Gauge(-2.5)` gives -2.5, `Untyped(0.0)` gives 0.0, and any histogram or summary gives 0.0 |
| `Federator.DatumOf` | src/main.rs:50-62 | the datum built for one sample; it has no contract of its own, and `MetricDataFields` and `MetricDataWellFormed` state its fields |
| `Federator.ScrapeToMetricData` | src/main.rs:46-66 | the map over the samples; its own contract gives one datum per sample, and its promises are `MetricDataFields`, `MetricDataWellFormed` and `MetricDataDistributes` |
| `Federator.MetricDataFields` | src/main.rs:46-66 | one datum per sample, in order; each datum has the metric name verbatim, the sample's mapped dimensions, its selected value and its timestamp |
| `Federator.MetricDataWellFormed` | src/main.rs:59 | every datum built has at most 10 dimensions, sorted by name, each a non-blank label of its sample |
| `Federator.MetricDataDistributes` | src/main.rs:47-63 | mapping a concatenation of samples is the concatenation of the mappings, so no sample is dropped, merged or reordered |
| `Federator.NamespaceOf` | src/main.rs:20-21 | the configured namespace is used whenever `env::var` returns `Ok`, and `"Prometheus"` when it returns an error |
| `Federator.Requests` | src/main.rs:35-38 | one request per chunk, in order, each carrying that chunk under the given namespace |
| `Federator.SubmitChunks` | src/main.rs:34-41 | requests go out in chunk order, each exactly once, until the first failure. A run completes exactly when all chunks were sent and accepted. A failed run has sent up to and including the failing request and nothing after it |
| `Federator.Federate` | src/main.rs:30-43 | the requests sent are the first ones of the `chunks(20)` split of the mapped samples, in order, under the configured namespace, each holding 1 to 20 data. The run completes exactly when all of them were sent and accepted, and then all data were sent. A failed run ends at the first failed request: every earlier one was accepted and nothing after it was sent |
| `Federator.FlattenPrefix` | src/main.rs:34-41 | the data of the chunks sent so far are a prefix of all the data |

## Left out

- The HTTP fetch with `reqwest::get` and `text()` (src/main.rs:23-25) is network I/O, and so is its failure.
- `Scrape::parse` (src/main.rs:27-28) is a foreign parser. The model starts from an already-parsed sequence of samples.
- `CloudWatchClient` and the `put_metric_data` call (src/main.rs:30, 40) are AWS SDK network calls. The client is the parameter `respond`, which gives the outcome of the i-th call.
- Reading `PROMETHEUS_FEDERATE_URL` and panicking when it is missing (src/main.rs:18-19) is process configuration. The result of `env::var("CLOUDWATCH_NAMESPACE")` is an `Option` parameter of `NamespaceOf`: `None` stands for both of its errors, an unset variable and a value that is not valid Unicode.
- `to_rfc3339` (src/main.rs:60) is a chrono formatter. A sample carries its timestamp as the RFC 3339 text, which is copied through.
- The `println!` warnings (src/main.rs:54, 82-85) are console output. The drained dimensions are returned as `dropped`. The unsupported-value warning is printed exactly when `IsScalar` is false.
- The tokio runtime and `async`/`await` (src/main.rs:16-17) play no part in the logic.
- `f64` is modelled as `real`. Values are only passed through or replaced by 0.0, so NaN, infinities and rounding are not modelled.
- `MetricDatum` fields the source leaves at their defaults (unit, statistic values, counts, values, storage resolution) are not modelled. The `Some(...)` wrappers around value, dimensions and timestamp are always present, so the model uses plain fields.
- The label set is a hash map. The model takes its entries as a sequence in iteration order. Order independence is proved for the case where each name has one value, which a map guarantees.
- Rust's `sort_by` is a merge-based stable sort. The model sorts in place by stable insertion sort. `SortedByNameUnique` and `SortByNameStable` show that every stable sort by name gives the same sequence.
- The `Vec` and its in-place `drain(DIMENSION_MAX..)` are modelled as splitting the sorted array into the kept prefix and the drained suffix, returned as two sequences.
- Batching.MetricDataChunksCount: the ceil(N/size) count is proved for the source's size 20 only. For a general size only the shape and the lossless round trip are proved.
