# BRKGA-MP-IPR (Python): configuration, enumerations and the TSP example

This project models, in Dafny, the deterministic core of the Python BRKGA-MP-IPR library
(Biased Random-Key Genetic Algorithm with Multiple Parents and Implicit Path Relinking) and
proves properties of the model. It covers:

- **the parameter records** `BrkgaParams` and `ExternalControlParams`, with their defaults and
  field declaration order (module `Types`);
- **the configuration reader and writer** `load_configuration` and `write_configuration`
  (module `TypesIO`). The reader is a line-oriented `name value` parser with ordered error
  cases: an empty file, a bad token count, an unknown name, a bad value, and missing
  parameters. The writer is its serialiser. Loading what the writer wrote gives back the
  records;
- **the enumerations** (module `Enums`). This includes `ParsingEnum`'s case-insensitive name
  lookup and its round trip with `str`. It also includes the value-only plain enums, and the
  `PathRelinkingResult` flag, whose bitwise or is the maximum of a chain;
- **the TSP example**:
  - the upper-triangular distance store and its loader (`TspInstance`);
  - the nearest-neighbour tour builder (`GreedyTour`);
  - the random-key decoder that sorts `(key, index)` pairs into a tour, and the warm-start
    chromosome built from a tour (`TspDecoder`);
- **the two test decoders** `SumDecode` and `RankDecode`, including their in-place rewrite
  of the chromosome (`Decoders`).

Shared helpers:

- `Wrappers`: `Option`, `Result`.
- `Sequences`: the maximum and sum of a list of reals.
- `Tours`: permutations and path costs.
- `Text`: ASCII `strip`, `split`, `upper`, `lower`, `readlines`, and integer formatting.

Where the code does a thing step by step, the model does too:

- `LoadConfiguration`, `RunLines`, `MissingNames` and `WriteConfiguration` are loops;
- `Greedy` keeps the `while` loop over the remaining set;
- the decoders write into an `array` of keys.

Each of these methods is proved equal to a specification function. The properties are
stated and proved about that function.

## Model

| member | source | states |
|---|---|---|
| Enums.MissingLookup | brkga_mp_ipr/enums.py:36-46 | `_missing_`: a member is returned only if its upper-cased name equals the upper-cased text; nothing is returned iff no member's name matches |
| Enums.ValueLookup | brkga_mp_ipr/enums.py:56-63 | lookup by value returns a member holding that value, and nothing iff no member has it |
| Enums.ParsingConstructDenotes | brkga_mp_ipr/enums.py:36-52 | for an enum with unique values and distinct letter-initial names, `Cls(x)` is `m` iff `x` is `m`'s value or a text equal to `m`'s name ignoring case (both directions); other integers and partial names give nothing |
| Enums.IntTextIsNoName | brkga_mp_ipr/enums.py:43-46 | the text of an integer never matches a name that starts with a letter, so an out-of-range integer is rejected rather than matched by name |
| Enums.NameRoundTrip | brkga_mp_ipr/enums.py:43-52 | parsing `str(m)`, or its lower-case form, yields `m` again |
| Enums.PlainConstructDenotes | brkga_mp_ipr/types.py:30-37 | for a plain `Enum`, `Cls(x)` is `m` iff `x` is the integer value of `m`; names are never accepted |
| Enums.SensesWellFormed | brkga_mp_ipr/enums.py:56-63 | `Sense` has unique values and distinct names that start with a letter, and its member list is complete |
| Enums.BiasFunctionTypesWellFormed | brkga_mp_ipr/enums.py:67-93 | the same for the seven bias functions, values 0 to 6 |
| Enums.PathRelinkingTypesWellFormed | brkga_mp_ipr/enums.py:97-109 | the same for `PathRelinkingType` |
| Enums.PathRelinkingSelectionsWellFormed | brkga_mp_ipr/enums.py:113-124 | the same for `PathRelinkingSelection` |
| Enums.ShakingTypesWellFormed | brkga_mp_ipr/enums.py:151-167 | the same for `ShakingType` |
| Enums.ParseSense | brkga_mp_ipr/enums.py:56-63 | `Sense(x)` is `m` iff `x` is `m`'s value or names `m` ignoring case |
| Enums.ParseBiasFunctionType | brkga_mp_ipr/enums.py:67-93 | `BiasFunctionType(x)` is `m` iff `x` is `m`'s value or names `m` ignoring case |
| Enums.ParsePathRelinkingType | brkga_mp_ipr/enums.py:97-109 | `PathRelinkingType(x)` is `m` iff `x` is `m`'s value or names `m` ignoring case |
| Enums.ParsePathRelinkingSelection | brkga_mp_ipr/enums.py:113-124 | `PathRelinkingSelection(x)` is `m` iff `x` is `m`'s value or names `m` ignoring case |
| Enums.ParseShakingType | brkga_mp_ipr/enums.py:151-167 | `ShakingType(x)` is `m` iff `x` is `m`'s value or names `m` ignoring case |
| Enums.PlainSense | brkga_mp_ipr/types.py:30-37 | the plain `Sense(x)` is `m` iff `x` is `m`'s integer value |
| Enums.PlainBiasFunction | brkga_mp_ipr/types.py:41-67 | the plain `BiasFunction(x)` is `m` iff `x` is `m`'s integer value |
| Enums.SenseExamples | tests/test_0_enums.py:67-76 | `Sense(0)` and `Sense(1)` are MINIMIZE and MAXIMIZE; "maximize" parses; "min", "max", -1 and 3 are rejected |
| Enums.ResultBitsAreChain | brkga_mp_ipr/enums.py:144-147 | for the flag values 0, 1, 3, 7, bit-set inclusion holds exactly when the first result comes no later in the chain; equal bits mean equal results |
| Enums.Or | brkga_mp_ipr/enums.py:128-147 | `a \| b` is a result whose bits are the or of both, and it is the larger of the two in the chain |
| Enums.OrLaws | brkga_mp_ipr/enums.py:144-147 | or is idempotent, commutative and associative; TOO_HOMOGENEOUS is its identity and BEST_IMPROVEMENT absorbs everything |
| Types.FieldsEnumerated | brkga_mp_ipr/types.py:161-230 | the 13 `BrkgaParams` attributes, then the 3 `ExternalControlParams` attributes, list every field exactly once, in declaration order |
| Types.Get | brkga_mp_ipr/types.py:161-230 | every field holds a value of its declared type |
| Types.Set | brkga_mp_ipr/types_io.py:89 | `setattr` stores the value in that field, leaves every other field alone, and leaves the other record unchanged |
| Types.RecordsExtensional | brkga_mp_ipr/types.py:147-233 | two pairs of records that agree on every field are equal |
| Types.FieldNamed | brkga_mp_ipr/types_io.py:81-87 | looking up a name in `vars(brkga_params)` then `vars(control_params)` finds a field with exactly that name, and fails iff no field has it |
| Types.NameInjective | brkga_mp_ipr/types.py:161-230 | no two attributes share a name |
| Types.FieldNamedName | brkga_mp_ipr/types_io.py:81-87 | looking up a field's own name finds that field |
| Types.FieldNameShape | brkga_mp_ipr/types.py:161-230 | every attribute name is a non-empty word of lower-case letters and underscores |
| Text.Upper | brkga_mp_ipr/enums.py:44 | `str.upper` keeps the length and upper-cases each character |
| Text.Lower | brkga_mp_ipr/types_io.py:76 | `str.lower` keeps the length and leaves no upper-case letter |
| Text.UpperOfLower | brkga_mp_ipr/enums.py:44 | upper-casing a lower-cased text is upper-casing the text, so the lower-cased value still names its enum member |
| Text.Strip | brkga_mp_ipr/types_io.py:68 | `str.strip` yields a text no longer than its input, with no whitespace at either end |
| Text.StripLeftMeaning | brkga_mp_ipr/types_io.py:68 | the left half of `strip` removes a prefix made only of whitespace and keeps the rest of the text |
| Text.StripRightMeaning | brkga_mp_ipr/types_io.py:68 | the right half of `strip` removes a suffix made only of whitespace and keeps the rest of the text |
| Text.StripMeaning | brkga_mp_ipr/types_io.py:68 | `s.strip()` is a contiguous slice `s[i:j]` whose prefix `s[:i]` and suffix `s[j:]` are all whitespace. With the ends of the result not whitespace, this fixes the result |
| Text.StripEmpty | brkga_mp_ipr/types_io.py:68-69 | the stripped line is empty exactly when the line is all whitespace, which is when the loader skips it as blank |
| Text.StripTrimmed | brkga_mp_ipr/types_io.py:68 | stripping a text that has no whitespace at either end changes nothing |
| Text.StripTrailingSpace | brkga_mp_ipr/types_io.py:68 | a trailing newline or space does not change the stripped line |
| Text.TokenLength | brkga_mp_ipr/types_io.py:76 | the first token of `str.split` is the longest run of non-whitespace at the front |
| Text.SplitTwoWords | brkga_mp_ipr/types_io.py:76 | `"a b".split()` is `[a, b]` for two words without whitespace |
| Text.IntToString | brkga_mp_ipr/types_io.py:130 | an integer prints as a non-empty run of digits and a minus sign, without whitespace and not starting with `#` |
| Text.ReadLinesOfConcat | brkga_mp_ipr/types_io.py:61-62 | `readlines()` of text written as newline-terminated lines gives back exactly those lines |
| TypesIO.ParseLine | brkga_mp_ipr/types_io.py:68-76 | a line is stripped. A blank line or one starting with `#` is skipped. Otherwise it is split on whitespace: anything but two words is a bad token count, and two words give the lower-cased name and value. `SkippedLine`, `ParseWrittenLine` and `ParseLineOf` state its properties |
| TypesIO.Message | brkga_mp_ipr/types_io.py:64-103 | the text of each `LoadError`: "Cannot read <file>", "Line <k>: missing parameter or value", "Line <k>: parameter '<name>' unknown", "Line <k>: invalid value for '<name>': <value>" and "Missing parameters: " followed by the names joined with ", " |
| TypesIO.SkippedLine | brkga_mp_ipr/types_io.py:68-70 | a line that is blank or whose first non-blank character is `#` is skipped and never raises |
| TypesIO.Convert | brkga_mp_ipr/types_io.py:88-89 | a converted value has the field's type |
| TypesIO.Examine | brkga_mp_ipr/types_io.py:67-93 | a line that fails raises a bad-token-count, unknown-name or invalid-value error carrying its own 0-based index; an accepted line assigns a value of the field's type |
| TypesIO.Outcomes | brkga_mp_ipr/types_io.py:67-93 | every line gets exactly one outcome, and the only errors are line errors |
| TypesIO.OutcomesAt | brkga_mp_ipr/types_io.py:67 | the outcome of line `k` is that line examined with index `k` |
| TypesIO.RunOutcomes | brkga_mp_ipr/types_io.py:67-93 | the line loop as a fold over the line outcomes: the first failure is raised and later lines are not read; an assignment sets the field and marks it given. `RunErrorPersists`, `RunOkIffNoFailure`, `FirstErrorWins`, `RunFailure` and `LastAssignWins` state its properties |
| TypesIO.RunErrorPersists | brkga_mp_ipr/types_io.py:67-93 | once a line has raised, the lines after it never matter |
| TypesIO.RunOkIffNoFailure | brkga_mp_ipr/types_io.py:67-93 | the line loop completes iff no line fails |
| TypesIO.RunRaisesLineErrors | brkga_mp_ipr/types_io.py:75-93 | the line loop raises only the three per-line errors |
| TypesIO.FirstErrorWins | brkga_mp_ipr/types_io.py:67-93 | the first failing line's error is the one raised |
| TypesIO.RunFailure | brkga_mp_ipr/types_io.py:67-93 | when the line loop raises, there is a first failing line and its error is the one raised |
| TypesIO.LastAssign | brkga_mp_ipr/types_io.py:89-90 | a field has a last assigned value iff some line sets it |
| TypesIO.LastAssignWins | brkga_mp_ipr/types_io.py:88-90 | after a completed loop, a field is marked given iff some line set it. Its value is the one from the last line that set it, and otherwise its default |
| TypesIO.MissingFields | brkga_mp_ipr/types_io.py:96-99 | the missing list holds exactly the fields not given |
| TypesIO.FieldsInOrder | brkga_mp_ipr/types_io.py:53-59 | `param_given` lists the fields in declaration order: `BrkgaParams` first, then `ExternalControlParams` |
| TypesIO.MissingFieldsOrdered | brkga_mp_ipr/types_io.py:96-99 | the missing list keeps the declaration order of the list it filters |
| TypesIO.OrderedUnique | brkga_mp_ipr/types_io.py:96-103 | two lists in declaration order that hold the same fields are equal: the missing list has no repeats and only one possible order |
| TypesIO.MissingFourFields | tests/test_types_io.py:91-95 | when every field except `population_size`, `mutants_percentage`, `total_parents` and `bias_type` is given, the missing list is exactly those four, in that order |
| TypesIO.FourNamesMessage | tests/test_types_io.py:91-95 | the message for those four fields is "Missing parameters: " followed by the four names joined with ", " in that order |
| TypesIO.MissingMessageExample | tests/test_types_io.py:91-95 | the loader's message for a file missing those four parameters is the text the test expects |
| TypesIO.MissingNamesExact | brkga_mp_ipr/types_io.py:96-103 | a field's name is in the missing list iff the field was not given |
| TypesIO.MissingNames | brkga_mp_ipr/types_io.py:96-99 | the loop collects the names of the fields not given, in declaration order |
| TypesIO.RunLines | brkga_mp_ipr/types_io.py:67-94 | the line loop with early exit computes the ordered fold of the line outcomes |
| TypesIO.Load | brkga_mp_ipr/types_io.py:60-105 | `load_configuration`: "Cannot read" for an empty file, else the first line error, else "Missing parameters" when some field was never given, else the two records. `LineErrorExplained`, `MissingExplained`, `LoadOfRun` and `WriteThenLoad` state its properties |
| TypesIO.LoadConfiguration | brkga_mp_ipr/types_io.py:50-105 | `load_configuration` returns or raises exactly what the specification function `Load` says |
| TypesIO.LineErrorExplained | brkga_mp_ipr/types_io.py:64-93 | "Cannot read" is raised iff the file has no lines. A line error names a line that fails on its own, and no earlier line fails |
| TypesIO.MissingExplained | brkga_mp_ipr/types_io.py:96-103 | "Missing parameters" is raised only when no line failed. It names at least one field, and exactly the fields that no line sets, in declaration order |
| TypesIO.AllSkippedMissesEverything | brkga_mp_ipr/types_io.py:96-103 | a non-empty file of blank and comment lines reports all sixteen names as missing, in declaration order |
| TypesIO.LoadOfRun | brkga_mp_ipr/types_io.py:96-105 | a completed loop that gave every field returns the loop's records |
| TypesIO.ShowValue | brkga_mp_ipr/types_io.py:130 | `f"{value}"`: an integer in decimal, an enum member by its bare name, a float through the printer. `EnumNameShape` and `ShownValueReadsBack` state its properties |
| TypesIO.Serialize | brkga_mp_ipr/types_io.py:127-133 | the text `write_configuration` builds: one `name value` line per field, in declaration order. `WriteConfiguration` and `WriteThenLoad` state its properties |
| TypesIO.WrittenTextAppend | brkga_mp_ipr/types_io.py:129-133 | writing two lists of fields one after the other writes their concatenation |
| TypesIO.AppendFieldLines | brkga_mp_ipr/types_io.py:129-130 | each loop appends one `name value` line per field, in order |
| TypesIO.WriteRecords | brkga_mp_ipr/types_io.py:127-133 | the two loops write the `BrkgaParams` lines, then the `ExternalControlParams` lines |
| TypesIO.WriteConfiguration | brkga_mp_ipr/types_io.py:109-136 | the written text is one line per field, in declaration order |
| TypesIO.EnumNameShape | brkga_mp_ipr/enums.py:48-52 | an enum value is written as its bare name, a non-empty upper-case word |
| TypesIO.ShownValueReadsBack | brkga_mp_ipr/types_io.py:88-89 | a written value is one word, and converting it back, lower-cased, gives the value, provided the number converters invert the number printers |
| TypesIO.ParseWrittenLine | brkga_mp_ipr/types_io.py:68-76 | a written line `name value\n` reads back as that name and the lower-cased value |
| TypesIO.WrittenLineReadsBack | brkga_mp_ipr/types_io.py:130 | each written line is newline-terminated and, read back at any index, assigns the field its current value |
| TypesIO.WriteThenLoad | brkga_mp_ipr/types_io.py:109-133 | loading the text `write_configuration` produced returns the same two records |
| TspInstance.Message | examples/tsp/tsp_instance.py:54-69 | the text of each loader error: "Cannot read file '<file>'" and "Error reading line <k> of '<file>'" |
| TspInstance.Distance | examples/tsp/tsp_instance.py:73-80 | `distance(i, j)` orders the pair and reads entry `i (n - 1) - (i - 1) i / 2 + (j - i - 1)`. `PairIndexRange`, `PairIndexInjective`, `PairIndexOnto` and `DistanceSymmetric` state its properties |
| TspInstance.HalfProductExact | examples/tsp/tsp_instance.py:79 | `(i - 1) * i` is even, so `// 2` is exact |
| TspInstance.RowStartStep | examples/tsp/tsp_instance.py:79-80 | row `i + 1` starts `n - 1 - i` entries after row `i` |
| TspInstance.RowStartEnd | examples/tsp/tsp_instance.py:61 | the rows end at `n (n - 1) / 2` |
| TspInstance.PairIndexRange | examples/tsp/tsp_instance.py:79-80 | for `i < j`, the index lies in row `i`'s block and in `[0, n (n - 1) / 2)` |
| TspInstance.PairIndexInjective | examples/tsp/tsp_instance.py:79-80 | distinct pairs `i < j` read distinct entries |
| TspInstance.PairAt | examples/tsp/tsp_instance.py:79-80 | every entry of the triangle belongs to a pair `i < j` that reads it |
| TspInstance.PairIndexOnto | examples/tsp/tsp_instance.py:79-80 | the index map is onto `[0, n (n - 1) / 2)`, so with injectivity it is a bijection |
| TspInstance.DistanceSymmetric | examples/tsp/tsp_instance.py:77-78 | `distance(i, j) == distance(j, i)` |
| TspInstance.SameNodeOffset | examples/tsp/tsp_instance.py:77-80 | for `i == j` the formula reads index -1 (when `i = 0`) or the last entry of row `i - 1`, never a self-distance |
| TspInstance.ParseRealsMeaning | examples/tsp/tsp_instance.py:66 | a row parses iff every token parses, and then it holds each token's number in order |
| TspInstance.RowsMeaning | examples/tsp/tsp_instance.py:57-69 | the row loop fails iff some line `1 .. n - 1` is missing or bad, and it then reports the 1-based number of the first such line |
| TspInstance.RowsErrorPersists | examples/tsp/tsp_instance.py:64-69 | once a row has failed, reading further rows changes nothing |
| TspInstance.ReadInstance | examples/tsp/tsp_instance.py:51-69 | "Cannot read file" for an empty file; "Error reading line 1" when the node count does not parse; otherwise the first bad row line, or the instance whose distances are the parsed rows concatenated. `RowsMeaning`, `RowsFlatten` and `ReadLayout` state its properties |
| TspInstance.LoadInstance | examples/tsp/tsp_instance.py:46-69 | `TSPInstance(filename)` builds or raises exactly what the specification function `ReadInstance` says |
| TspInstance.FlattenLayout | examples/tsp/tsp_instance.py:64-67 | extending by rows of lengths `n - 1, n - 2, …` puts pair `(i, j)`'s value at `PairIndex(n, i, j)` |
| TspInstance.RowsFlatten | examples/tsp/tsp_instance.py:64-67 | when every row parses, `distances` is the rows concatenated in order |
| TspInstance.TriangleInstance | examples/tsp/tsp_instance.py:64-80 | rows of the documented shape make an instance with exactly `n (n - 1) / 2` entries, where `distance(i, j)` is entry `j - i - 1` of row `i` |
| TspInstance.ReadLayout | examples/tsp/tsp_instance.py:57-80 | a file in the documented layout loads, and `distance(i, j)` for `i < j` is value `j - i - 1` on line `i + 1` |
| Sequences.SeqMax | examples/tsp/greedy_tour.py:52 | `max` of a non-empty list bounds every entry and is one of them |
| Tours.Range | examples/tsp/greedy_tour.py:50 | `set(range(a, b))` holds exactly the integers from `a` up to `b`, and has `b - a` of them |
| Tours.PathCostSnoc | examples/tsp/greedy_tour.py:65 | extending a path by an unvisited node adds the distance of the new edge |
| GreedyTour.DistanceAtMostMax | examples/tsp/greedy_tour.py:52 | every distance is at most `max(distances)`, so `INF` exceeds it |
| GreedyTour.ScanNearest | examples/tsp/greedy_tour.py:58-63 | the scan picks the first nearest remaining node, in ascending order, and returns its distance |
| GreedyTour.FirstNearestUnique | examples/tsp/greedy_tour.py:58-63 | the first nearest node is unique |
| GreedyTour.GreedyPrefixSteps | examples/tsp/greedy_tour.py:57-69 | a greedy prefix starts at node 0, and each later node is the first nearest unvisited node to its predecessor |
| GreedyTour.GreedyPrefixSnoc | examples/tsp/greedy_tour.py:65-68 | appending the first nearest unvisited node keeps a greedy prefix, removes that node from the unvisited set, and adds its distance to the cost |
| GreedyTour.LoopStart | examples/tsp/greedy_tour.py:48-56 | before the loop, `tour[0..1)` is `[0]`, `remaining` is the rest of the nodes, `current_node` is 0 and the cost is 0 |
| GreedyTour.LoopStep | examples/tsp/greedy_tour.py:57-69 | one iteration keeps the loop invariant one position further on. The invariant: the written prefix and `remaining` partition the nodes, `current_node` is the last written node, and `cost` is the prefix's path cost |
| GreedyTour.Visit | examples/tsp/greedy_tour.py:58-69 | the loop body (the scan, the write at `idx`, the removal and the cost update) re-establishes the invariant at `idx + 1` |
| GreedyTour.LoopEnd | examples/tsp/greedy_tour.py:70-72 | with nothing remaining, the tour is the full greedy permutation starting at 0, and adding the closing edge gives the closed-tour cost |
| GreedyTour.Greedy | examples/tsp/greedy_tour.py:36-73 | `greedy_tour` returns the greedy tour, a permutation of `0 .. n - 1` starting at 0, and its closed-tour cost |
| GreedyTour.GreedyTourUnique | examples/tsp/greedy_tour.py:36-73 | there is exactly one greedy tour, so the result is fully determined |
| TspDecoder.Enumerate | examples/tsp/tsp_decoder.py:46 | entry `i` is the pair `(chromosome[i], i)` |
| TspDecoder.Sort | examples/tsp/tsp_decoder.py:45-47 | sorting keeps the pairs, as a multiset |
| TspDecoder.SortSorted | examples/tsp/tsp_decoder.py:45-47 | the result is in tuple order |
| TspDecoder.SortStrictlySorted | examples/tsp/tsp_decoder.py:45-47 | pairs without repeats sort strictly |
| TspDecoder.SortSameElements | examples/tsp/tsp_decoder.py:45-47 | sorting keeps the length and exactly the same pairs |
| TspDecoder.StrictlySortedUnique | examples/tsp/tsp_decoder.py:45-47 | two strictly sorted lists of the same pairs are equal, so `sorted` has only one possible result |
| TspDecoder.SortedEntries | examples/tsp/tsp_decoder.py:45-47 | every sorted pair is some `(chromosome[i], i)`, and the sorted list is strictly increasing |
| TspDecoder.Order | examples/tsp/tsp_decoder.py:45-47 | the node order `decode` reads: the index parts of the sorted `(key, index)` pairs, one per key. `OrderIsPermutation`, `OrderSorted` and `OrderIndices` state its properties |
| TspDecoder.OrderIsPermutation | examples/tsp/tsp_decoder.py:45-47 | the index components of `permutation` are a permutation of `0 .. n - 1` |
| TspDecoder.OrderSorted | examples/tsp/tsp_decoder.py:45-47 | keys along the permutation never decrease, and equal keys come in ascending index order |
| TspDecoder.OrderIndices | examples/tsp/tsp_decoder.py:45-49 | `permutation[i][1]` is entry `i` of the decoded order |
| TspDecoder.Decode | examples/tsp/tsp_decoder.py:38-53 | `decode` returns the closed-tour cost of the decoded order: the closing edge plus the consecutive edges. The chromosome is not changed and `rewrite` is ignored |
| TspDecoder.WarmStart | examples/tsp/main_complete.py:193-195 | the warm-start chromosome gives node `tour[i]` the key `keys[i]` |
| TspDecoder.WarmStartDecodes | examples/tsp/main_complete.py:190-195 | with strictly increasing keys, decoding the warm-start chromosome gives back `tour` |
| Decoders.ZipSum | tests/decoders.py:32 | `zip` stops at the shorter list, and entry `i` is `chromosome[i] + data[i]` |
| Decoders.Normalize | tests/decoders.py:33 | `[x / max(tmp) for x in tmp]`: one value per sum. `NormalizeAtMostOne`, `NormalizeNonNegative` and `SumOfNormalizedRange` state its properties |
| Decoders.NormalizeAtMostOne | tests/decoders.py:33 | with a positive maximum, every scaled value is at most 1 and some value is exactly 1 |
| Decoders.NormalizeNonNegative | tests/decoders.py:33 | scaling non-negative sums by a positive maximum keeps them non-negative |
| Decoders.SumOfNormalizedRange | tests/decoders.py:33-37 | with non-negative sums and a positive maximum, `SumDecode` returns a value between 1 and the number of keys |
| Decoders.Overwrite | tests/decoders.py:35-36 | the copy loop makes the chromosome equal to the first `len(chromosome)` entries of `tmp` |
| Decoders.SumDecode | tests/decoders.py:31-37 | returns the sum of the scaled sums, computed before any rewrite. With `rewrite`, the chromosome becomes exactly those scaled sums; without it, it is unchanged |
| Decoders.AscentsAllIff | tests/decoders.py:47-50 | the rank is at most `n - 1`, and equals `n - 1` iff the sums strictly increase |
| Decoders.AscentsNoneIff | tests/decoders.py:47-50 | the rank is 0 iff the sums never go up |
| Decoders.RankDecode | tests/decoders.py:45-54 | returns the number of ascents of the key sums, computed before any rewrite. With `rewrite`, the chromosome becomes the key sums; without it, it is unchanged |

## Left out

- `brkga_mp_ipr/algorithm.py` (the evolutionary engine): every method there only raises
  `NotImplementedError`. The engine itself is not part of this model, and neither are the
  tests that drive it or the pickled engine states.
- Random numbers: `random.random()` in `main_complete.py` and the data generator of the
  tests are not modelled. The warm-start keys are a parameter.
- File I/O:
  - `open`, `readlines` and `write`, and the operating-system errors they raise, are not
    modelled;
  - a file is the list of its lines, and the writer returns its text;
  - `Text.ReadLines` models how `readlines` splits written text back into lines.
- Number conversion:
  - `int(text)` and `float(text)` are abstract converter parameters (`Text.Converters`);
  - printing a float is an abstract `showReal` parameter.
  - `TypesIO.WriteThenLoad` therefore assumes that the converters invert the printers.
- Floating point: distances, keys and decoder values are real numbers. IEEE rounding,
  infinities and NaN are not modelled.
- Text: `strip`, `split`, `upper` and `lower` are modelled on ASCII. Python's Unicode
  whitespace and case tables are not modelled.
- Set iteration: `greedy_tour` iterates a `set` of small non-negative integers. The model
  takes CPython's ascending order for such sets, so ties go to the smallest node.
- The command-line scripts `main_complete.py` and `main_minimal.py` (argument parsing,
  clocks, printing) are not modelled. Only the warm-start loop at `main_complete.py:190-195`
  is.
- Packaging (`setup.py`, `__init__.py`, `tests/paths_constants.py`) is not modelled.
- `brkga_mp_ipr.exceptions` is not part of this model: `LoadError` is a datatype of error
  cases, and `TypesIO.Message` gives each case its text.
- The enums are modelled once, following `enums.py`. The plain copies in `types.py` appear
  only as the value-only lookups `Enums.PlainSense` and `Enums.PlainBiasFunction`.
  `ShakingType` and the other plain copies look values up the same way.
- TypesIO.Convert: converts enum fields with the case-insensitive name lookup of `enums.py`,
  as the tests expect (`tests/test_types_io.py:105-110`). As written, the records in
  `types.py` hold the plain value-only enums (`types.py:176`, `192`, `195`), and the loader
  converts with `type(value)` (`types_io.py:53-57`). Such an enum accepts no text, so
  `bias_type LOGINVERSE` would raise "invalid value" (`Enums.PlainBiasFunction` returns
  nothing for any text).
- Enums.ParseSense: an argument that is already a member (`Sense(Sense.MINIMIZE)`,
  `tests/test_0_enums.py:65-66`) is returned unchanged by Python's `Enum`. `Arg` covers only
  integers and texts, so neither this function nor the other `Parse` functions model that
  case.
- `PathRelinkingResult` bit patterns that are not members (such as `2`) are not modelled:
  `Or` never produces one.
- Defaults: the record defaults are the datatypes' default constructor arguments. No lemma
  restates them.
- TspInstance.Distance: requires `i != j`. With `i == j` the source reads an unrelated entry
  (`TspInstance.SameNodeOffset` shows which one).
- TspInstance.Distance: also requires `Covers(inst)`: the distances list is long enough for
  every pair of the `num_nodes` nodes. The source has no such check. A shorter list raises
  `IndexError` when a missing entry is read, and a negative index reads from the end.
  `GreedyTour.Greedy` and `TspDecoder.Decode` inherit this requirement.
- TspInstance.ReadInstance: like the source, it does not check that the number of entries is
  `n (n - 1) / 2` (`matrix_size` is unused). `ReadLayout` states the result only for files in
  the documented layout.
- GreedyTour.Greedy: requires at least two nodes.
  - With `num_nodes = 0`, the source raises `IndexError` at `tour[0] = 0`.
  - With one node and the documented empty distance list, it fails on `max([])`.
  - With one node and a non-empty list, it returns `(distances[-1], [0])`, because the
    closing `distance(0, 0)` reads index -1.
- GreedyTour.Greedy: the tour is a `seq` that the loop updates with `tour[idx := next]`, not
  a Python list mutated in place.
- TspDecoder.Decode: requires at least two keys.
  - With no keys, the source raises `IndexError` at `permutation[0]`.
  - With one key, the closing edge is `distance(i, i)`, which reads an unrelated entry
    (`TspInstance.SameNodeOffset`) rather than failing.
  It also requires no more keys than nodes, because with more, `distance` reads past the
  instance.
- TspDecoder.WarmStartDecodes: is stated for strictly increasing keys. With equal keys, ties
  are broken by node index, which the model does not relate back to `tour`.
- Decoders.SumDecode: requires
  - a non-empty chromosome and data, where the source fails on `max([])`;
  - a non-zero maximum, where the source divides by zero;
  - with `rewrite`, no more keys than data, where the source raises `IndexError`.
- Decoders.RankDecode: with `rewrite`, requires no more keys than data, because the source
  raises `IndexError` otherwise.
- TypesIO.RunLines: examines every line up front, then folds the outcomes with an early exit.
  Examining a line is pure, so the result is the same as the source's interleaved loop.
