# A Dafny model of the mindexer experiment harness

The experiment harness benchmarks automatically recommended MongoDB indexes:
it profiles a query workload, runs the external `mindexer` tool on the
profile, parses the tool's standard output into index dictionaries, creates
those indexes, and times the workload with and without them. Almost all of it
is calls into the database driver, the experiment tracker (yanex) and a
subprocess. This project models the pure part around those calls and proves
properties of it:

- **The output parser** `parse_mindexer_output`, which appears word for word
  in `experiments/utils.py`, `experiments/evaluate.py` and
  `experiments/profile_workload.py`; one model (`MindexerOutput`) covers the
  three copies. The output is stripped and split at `'\n'`; the first line
  that, stripped, starts with `">> recommending"` is the marker; each later
  line that, stripped, is non-empty and starts with `{` and ends with `}` is
  handed to `ast.literal_eval`, and the values it accepts are kept in order
  while the lines on which it raises `ValueError` or `SyntaxError` are
  skipped. The literal evaluator is the parameter `eval: string -> Option<T>`,
  with `None` standing for those two exceptions. Python's `str.strip()` is
  modelled as the removal of the characters `str.isspace` accepts (`Text`).
- **Index creation** (`Indexes`): a dict index becomes the list of its
  `(field, direction)` pairs in key order, anything else passes through; the
  indexes are created in list order and the first failure is re-raised. The
  index phase of `run_eval` drops every index and creates the given ones.
  The collection is the list of its user indexes; whether the server accepts
  a `create_index` call is the parameter `accepts`.
- **Trimming the timing samples** (`Timings`): with `discard_best_worst` and
  at least three runs, each list is sorted and loses its first and last
  element. Times are `real`, since only their order matters.
- **The workload registry** (`Workloads`): the three workload classes with
  their database and collection names, and `get_workload`.
- **The two drivers**: `main` of `experiments/evaluate.py` from the name
  validation to the trimmed timing lists (`Evaluate`), and
  `validate_workload` plus the dispatch of `main` in
  `experiments/profile_workload.py` (`ProfileWorkload`).

`main` in `experiments/evaluate.py` never checks how many indexes were
recommended: an empty list times both loops without indexes.

`validate_workload` in `profile_workload.py` ignores its argument and reads
the `workload` parameter again without a default. The model keeps this: the
re-read value is a separate `Option<string>`, and
`ProfileWorkload.UnsetParameterIsMissing` states the consequence that an unset
parameter stops the run as a missing configuration although `main` itself
would have defaulted to `"test"`.

The files: `common.dfy` (Option, Result, Outcome, the validation error),
`text.dfy`, `mindexer_output.dfy`, `indexes.dfy`, `timings.dfy`,
`workloads.dfy`, `evaluate.dfy`, `profile_workload.dfy`.

## Model

| member | source | states |
|---|---|---|
| Text.StripSpec | experiments/utils.py:69 | `line.strip()` is the slice of the line between a whitespace prefix and a whitespace suffix; a non-empty result neither starts nor ends with whitespace; the result is empty exactly when the line is all whitespace |
| Text.StripPadded | experiments/utils.py:53 | whitespace added before and after a string does not change what `strip()` returns |
| Text.StripIdempotent | experiments/utils.py:58 | stripping an already stripped line changes nothing |
| Text.SplitSpec | experiments/utils.py:53 | no piece of `split("\n")` holds a newline, the first piece is a prefix of the input, and joining the pieces with newlines gives the input back |
| Text.SplitJoin | experiments/evaluate.py:55 | splitting newline-joined, newline-free pieces gives exactly those pieces back |
| MindexerOutput.FindMarkerSpec | experiments/utils.py:56-60 | no position exactly when no line, stripped, starts with `">> recommending"`; otherwise the position of the first such line |
| MindexerOutput.Collect | experiments/utils.py:68-83 | the kept values are at most one per line |
| MindexerOutput.Sources | experiments/utils.py:68-83 | for any line classifier, each collected value comes from a line the classifier accepts; their positions strictly increase; every accepted line contributes, so the result is exactly the accepted values in line order |
| MindexerOutput.IndexLineSources | experiments/profile_workload.py:105-120 | each value the parser keeps is the evaluation of a line that, stripped, is non-empty, brace-delimited and accepted by the evaluator; their positions strictly increase; every such line contributes, so the result is exactly the accepted evaluations in line order |
| MindexerOutput.ParseLines | experiments/evaluate.py:64-87 | a non-empty result needs a marker line, and the result has at most as many elements as there are lines after the first marker |
| MindexerOutput.ParseMindexerOutput | experiments/utils.py:50-85 | the two loops of the source (stop at the first marker; evaluate and filter the lines after it) compute the parser's result |
| MindexerOutput.ScanForMarker | experiments/evaluate.py:58-62 | the first loop stops at the same line `FindMarker` names: the first line that holds the marker after trimming, or none when no line does |
| MindexerOutput.EvaluateIndexLines | experiments/evaluate.py:70-85 | the second loop skips blank, non-dictionary and rejected lines and keeps the accepted values in order |
| MindexerOutput.CollectAppend | experiments/profile_workload.py:105 | the lines are processed independently, so the result for two blocks of lines is the concatenation of their results |
| MindexerOutput.SkippedLine | experiments/evaluate.py:79-85 | a line the evaluator rejects (or that is not a dictionary line) is skipped and the remaining lines are still processed |
| MindexerOutput.KeptLine | experiments/utils.py:77-80 | an accepted line adds exactly its evaluated value, between the values of the lines before and after it |
| MindexerOutput.MarkerLineNeverYields | experiments/utils.py:74-75 | a later marker line does not look like a dictionary and contributes nothing |
| MindexerOutput.FirstMarkerOnly | experiments/evaluate.py:58-70 | only the first marker counts: whatever precedes it, the result is what the lines after it yield |
| MindexerOutput.NoMarkerLineGivesEmpty | experiments/profile_workload.py:94-101 | when no stripped line starts with `">> recommending"` the result is the empty list |
| MindexerOutput.NoMarkerTextGivesEmpty | experiments/utils.py:53-64 | an output that nowhere contains `">> recommending"` gives the empty list |
| MindexerOutput.BlankOutputGivesEmpty | experiments/evaluate.py:55-67 | empty or all-whitespace output gives the empty list |
| MindexerOutput.OutputWhitespaceIrrelevant | experiments/profile_workload.py:90 | whitespace around the whole output does not change the result |
| MindexerOutput.LineWhitespaceIrrelevant | experiments/profile_workload.py:94-106 | whitespace around any single line does not change the result |
| MindexerOutput.ParseLinesStripped | experiments/profile_workload.py:94-106 | the parser sees each line only through its stripped form: lines that strip alike give the same result |
| Indexes.IndexSpecOf | experiments/utils.py:129-133 | a dict index becomes a list of `(field, direction)` tuples of the same length and key order; any other index is passed on unchanged |
| Indexes.PairsRoundTrip | experiments/utils.py:131 | the pair list of a dict rebuilds exactly that dict |
| Indexes.CreateInOrder | experiments/evaluate.py:124-126 | creating in order: all created exactly when every call is accepted, and then the collection gains the specifications in order; otherwise the first rejected call raises, the ones before it exist and none after it is attempted |
| Indexes.CreateIndexes | experiments/utils.py:121-138 | `create_indexes` converts each index and creates them in list order; the first failure is re-raised with the earlier indexes created and the later ones not |
| Indexes.RunEvalIndexes | experiments/evaluate.py:119-126 | after the index phase of `run_eval` the collection's user indexes are exactly the given list, in order, whatever it held before; an empty list leaves none |
| Timings.Insert | experiments/evaluate.py:190 | inserting into a sorted list keeps it sorted and adds exactly one element |
| Timings.Sort | experiments/evaluate.py:190-191 | `sort()` returns a sorted permutation |
| Timings.SortedUnique | experiments/evaluate.py:191 | two sorted lists with the same elements are equal, so the sorted version is unique |
| Timings.DropEnds | experiments/evaluate.py:192-193 | `[1:-1]` is the list without its first and last element: the input is the first element, the result and the last element, in that order; lists shorter than two give the empty list |
| Timings.Min | experiments/evaluate.py:190-192 | the smallest sample is a sample and at most every sample |
| Timings.Max | experiments/evaluate.py:190-193 | the largest sample is a sample and at least every sample |
| Timings.Trim | experiments/evaluate.py:186-193 | with the flag off or fewer than three runs the list is unchanged; otherwise it is sorted and, for `num_runs` samples, has `num_runs - 2` of them |
| Timings.TrimRemovesMinAndMax | experiments/evaluate.py:189-193 | the trimmed list plus the original minimum and maximum is the original list as a multiset, so it is a sub-multiset and every kept sample lies between the minimum and the maximum |
| Workloads.NamesOf | experiments/workloads.py:8-73 | after the base constructor leaves both names unset, every concrete workload sets both to non-empty strings |
| Workloads.Lookup | experiments/workloads.py:106-108 | the dict lookup finds a class exactly when the name is a key, and then the one under that key |
| Workloads.GetWorkload | experiments/workloads.py:104-111 | `get_workload` succeeds exactly for `"ember"`, `"linkbench"` and `"test"`, returning the class registered under the name; any other name raises with the message naming it and the available workloads |
| Workloads.KeyRoundTrip | experiments/workloads.py:106 | looking up a class's own key finds that class |
| Workloads.RegisteredTargets | experiments/workloads.py:8-111 | `"ember"` gives `ember2018`/`ember_train`, `"linkbench"` gives `linkbench`/`linktable`, `"test"` gives `ember2018`/`ember_test` |
| Evaluate.LoadWorkload | experiments/evaluate.py:146-152 | an unset or empty name is a missing configuration, an unknown name becomes a validation error with `get_workload`'s message, and exactly the three registered names load their workload |
| Evaluate.TimedRuns | experiments/evaluate.py:170-183 | a timing loop appends exactly one time per run; a rejected index raises in the first run; after at least one run the collection holds exactly the given indexes |
| Evaluate.RunExperiment | experiments/evaluate.py:137-193 | validation failures and a missing collection stop the run first; otherwise both timing lists are the measured times of `num_runs` runs, trimmed as configured, the recommended indexes are in place after the runs, and their number is reported |
| Evaluate.ReportedTimes | experiments/evaluate.py:169-193 | each reported list is either the raw times in run order, or `num_runs - 2` sorted times forming the raw times minus one minimum and one maximum |
| ProfileWorkload.ValidateWorkload | experiments/profile_workload.py:30-37 | only the re-read parameter decides: unset or empty is a missing configuration, anything outside `linkbench`, `ember`, `test` is unsupported, those three pass |
| ProfileWorkload.Dispatch | experiments/profile_workload.py:164-169 | each supported name selects exactly its own run function and no other name selects one |
| ProfileWorkload.ProfileRun | experiments/profile_workload.py:149-169 | the collection check comes first, then the validation; a run proceeds exactly for a configured supported name and then dispatches exactly one run function |
| ProfileWorkload.UnsetParameterIsMissing | experiments/profile_workload.py:154-162 | with the workload parameter unset the run stops as a missing configuration, although `main` itself defaults to `"test"` |

## Left out

- Profiling: the administrative `profile` commands, dropping `system.profile`, counting and reading its documents and logging them. They are database I/O. Only the collection-existence check of `enable_profiling` is modelled, with existence as a parameter.
- The subprocess: `run_mindexer`'s command string (it embeds float formatting of `sample_ratio`), `execute_bash_script` and the JSON logging of the result. The recommended indexes enter `Evaluate.RunExperiment` as a parameter.
- `ast.literal_eval` itself: it is a parser of the Python language and is the abstract parameter `eval`; the `print` of a rejected line is not modelled.
- The literal values: `Indexes.Literal` covers integers, strings, tuples, lists and dicts; floats, booleans, `None`, sets and bytes are not modelled.
- The database server: whether `create_index` succeeds is the parameter `accepts`, and a successful call appends to the index list; the server's handling of an index identical to an existing one is not modelled.
- Wall-clock timing (`time.perf_counter`, `eval_workload`): the time of run `n` is a parameter.
- The statistics (`numpy.mean`, `numpy.std`) and the final `log_results`: floating-point numerics.
- The workload hooks and the query bodies of `TestWorkload.execute_workload` and `run_workload_test`: pure driver calls; the other hooks and run functions are empty.
- yanex parameter retrieval: parameters are plain arguments, with `None` for an unset parameter; `not workload_name` is modelled for strings and `None` only.
- tests/test_query.py tests a query class that is not part of this model; setup.py is packaging metadata.
- MindexerOutput.Collect: its own contract only bounds the length; the full characterization of its result is stated by `MindexerOutput.Sources`, for any line classifier and so for the parser's `Pick`.
- MindexerOutput.EvaluateIndexLines: `eval` returns `None` exactly where `ast.literal_eval` raises `ValueError` or `SyntaxError`, the two exceptions the parser catches. Other exceptions it can raise on a brace-delimited line (a `TypeError` for an unhashable key such as `{[1]: 2}`, a `RecursionError` for very deep nesting) propagate out of `parse_mindexer_output` and abort the caller; the model has no such outcome, so the same holds for `MindexerOutput.Pick`, `MindexerOutput.Parse` and `MindexerOutput.ParseMindexerOutput`.
