# AST metric engine of the compile-time collector

This project models the source-code metrics that the collector computes for a
benchmark corpus of Rust crates.

Each metric operator walks a tree-sitter syntax tree with a cursor. It
increments counters by node kind and returns one `(name, value)` pair. The
operators are:

- the node count, with its unregistered `node_type` twin;
- the mean depth of function subtrees;
- the mean number of parameters;
- the smoothed ratio of macro invocations to macro definitions;
- the mean number of fields per struct or enum;
- the mean number of methods per struct;
- the number of concurrency-related calls, with a keyword pool that grows from `use` declarations;
- the constant `file_number`.

A fixed registry of seven of them runs on every `.rs` file.

The corpus walker does the following:

- It walks every benchmark directory recursively.
- It folds each file's seven pairs into a statistics table.
- On a `Cargo.lock` it enters the dependency roots the lock file lists. It keeps one visited set per benchmark, so each dependency is walked at most once.

The report pivot regroups the results into one list of `(benchmark, stat)` pairs per metric. Each list is sorted by stat. The pivot then lays every list out as the rows of a LaTeX table.

Modules, one per source file:

- `Syntax` holds the tree, preorder and tallies.
- `Cursors` holds the cursor as a class over a path of child indices.
- `Common` holds the shared result types.
- `Stats` holds the statistics table.
- One module per operator: `CountNodes`, `FnAvgDepth`, `AvgArgs`, `MacroCount`, `FieldCount`, `StructMethods` and `ParallelCalls`. `FileNumber` is the constant operator.
- `Parse` holds the registry, `Entry` the walker and `TexWriter` the pivot.

Every cursor loop is a `method` over a `TreeCursor` object. It is proved equal to a recursive specification over preorder.

The cursor's state is the path from its start node. Its ghost fields are:

- `done`, the nodes before the current one in preorder;
- `here`, the current node with its depth;
- `pending`, the later sibling subtrees.

A cursor made with `node.walk()` cannot move above its start node, and the model keeps that restriction.

The walker threads a `VisitedSet` object through the recursion, standing for the `&mut HashSet`. It is proved against recursive functions. Those functions terminate through cyclic lock files because every entered dependency adds a new path from the finite set of existing ones.

Where the code and its description differ, the model follows the code:

- There is no cache across benchmarks, only the visited set of one benchmark.
- A parse tree with an error panics; it is not skipped.
- `macro_count` reports 1 for a file without macros.
- The function node itself has depth 0 in `fn_avg_depth`.
- `fn_avg_depth` divides by zero for a file without functions (see Findings).

Nothing was run; the only evidence is the verifier.

## Model

| member | source | states |
|---|---|---|
| Cursors.TreeCursor.constructor | collector/src/ast_analyze/ops/count_nodes.rs:6 | `tree.walk()` starts on the root with nothing visited and nothing pending |
| Cursors.TreeCursor.Node | collector/src/ast_analyze/ops/struct_methods.rs:41 | `cursor.node()` is the current node |
| Cursors.TreeCursor.GotoFirstChild | collector/src/ast_analyze/ops/count_nodes.rs:13 | moves exactly when the current node has children; the child list then stands in front of the pending subtrees and the current node joins the visited prefix |
| Cursors.TreeCursor.GotoNextSibling | collector/src/ast_analyze/ops/count_nodes.rs:18 | fails at the start node and at a last child; otherwise the whole current subtree joins the visited prefix and the next pending subtree becomes current |
| Cursors.TreeCursor.GotoParent | collector/src/ast_analyze/ops/count_nodes.rs:20 | fails exactly at the start node (the cursor never climbs above it); otherwise the cursor is on the parent, the path one step shorter; from a last child the visited prefix plus the parent subtree is unchanged |
| Cursors.TreeCursor.Climb | collector/src/ast_analyze/ops/count_nodes.rs:18-24 | the `goto_next_sibling`/`goto_parent` loop moves to the next node in preorder outside the current subtree, or reports that the subtree ends the whole walk |
| Cursors.TreeCursor.Advance | collector/src/ast_analyze/ops/count_nodes.rs:13-24 | one step of every walk: the next node in preorder, or the end of the walk after the last node |
| CountNodes.CountWalk | collector/src/ast_analyze/ops/count_nodes.rs:6-25 | the loop counts each node once in preorder, so the count is the recursive size, 1 plus the children's sizes |
| CountNodes.CountNodes | collector/src/ast_analyze/ops/count_nodes.rs:3-26 | reports "Node count" with the number of nodes of the tree |
| CountNodes.NodeType | collector/src/ast_analyze/ops/node_type.rs:4-25 | reports "node_count" with the same value as `count_nodes`, whatever the bytes, table and benchmark name passed |
| CountNodes.SizePositive | collector/src/ast_analyze/ops/count_nodes.rs:10-22 | the count is at least 1, and exactly 1 for a single leaf |
| FnAvgDepth.CalculateNodeDepth | collector/src/ast_analyze/ops/fn_avg_depth.rs:30-52 | the `depth` counter is always the cursor's distance below the function node, and the result is the sum of depths over the node count of the subtree |
| FnAvgDepth.ClimbCounting | collector/src/ast_analyze/ops/fn_avg_depth.rs:45-50 | the climb that decrements `depth` on each `goto_parent`: on success the cursor is on the next preorder node outside the finished subtree and `depth` is again its distance below the function node; on failure the finished subtree was the last part of the walk |
| FnAvgDepth.MeanDepthBounds | collector/src/ast_analyze/ops/fn_avg_depth.rs:36-47 | a subtree's mean depth lies between 0 and its height, and is 0 for a leaf |
| FnAvgDepth.FnAvgDepthAsWritten | collector/src/ast_analyze/ops/fn_avg_depth.rs:3-28 | reports "fn_avg_depth"; every `function_item` at any depth is counted; the value is the sum of per-function means over the count, and NaN when there are no functions |
| FnAvgDepth.AsWrittenNaN | collector/src/ast_analyze/ops/fn_avg_depth.rs:21-24 | the as-written result is NaN exactly when there are no functions, and otherwise equals the guarded average |
| FnAvgDepth.StructOnlyFileGivesNaN | collector/src/ast_analyze/ops/fn_avg_depth.rs:23 | for the file `struct S;` the as-written value is NaN, the guarded one 0 |
| FnAvgDepth.FnAvgDepth | collector/src/ast_analyze/ops/fn_avg_depth.rs:3-28 | the guarded operator: reports "fn_avg_depth" with the average function depth, 0 without functions |
| FnAvgDepth.AverageFnDepthBounds | collector/src/ast_analyze/ops/fn_avg_depth.rs:9-13 | the average function depth lies between 0 and the height of the tree |
| AvgArgs.CountFunctionParameters | collector/src/ast_analyze/ops/avg_args.rs:33-41 | the loop over direct children returns the named-child count of the first child of kind `parameters`, and 0 when there is none |
| AvgArgs.ParamsInFirst | collector/src/ast_analyze/ops/avg_args.rs:34-38 | the parameter count, stated without recursion: the first `parameters` child decides it, only direct children are looked at, and no such child gives 0 |
| AvgArgs.AvgArgs | collector/src/ast_analyze/ops/avg_args.rs:3-31 | reports "avg_args" with total parameters over function count, and 0 without functions |
| AvgArgs.AverageArgsSign | collector/src/ast_analyze/ops/avg_args.rs:21-27 | the value is never negative, and is 0 exactly when there are no functions or none has a parameter |
| AvgArgs.NoFunctionsNoParams | collector/src/ast_analyze/ops/avg_args.rs:10-13 | parameters are only counted at function nodes, so a file without functions has none |
| MacroCount.MacroCount | collector/src/ast_analyze/ops/macro_count.rs:6-37 | reports "macro" with (invocations + 1) / (definitions + 1), both counted at any depth |
| MacroCount.MacroRatioFacts | collector/src/ast_analyze/ops/macro_count.rs:8-9 | the ratio is always defined and positive, is 1 for a file without macros, and exceeds 1 exactly when invocations outnumber definitions |
| FieldCount.CountTypeMembers | collector/src/ast_analyze/ops/field_count.rs:32-52 | the nested walk counts the `field_declaration` and `enum_variant` nodes anywhere in the subtree |
| FieldCount.TypeNodeNotCounted | collector/src/ast_analyze/ops/field_count.rs:38 | the struct or enum node itself is never a member: only its descendants count |
| FieldCount.FieldCount | collector/src/ast_analyze/ops/field_count.rs:3-30 | reports "fields" with total members over the number of struct and enum items, and 0 without any |
| FieldCount.AverageFieldsFacts | collector/src/ast_analyze/ops/field_count.rs:23-26 | the value is never negative, and a file without types has no members and the value 0 |
| FieldCount.NoTypesNoMembers | collector/src/ast_analyze/ops/field_count.rs:12-14 | members are only counted at struct and enum nodes |
| StructMethods.FindMethods | collector/src/ast_analyze/ops/struct_methods.rs:36-62 | the pruned walk counts each `function_item` it meets and never looks inside one |
| StructMethods.MethodsAtMostFunctions | collector/src/ast_analyze/ops/struct_methods.rs:43-51 | an impl's method count never exceeds the number of functions in its subtree |
| StructMethods.NestedFunctionSkipped | collector/src/ast_analyze/ops/struct_methods.rs:43-51 | a function nested inside a method does not count: an impl with one method holding one inner function has 1 method out of 2 functions |
| StructMethods.StructMethods | collector/src/ast_analyze/ops/struct_methods.rs:3-34 | reports "struct_methods" with the methods of all impls (for any type) over the number of structs, and 0 without structs |
| StructMethods.AverageMethodsFacts | collector/src/ast_analyze/ops/struct_methods.rs:23-30 | the value is never negative, and is 0 for a file without impls |
| StructMethods.NoImplsNoMethods | collector/src/ast_analyze/ops/struct_methods.rs:13-15 | methods are only counted inside impls |
| StructMethods.TestTreeGivesOneAndAHalf | collector/src/ast_analyze/ops/struct_methods.rs:77-107 | on the tree of the test source (two structs, impls with two and one methods) the value is 1.5 |
| ParallelCalls.RelatedMonotone | collector/src/ast_analyze/ops/parallel_calls.rs:89-91 | a string related to a pool (some member is a substring of it) stays related to any larger pool |
| ParallelCalls.KeywordRelated | collector/src/ast_analyze/ops/parallel_calls.rs:89-91 | every pool member is itself related to the pool |
| ParallelCalls.FindParallelCalls | collector/src/ast_analyze/ops/parallel_calls.rs:59-87 | the scan counts matching identifiers; after a match it skips the matched subtree and leaves the next node untested but descends into it |
| ParallelCalls.ScanAtMostHits | collector/src/ast_analyze/ops/parallel_calls.rs:59-87 | the scan count never exceeds the number of matching identifier nodes of the subtree, nor the subtree's size |
| ParallelCalls.ScanCountsOnlyHits | collector/src/ast_analyze/ops/parallel_calls.rs:59-87 | the scan counts at most the matching nodes of the subtree's preorder, and 0 when no node of the subtree is a related identifier |
| ParallelCalls.ImportNames | collector/src/ast_analyze/ops/parallel_calls.rs:18-35 | each direct `scoped_identifier` child whose text is related adds the text of its last child to the pool, in order; a path without children panics |
| ParallelCalls.ImportGrows | collector/src/ast_analyze/ops/parallel_calls.rs:24-32 | a `use` declaration only adds to the pool, at most one name per child |
| ParallelCalls.VisitNode | collector/src/ast_analyze/ops/parallel_calls.rs:16-45 | one node of the outer walk: imports extend the pool, an `async_block` adds 1, and a related call or macro adds its scan |
| ParallelCalls.FoldInvariant | collector/src/ast_analyze/ops/parallel_calls.rs:12-37 | along the walk the pool always holds the five keywords, and the count is at least the number of async blocks seen |
| ParallelCalls.PanicPersists | collector/src/ast_analyze/ops/parallel_calls.rs:26-30 | once a use declaration panics, the whole operator panics |
| ParallelCalls.ParallelCountAtLeastAsync | collector/src/ast_analyze/ops/parallel_calls.rs:36-37 | every `async_block` of the tree adds at least 1 to the result |
| ParallelCalls.ParallelCalls | collector/src/ast_analyze/ops/parallel_calls.rs:9-57 | the cursor walk reports "parallel_calls" with the preorder fold's count, and panics exactly when the fold does |
| FileNumber.FileNumber | collector/src/ast_analyze/ops/file_number.rs:5-6 | reports "file_number" with 1.0 for every input and leaves the table unchanged |
| FileNumber.FileNumberCounts | collector/src/ast_analyze/ops/file_number.rs:6 | folding the operator over n files counts n |
| Stats.AddOrInsert | collector/src/ast_analyze/entry.rs:101 | adds the value to the key's entry, creating it from 0, and changes no other key |
| Stats.Combine | collector/src/ast_analyze/entry.rs:85 | `+=` on tables: the union of the keys, with the values added key by key |
| Stats.CombineCommutative | collector/src/ast_analyze/entry.rs:85 | the order in which sub-tables are added does not matter |
| Stats.CombineAssociative | collector/src/ast_analyze/entry.rs:110 | nested additions can be regrouped |
| Stats.CombineIdentity | collector/src/ast_analyze/entry.rs:81 | the fresh table is neutral |
| Stats.AddOrInsertIsCombine | collector/src/ast_analyze/entry.rs:101 | `add_or_insert` is adding a one-key table |
| Parse.RegistryNames | collector/src/ast_analyze/parse.rs:10-18 | the registry holds seven operators whose metric names are pairwise distinct |
| Parse.OnlyParallelCallsPanics | collector/src/ast_analyze/parse.rs:10-18 | among the registered operators only `parallel_calls` can panic |
| Parse.RunOp | collector/src/ast_analyze/parse.rs:9-19 | running a registered operator gives its name and value, or a panic exactly when the operator panics |
| Entry.WalkListing | collector/src/ast_analyze/entry.rs:75-117 | a directory walk only ever adds to the visited set |
| Entry.WalkDeps | collector/src/ast_analyze/entry.rs:105-112 | the loop over a lock file's dependencies only ever adds to the visited set |
| Entry.EntryLog | collector/src/ast_analyze/entry.rs:84-113 | the paths an entry walk enters exist, were not visited before, are pairwise distinct, and are exactly what the visited set gains |
| Entry.DepsLog | collector/src/ast_analyze/entry.rs:105-111 | the same at-most-once property for the loop over a lock file's dependencies |
| Entry.ListingLog | collector/src/ast_analyze/entry.rs:82-116 | the same at-most-once property for a whole directory walk |
| Entry.EntriesLog | collector/src/ast_analyze/entry.rs:82-115 | the same at-most-once property for the loop over a directory's entries |
| Entry.VisitedSet.constructor | collector/src/ast_analyze/entry.rs:65 | each benchmark's walk starts from an empty visited set and an empty log |
| Entry.VisitedSet.Insert | collector/src/ast_analyze/entry.rs:109 | adds the path to the visited set and records it as entered |
| Entry.AnalyzeDir | collector/src/ast_analyze/entry.rs:75-117 | the loop over the entries matches the recursive walk: same table or same error, visited set advanced by exactly the entered paths |
| Entry.VisitEntry | collector/src/ast_analyze/entry.rs:83-113 | one entry: a subdirectory's table is added in; only names ending in ".rs" are parsed; only a file named exactly "Cargo.lock" leads into dependencies; I/O errors propagate |
| Entry.AnalyzeLock | collector/src/ast_analyze/entry.rs:104-112 | a lock file's dependencies are entered in order when they exist and are unvisited, with each path inserted before the recursive walk |
| Entry.ApplyOps | collector/src/ast_analyze/entry.rs:99-102 | the registered operators are applied once each in registry order and folded in with `add_or_insert` |
| Entry.FoldOpsStops | collector/src/ast_analyze/entry.rs:99-102 | a panicking operator ends the file's fold, and no later operator changes the outcome |
| Entry.FoldOpsTable | collector/src/ast_analyze/entry.rs:99-102 | without a panic, the fold adds under every name the sum of what the operators report under it, and creates exactly the operators' names |
| Entry.FileContribution | collector/src/ast_analyze/entry.rs:99-102 | one `.rs` file adds each registered operator's value under that operator's own name, and creates no other key |
| Entry.AnalyzeBenchmark | collector/src/ast_analyze/entry.rs:55-73 | each benchmark starts from a fresh empty visited set, and an error of its walk becomes a panic |
| Entry.AnalyzeAllShape | collector/src/ast_analyze/entry.rs:31-39 | when no benchmark panics there is one result per benchmark, in order, with its name, iterations 0 and its table |
| Entry.AnalyzeAllStops | collector/src/ast_analyze/entry.rs:33-39 | a panicking benchmark ends the run |
| Entry.AstCodeAnalyze | collector/src/ast_analyze/entry.rs:21-39 | a missing dependency directory aborts; a discovery error propagates; otherwise the loop builds the results of all benchmarks |
| Entry.CyclicLockEndsOnce | collector/src/ast_analyze/entry.rs:104-112 | a dependency whose lock file lists itself, listed twice beside a missing path, is walked exactly once and the walk ends |
| TexWriter.MetricNamesExact | collector/src/src_code_analyze/tex_writer.rs:62-74 | a name is a key of the pivot exactly when some run's stats have it |
| TexWriter.ColumnLength | collector/src/src_code_analyze/tex_writer.rs:62-74 | a metric's pushed list has as many pairs as there are runs with that metric |
| TexWriter.ColumnMembers | collector/src/src_code_analyze/tex_writer.rs:62-74 | a pair is in a metric's list exactly when some run of that benchmark has that stat for the metric |
| TexWriter.InsertByStat | collector/src/src_code_analyze/tex_writer.rs:76-78 | inserting into a sorted list keeps it sorted and adds exactly the one pair |
| TexWriter.SortByStat | collector/src/src_code_analyze/tex_writer.rs:76-78 | the sort's result is in non-decreasing stat order and is a permutation of its input |
| TexWriter.SortIsStable | collector/src/src_code_analyze/tex_writer.rs:76-78 | pairs with equal stats keep their pushed order, as `sort_by` is stable |
| TexWriter.PushRun | collector/src/src_code_analyze/tex_writer.rs:64-72 | for every metric of a run, a missing list is created and the run's pair pushed, whatever order the metrics come in |
| TexWriter.PushRuns | collector/src/src_code_analyze/tex_writer.rs:63-73 | the loop over a benchmark's runs pushes every run's pairs |
| TexWriter.PushAll | collector/src/src_code_analyze/tex_writer.rs:62-74 | after all results, the map holds every metric name with its pushed list |
| TexWriter.SortLists | collector/src/src_code_analyze/tex_writer.rs:76-78 | every list is replaced by its sorted version, and the keys stay the same |
| TexWriter.CollectMetrics | collector/src/src_code_analyze/tex_writer.rs:59-81 | the result is the pivot: each metric name of the results mapped to its pushed list sorted by stat |
| TexWriter.CollectedKeys | collector/src/src_code_analyze/tex_writer.rs:62-74 | the keys of the output are exactly the metric names that occur in any result's stats |
| TexWriter.CollectedEntries | collector/src/src_code_analyze/tex_writer.rs:62-74 | each list holds exactly one pair for every run having the metric, and nothing else |
| TexWriter.CollectedSorted | collector/src/src_code_analyze/tex_writer.rs:76-78 | each list is sorted by stat, is a permutation of what was pushed, and keeps the pushed order among equal stats |
| TexWriter.CollectedTotal | collector/src/src_code_analyze/tex_writer.rs:62-74 | the lengths of all lists add up to the number of (metric, stat) pairs over all results |
| TexWriter.TableBody | collector/src/src_code_analyze/tex_writer.rs:28-45 | the counter starts at 0 for each metric and always equals the entry index modulo j + 1, so the body is the layout |
| TexWriter.RowEnds | collector/src/src_code_analyze/tex_writer.rs:34-40 | entry k is followed by "&" when k mod (j + 1) < j, and by a row break and newline otherwise; with j = 3 the break comes when k mod 4 = 3 |
| TexWriter.RowShape | collector/src/src_code_analyze/tex_writer.rs:28-45 | every complete row of the body ends with its only newline and holds 2(j + 1) cells |
| TexWriter.AsWrittenRowTooWide | collector/src/src_code_analyze/tex_writer.rs:22-40 | as written, every complete row holds 8 cells while the tabular declares 6 columns |
| TexWriter.CorrectedRowFits | collector/src/src_code_analyze/tex_writer.rs:22-40 | with three pairs per row, every complete row fills exactly the declared columns |
| TexWriter.TexFileNameInjective | collector/src/src_code_analyze/tex_writer.rs:13-16 | different metrics never share an output file name |
| TexWriter.WriteTables | collector/src/src_code_analyze/tex_writer.rs:13-45 | there is one output file per metric, named "src-code-analyze-results-" + metric + ".json", holding that metric's table body |
| TexWriter.WriteTexAsWritten | collector/src/src_code_analyze/tex_writer.rs:10-56 | the files of the as-written report: the pivot of the results, then rows of four pairs |
| TexWriter.WriteTex | collector/src/src_code_analyze/tex_writer.rs:10-56 | the same report with rows of three pairs, matching the tabular's columns |

## Left out

- Real I/O is left out: `read_dir`, opening and reading files, `create_dir_all`, `serde_json::to_writer`, and the `File::create` and `write` calls of `write_tex`.
  - A directory's listing, a file's bytes and tree, and a lock file's dependency paths are values.
  - An I/O error is an entry that reads as `Unreadable`, `Broken` or `None`.
  - The JSON result file is not modelled.
  - Report files are a map from file name to table body. The LaTeX header and footer boilerplate is not part of the body; only its column specification `{ll|ll|ll}` is kept.
  - The result of the ignored `write` of the body, and partial writes, are not modelled.
- The tree-sitter parser and grammar are left out. A tree is a given `Node(kind, named, text, children)` value, and a node's `utf8_text(...).unwrap()` is its `text` field. `parser.parse(...).unwrap()` is taken to succeed.
- For the same reason, the `parallel_calls` test value 4 (parallel_calls.rs:106-132) is not modelled: it depends on the tree the grammar builds for the test source.
- `discover_benchmark_suit`, `read_dependencies` and `d.path(...)` are parameters. The first is a given list of benchmarks, or an error. A lock file yields the resolved paths of its dependencies, and `path.exists()` means the path is a key of the dependency map.
- f64 arithmetic is modelled with `real`:
  - NaN appears only in `FnAvgDepth.FnAvgDepthAsWritten`, as `NotANumber`.
  - The `partial_cmp(...).unwrap()` panic on NaN at tex_writer.rs:78 cannot happen on reals.
  - The `Display` formatting of a stat in a table cell is a function parameter `show`.
- The operators' signatures disagree: entry.rs:58 stores `Fn(&Tree)`, parse.rs:9 declares `Fn(&Tree, &[u8])`, and some operators take four arguments. The registry gives all of them one uniform call, in `Parse.RunOp` and `Parse.OpValue`.
- File names are `string`s, so the `to_str().unwrap()` panic on a file name that is not valid UTF-8 (entry.rs:87 and entry.rs:104) is not modelled.
- Logging via `eprintln!` and `println!` (entry.rs:60-64, 108) is left out. The `println!` on entering a dependency becomes the ghost log `walked`.
- `Stats` is defined in a module that is not part of this model. It is a map from name to value, summed key by key.
- `CompileTimeResultSet::new` and `CompileTimeResult::new` also record a version string, a profile and a scenario. A result here keeps only the benchmark name, the iterations and the table.
- HashMap iteration order is an arbitrary choice in the loops of `collect_metrics` and `write_tex`. The proved results do not depend on it.
- Entry.FileStats and the registry use the guarded `FnAvgDepth.FnAvgDepth`: a file without functions contributes 0 to "fn_avg_depth", not NaN (see Findings).
- There is no concurrency in the modelled code.

## Findings

| source | as written | input that shows it | evidently intended | confidence | as-written member | corrected member |
|---|---|---|---|---|---|---|
| collector/src/ast_analyze/ops/fn_avg_depth.rs:21-24 | the sum of per-function mean depths is divided by `function_count` with no zero guard | a file holding only `struct S;`: 0.0 / 0.0 gives NaN | 0 when the file has no functions, as in `avg_args`, `field_count` and `struct_methods` | not executed | FnAvgDepth.FnAvgDepthAsWritten, FnAvgDepth.StructOnlyFileGivesNaN | FnAvgDepth.FnAvgDepth, FnAvgDepth.AverageFnDepthBounds |
| collector/src/src_code_analyze/tex_writer.rs:22-40 | the row counter wraps after `j = 3`, so a row holds four `(benchmark, stat)` pairs, 8 cells | a metric with four results: its first row has 8 cells, but `{ll|ll|ll}` and the header row declare 6 columns | three pairs per row (`j = 2`), matching the three `Benchmark & metric` column pairs of the header | not executed | TexWriter.WriteTexAsWritten, TexWriter.AsWrittenRowTooWide | TexWriter.WriteTex, TexWriter.CorrectedRowFits |
