# ai-peer-review `review` command, modelled in Dafny

`ai-peer-review` sends a paper to several language models for peer review.
It then has one model write a meta-review and a third call extract a table of
concerns. This project models the decision logic of the `review` command in
`src/ai_peer_review/cli.py` and proves properties of it:

- **Model registry and selection.** The fixed list of six model names is
  modelled, and so is the `--models` option. That option is split at commas,
  each item is stripped of white space, and unknown names are dropped. The run
  stops when no known name is left.
- **Cache/dispatch.** Each selected model whose `review_<model>.md` file
  already exists (and `--overwrite` is off) has that file's text recorded.
  Every other selected model is queued for generation.
- **Merge.** The freshly generated reviews are written to their files and
  merged into the two dicts `reviews` and `review_data`.
- **Meta-review stage.** The meta-review is generated and written. The
  extraction prompt's fields are formatted: the model list, the first and
  second model, and the reviewer-code mapping text. The `\{.*\}` span is cut
  out of the extraction reply and its `concerns` array becomes a table. A
  `False` column is added for every reviewed model the table lacks. Finally
  the results record is assembled.

Modules, one per file:

| file | module | what it holds |
|---|---|---|
| `wrappers.dfy` | `Wrappers` | `Option`, `Result` |
| `seqs.dfy` | `Seqs` | `Filter` (list comprehension with a test), `Dedup` (dict key order), subsequences |
| `strings.dfy` | `Strings` | Python's `str.strip()`, `str.split(c)`, `sep.join` |
| `dicts.dfy` | `Dicts` | insertion-ordered `dict` with string keys |
| `registry.dfy` | `Registry` | `get_available_models`, the `--models` selection |
| `dispatch.dfy` | `Dispatch` | output files, the cache/dispatch loop, saving generated reviews |
| `extraction.dfy` | `Extraction` | the greedy brace span `re.search(r'\{.*\}', ..., re.DOTALL)` |
| `prompt.dfy` | `Prompt` | the values substituted into the extraction prompt |
| `concerns.dfy` | `Concerns` | JSON values, the concerns table, column completion |
| `pipeline.dfy` | `Pipeline` | one whole run of `review` |

Modelling choices:

- The output directory is a map from `OutputFile` to text. A file exists
  exactly when it is a key. Reading a file gives back exactly the text last
  written to it. `Dispatch.FileNameInjective` justifies keying by
  `OutputFile` rather than by file name: distinct files have distinct names.
- Python dicts are `Dicts.Dict`: a key sequence in insertion order plus a
  map. Key order matters because `list(reviews.keys())` supplies the first and
  second model of the prompt and the order of the table's added columns.
- The collaborators the command calls are the function fields of
  `Pipeline.Backend`: `process_paper`, `generate_meta_review`,
  `GoogleClient.generate`, `json.loads`, and the CSV and JSON writers. Their
  behaviour is left open: every property holds whatever they return.
- Python's `if models:` is false both for a missing option and for the empty
  string. Both select the whole registry.

Behaviour of the code worth noting:

- Unknown names in `--models` are dropped silently. Only an empty selection
  is reported (cli.py:101-104).
- The meta-review is generated even when no review was gathered. An empty
  `reviews` only produces a message (cli.py:142-147).
- The payload is the greedy span from the first `{` to the last `}`, not the
  first well-formed object. When that span does not parse, no table is written
  (cli.py:215-234).
- The columns added to the concerns table are the models that were reviewed,
  not all known models. The JSON fields of each concern are kept as they come
  (cli.py:164, 222-227).

## Model

| member | source | states |
|---|---|---|
| Registry.RegistryShape | src/ai_peer_review/cli.py:50-59 | the registry has six distinct names, none empty, none containing a comma, none with white space at either end |
| Registry.RequestedNames | src/ai_peer_review/cli.py:100 | one stripped item per comma-separated piece of the option, in order; there is always at least one item |
| Registry.SelectModels | src/ai_peer_review/cli.py:96-104 | a missing or empty option selects the whole registry; otherwise the selection succeeds iff some item is a known name; the selection is then the known items in request order, repetitions included, with each known name occurring as often as requested; a success is never empty and holds only known names |
| Seqs.Filter | src/ai_peer_review/cli.py:101 | the list comprehension `[m for m in ... if ...]` is never longer than its input |
| Seqs.FilterContains | src/ai_peer_review/cli.py:101 | an item is kept iff it occurs in the input and passes the test |
| Seqs.FilterCounts | src/ai_peer_review/cli.py:101 | every item that passes is kept as often as it occurs; every other item is dropped |
| Seqs.FilterSubsequence | src/ai_peer_review/cli.py:101 | the kept items stay in input order |
| Registry.KnownItems | src/ai_peer_review/cli.py:101-102 | the known items of a request exist iff some item is known; they are all known, keep request order, and keep each known name's number of occurrences |
| Registry.ReparseListing | src/ai_peer_review/cli.py:100 | a list of trimmed comma-free names joined with ", " splits and strips back into exactly that list |
| Registry.SelectsAllKnown | src/ai_peer_review/cli.py:99-101 | an option whose items are all known selects exactly those items |
| Registry.KnownNamesParse | src/ai_peer_review/cli.py:50-59 | known names are comma-free and trimmed, and their ", "-join is non-empty |
| Registry.ListingReselects | src/ai_peer_review/cli.py:98-107 | the ", "-joined selection that the command echoes, passed back as `--models`, selects exactly the same models |
| Strings.Strip | src/ai_peer_review/cli.py:100 | `str.strip()`: the result neither starts nor ends with white space and is no longer than the input |
| Strings.StripIsPadded | src/ai_peer_review/cli.py:100 | what `strip` removes is white space only: the input is the result with white space before and after it |
| Strings.StripOf | src/ai_peer_review/cli.py:100 | stripping white space around a trimmed string gives exactly that string |
| Strings.StripIdempotent | src/ai_peer_review/cli.py:100 | stripping twice is stripping once |
| Strings.Join | src/ai_peer_review/cli.py:198 | `sep.join(parts)` starts with the first part and holds no character that is in neither the separator nor a part |
| Strings.Split | src/ai_peer_review/cli.py:100 | `str.split(c)`: at least one piece, no piece contains the separator, and joining the pieces with the separator gives the input back |
| Strings.SplitJoin | src/ai_peer_review/cli.py:198 | splitting the join of separator-free pieces gives the pieces back |
| Dicts.Put | src/ai_peer_review/cli.py:121-122 | `d[k] = v` replaces the value; a new key goes to the end of the key order, an existing key keeps its place |
| Dicts.Items | src/ai_peer_review/cli.py:202 | `d.items()`: one (key, value) pair per key, in insertion order, each with that key's value |
| Dicts.PutKeepsFirstOrder | src/ai_peer_review/cli.py:138-139 | a dict filled by assigning keys one after another lists them in order of first assignment, without repeats |
| Seqs.DedupMerge | src/ai_peer_review/cli.py:121-139 | filling a dict in two rounds (cached, then generated) gives the same key order as one round over both key lists |
| Dispatch.FileNameInjective | src/ai_peer_review/cli.py:115 | distinct output files have distinct names: no two models share a review file, and no review file is the meta-review, the table or the results file |
| Dispatch.UsesCache | src/ai_peer_review/cli.py:117 | the test `review_file.exists() and not overwrite`; `Dispatch.Resolve` and `Dispatch.ResolveOutcome` state what it decides |
| Dispatch.Record | src/ai_peer_review/cli.py:117-122 | both dicts get the model's text and the files are untouched; recording a review file's own text keeps every held review equal to its file |
| Dispatch.Save | src/ai_peer_review/cli.py:134-139 | the review file is written and both dicts get the text; every held review stays equal to its file |
| Dispatch.Resolve | src/ai_peer_review/cli.py:110-125 | the queue is the selected models without a reusable file, in selection order; the cached dict holds exactly the selected models with a reusable file (file text as value, selection order, once each); cached and queued models are a multiset partition of the selection; with overwrite everything is queued and nothing cached; without it a model is queued iff its review file is absent |
| Dispatch.ResolveOutcome | src/ai_peer_review/cli.py:114-125 | the two filters of a selection contain exactly the cached and the queued models, partition the selection, and with overwrite queue everything |
| Dispatch.WrittenFiles | src/ai_peer_review/cli.py:134-137 | the files written are exactly the review files of the generated models |
| Dispatch.SaveGenerated | src/ai_peer_review/cli.py:133-140 | after saving, `reviews` is the old map overridden by the generated one, new models appended in generation order; every generated review is in its file; no other file changes; both dicts agree and every review equals its file |
| Extraction.FirstIndex | src/ai_peer_review/cli.py:215 | the first position of a character: absent iff the character does not occur |
| Extraction.LastIndex | src/ai_peer_review/cli.py:215 | the last position of a character: absent iff the character does not occur |
| Extraction.BraceSpan | src/ai_peer_review/cli.py:215 | the pattern matches iff a `{` has a `}` somewhere after it; the match runs from the first `{` to the last `}`, with no `{` before it and no `}` after it |
| Extraction.MatchedText | src/ai_peer_review/cli.py:220 | `json_match.group(0)`: for the brace span of a reply, the text is as long as the span, starts with `{` and ends with `}`, and the reply holds no `{` before it and no `}` after it |
| Extraction.SearchGreedy | src/ai_peer_review/cli.py:215 | the regex engine's leftmost, backtracking search for `\{.*\}` under DOTALL finds exactly the span `BraceSpan` describes |
| Extraction.ProseIsStripped | src/ai_peer_review/cli.py:213-220 | a payload between braces, with no `{` in the prose before it and no `}` in the prose after it, is matched exactly |
| Extraction.MatchIsStable | src/ai_peer_review/cli.py:215-220 | searching the matched text again matches all of it |
| Prompt.MappingOf | src/ai_peer_review/cli.py:201-203 | the `+=` loop over the pairs: the text is empty iff there are no pairs; otherwise it starts with the first pair's `code: model` line and its newline, and ends in a newline |
| Prompt.ModelMapping | src/ai_peer_review/cli.py:201-203 | the mapping text is empty iff the reviewer-code mapping is empty, and otherwise ends in a newline |
| Prompt.MappingIsJoin | src/ai_peer_review/cli.py:201-203 | the accumulated mapping text is its `code: model` lines joined by newlines, ending in a newline |
| Prompt.MappingSplits | src/ai_peer_review/cli.py:201-203 | when codes and model names are newline-free, the mapping text splits at newlines into exactly one `code: model` line per reviewer code, in mapping order, plus the empty piece after the last newline |
| Prompt.FieldsFor | src/ai_peer_review/cli.py:198-211 | the model list is the ", "-join of the reviewed models in `reviews` order; the first and second example models are reviewed models, the two earliest, and different from each other when two or more were reviewed; a missing one is the empty string (and the first is missing only when nothing was reviewed); the meta-review text and the mapping text are passed through |
| Prompt.ModelNamesReselect | src/ai_peer_review/cli.py:198 | the prompt's model list has the command line's listing format: for registry models it is a `--models` value that selects exactly the reviewed models, in order |
| Concerns.AllKeysContains | src/ai_peer_review/cli.py:222 | a key occurs among the concern records' keys iff some record has it |
| Concerns.FromRecords | src/ai_peer_review/cli.py:222 | `pd.DataFrame(records)`: one row per record; the columns are the records' keys, distinct, in order of first appearance; each row holds its record's values and missing cells elsewhere |
| Concerns.EnsureColumn | src/ai_peer_review/cli.py:226-227 | one round of the loop: a missing column is appended and is false in every row; an existing column leaves the table as it was; old cells are never touched and the table stays well formed |
| Concerns.CompleteColumns | src/ai_peer_review/cli.py:225-227 | the loop over the reviewed models keeps the table well formed and keeps its row count |
| Concerns.CompletedColumnOrder | src/ai_peer_review/cli.py:224-227 | the columns become the old ones followed by the missing models in order of first mention, without repeats |
| Concerns.CompletedColumns | src/ai_peer_review/cli.py:224-227 | afterwards every reviewed model is a column, and every column is an old one or a reviewed model |
| Concerns.CompletedCells | src/ai_peer_review/cli.py:224-227 | the old columns stay first with their cells untouched, and every added cell is false |
| Concerns.CompleteColumnsNoop | src/ai_peer_review/cli.py:225-226 | when every model is already a column, nothing changes |
| Concerns.CompleteColumnsIdempotent | src/ai_peer_review/cli.py:224-227 | completing the columns twice is the same as completing them once |
| Concerns.RecordsOf | src/ai_peer_review/cli.py:221-222 | the records exist iff the `concerns` value is an array whose items are all objects; there is one record per item, and it is that item's fields |
| Concerns.ExtractConcerns | src/ai_peer_review/cli.py:213-234 | no brace span, or a span that does not parse, gives no table; a table is well formed, has every reviewed model as a column, and is the completed table of the parsed object's `concerns` records |
| Concerns.ConcernCells | src/ai_peer_review/cli.py:222-227 | the completed table has one row per concern record, holding that record's fields as its cells |
| Concerns.ExtractFromProse | src/ai_peer_review/cli.py:213-227 | a reply that wraps a `{"concerns": [...]}` object in brace-free prose yields a table with one row per concern, that concern's fields as cells, and every reviewed model as a column |
| Pipeline.Generated | src/ai_peer_review/cli.py:128-131 | `process_paper` is consulted only for a non-empty queue; an empty queue generates no review |
| Pipeline.GatheredReviews | src/ai_peer_review/cli.py:110-140 | the cached reviews merged with the generated ones are the cached file texts overridden by the generated reviews, keyed in order of first insertion over the cached models and then the generated ones |
| Pipeline.Gather | src/ai_peer_review/cli.py:110-140 | after the dispatch and merge: cached and queued models partition the selection; `reviews` holds exactly the cached models and the generated ones; a generated review wins over a cached one; every other review is its file's text; both dicts agree; only the generated models' review files are written |
| Pipeline.GatheredFiles | src/ai_peer_review/cli.py:134-137 | saving the generated reviews writes exactly their review files and leaves every other file alone |
| Pipeline.ArtifactFiles | src/ai_peer_review/cli.py:153-245 | the meta-review stage writes `meta_review.md` holding the meta-review text and `results.json` holding the JSON writer's output for the results record, plus `concerns_table.csv` holding the CSV writer's output for the table exactly when a table was extracted; none of these is a review file |
| Pipeline.WriteArtifacts | src/ai_peer_review/cli.py:153-245 | writing files that are not review files changes neither dict and no other file, and every review still equals its file |
| Pipeline.ArtifactsWritten | src/ai_peer_review/cli.py:153-245 | writing the meta-review stage's files after the reviews leaves the generated review files and every untouched file as they were |
| Pipeline.MetaStageFor | src/ai_peer_review/cli.py:146-246 | the meta-review and mapping come from the backend; the prompt fields are those of the gathered reviews; a concerns table, when there is one, has every reviewed model as a column; the results record holds `review_data`, the meta-review text and the mapping |
| Pipeline.Review | src/ai_peer_review/cli.py:86-248 | the run stops iff the selection fails; otherwise it gathers reviews as `Gather` states and runs the meta-review stage iff `--meta-review` is on, even with no reviews; it writes the generated review files and that stage's files, and no other file changes |

## Left out

- Click wiring, `--output-dir`, path handling and `mkdir`: the model starts
  from the map of files already in the paper's output directory.
- The console messages (`click.echo`) and the unused `reviewer_codes` list:
  they have no effect on the results.
- Configuration lookup (`get_prompt`, `ctx.obj["config_file"]`) and the prompt
  template with its `str.format`: the model stops at the five values
  substituted into the template (`Prompt.PromptFields`).
- `process_paper`, `generate_meta_review` and `GoogleClient.generate` are
  parameters (`Pipeline.Backend`), not modelled code. Their failures are not
  modelled either. They are called outside any `try`, so an exception from
  one of them ends the run part-way; the model treats each call as returning
  a value.
- `json.loads` is a parameter too (`Backend.parse`), but its failure is
  modelled: it returns `None`. The parse and the table building run inside
  `try ... except Exception` (cli.py:217-234). So a parse failure, or an
  exception from `pd.DataFrame`, only drops the table
  (`Concerns.ExtractConcerns` gives `None`). The run then goes on to write
  `results.json` (cli.py:237-245).
- Serialising the concerns table as CSV (`df.to_csv`) and the results record
  as JSON (`json.dump`): the writers are parameters (`Backend.tableCsv`,
  `Backend.resultsJson`). The model fixes which value is written to which
  file, not the text.
- File-system errors on any file in the output directory: the model treats
  every read and write as succeeding. These include the review files
  (cli.py:119-120, 136-137), `meta_review.md` (cli.py:155-156) and
  `results.json` (cli.py:244-245), where a failure would end the run. They
  also include `concerns_table.csv` (cli.py:231), where a `df.to_csv` failure
  is caught and only the table file would be missing.
- Dispatch.Consistent: text-mode newline translation and the locale encoding
  are not modelled. Python's `open(..., "r")` turns `\r\n` and `\r` into `\n`
  (cli.py:119-120) and `open(..., "w")` turns `\n` into `os.linesep`
  (cli.py:136-137); the model takes file text to read back exactly as
  written. So "every held review equals its file" holds for the text as
  stored; a generated review holding `\r` comes back with `\n` as a cached
  review in a later run.
- Concerns.ExtractConcerns: a `concerns` value other than an array of objects
  gives no table. pandas would build a frame from some other shapes (null, an
  object of arrays, an array of scalars), and the model does not follow those.
- Concerns.ExtractConcerns: a parsed value that is not an object gives no
  table. A reply span that starts with `{` parses only to an object, so this
  does not narrow the behaviour.
- Concerns.Json: JSON numbers are exact reals; floating-point rounding is not
  modelled.
