/** One run of the `review` command: select the models, reuse or generate their
    reviews, and, when asked, produce the meta-review, the concerns table and the
    results record. */
module Pipeline {
  import opened Wrappers
  import opened Seqs
  import opened Dicts
  import opened Registry
  import opened Dispatch
  import opened Prompt
  import opened Concerns

  /** The command's options: `--models`, `--meta-review/--no-meta-review` and
      `--overwrite/--no-overwrite`. */
  datatype Request = Request(models: Option<string>, metaReview: bool, overwrite: bool)

  /** The collaborators `review` calls, whose insides are not modelled:
      generating the reviews for a list of models, generating the meta-review with
      its reviewer-code-to-model mapping, the extraction backend's reply to the
      concerns prompt, the JSON parser, and the CSV and JSON writers of the
      concerns table and the results record. */
  datatype Backend = Backend(
    processPaper: seq<string> -> Dict<string>,
    generateMetaReview: Dict<string> -> (string, Dict<string>),
    extract: PromptFields -> string,
    parse: string -> Option<Json>,
    tableCsv: Table -> string,
    resultsJson: ResultsRecord -> string)

  /** The content of `results.json`. */
  datatype ResultsRecord = ResultsRecord(
    individualReviews: Dict<string>,
    metaReview: string,
    reviewerToModel: Dict<string>)

  /** What the meta-review stage produces. */
  datatype MetaStage = MetaStage(
    text: string,
    reviewerToModel: Dict<string>,
    prompt: PromptFields,
    concerns: Option<Table>,
    results: ResultsRecord)

  datatype Outcome =
    | NothingSelected
    | Completed(selected: seq<string>, toProcess: seq<string>, store: Store, meta: Option<MetaStage>)

  /** The reviews the backend generates for the queue; nothing when the queue is
      empty, since the backend is then not called. */
  function Generated(backend: Backend, toProcess: seq<string>): (r: Dict<string>)
    ensures toProcess == [] ==> r.keys == [] && r.entries == map[]
    ensures toProcess != [] ==> r == backend.processPaper(toProcess)
  {
    if |toProcess| > 0 then backend.processPaper(toProcess) else Empty()
  }

  /** The reviews after the cache/dispatch step and the merge: the cached models
      and the queue partition the selection; the reviews are the cached models'
      file contents followed by the generated ones, each model once, in order of
      first insertion; a generated review replaces a cached one. */
  ghost predicate ReviewsGathered(selected: seq<string>, files: Files, overwrite: bool,
                                  toProcess: seq<string>, generated: Dict<string>, reviews: Dict<string>)
  {
    var cached := Filter(CachePolicy(files, overwrite), selected);
    && toProcess == Filter(GeneratePolicy(files, overwrite), selected)
    && multiset(cached) + multiset(toProcess) == multiset(selected)
    && reviews.keys == Dedup(cached + generated.keys)
    && (forall m :: m in reviews.entries <==>
          (m in selected && UsesCache(files, overwrite, m)) || m in generated.entries)
    && (forall m :: m in generated.entries ==> reviews.entries[m] == generated.entries[m])
    && (forall m :: m in reviews.entries && m !in generated.entries ==>
          ReviewFile(m) in files && reviews.entries[m] == files[ReviewFile(m)])
  }

  /** The output directory afterwards: a review file per generated review, the
      files of the meta-review stage (`artifacts`), every other file as it was. */
  ghost predicate FilesWritten(files: Files, generated: Dict<string>, artifacts: Files, after: Files)
  {
    && after.Keys == files.Keys + WrittenFiles(generated) + artifacts.Keys
    && (forall m :: m in generated.entries ==> after[ReviewFile(m)] == generated.entries[m])
    && (forall f :: f in artifacts ==> after[f] == artifacts[f])
    && (forall f :: f in files && f !in WrittenFiles(generated) && f !in artifacts ==> after[f] == files[f])
  }

  /** cli.py:110-140: resolve the selection against the existing review files,
      generate the missing reviews and save them. */
  method Gather(selected: seq<string>, files: Files, overwrite: bool, backend: Backend)
    returns (st: Store, toProcess: seq<string>)
    ensures Consistent(st)
    ensures ReviewsGathered(selected, files, overwrite, toProcess, Generated(backend, toProcess), st.reviews)
    ensures FilesWritten(files, Generated(backend, toProcess), map[], st.files)
  {
    var cachedStore;
    cachedStore, toProcess := Resolve(selected, files, overwrite);
    var generated := Generated(backend, toProcess);
    st := SaveGenerated(cachedStore, generated);
    GatheredReviews(selected, files, overwrite, toProcess, generated, cachedStore.reviews, st.reviews);
    GatheredFiles(files, generated, cachedStore.files, st.files);
  }

  /** The merge of the cached reviews with the generated ones meets `ReviewsGathered`. */
  lemma GatheredReviews(selected: seq<string>, files: Files, overwrite: bool, toProcess: seq<string>,
                        generated: Dict<string>, cached: Dict<string>, merged: Dict<string>)
    requires toProcess == Filter(GeneratePolicy(files, overwrite), selected)
    requires multiset(Filter(CachePolicy(files, overwrite), selected)) + multiset(toProcess) == multiset(selected)
    requires cached.keys == Dedup(Filter(CachePolicy(files, overwrite), selected))
    requires forall m :: m in cached.entries <==> m in selected && UsesCache(files, overwrite, m)
    requires forall m :: m in cached.entries ==> cached.entries[m] == files[ReviewFile(m)]
    requires merged.entries == cached.entries + generated.entries
    requires merged.keys == Dedup(cached.keys + generated.keys)
    ensures ReviewsGathered(selected, files, overwrite, toProcess, generated, merged)
  {
    DedupMerge(Filter(CachePolicy(files, overwrite), selected), generated.keys);
  }

  /** Saving the generated reviews into the untouched directory meets `FilesWritten`. */
  lemma GatheredFiles(files: Files, generated: Dict<string>, before: Files, after: Files)
    requires before == files
    requires after.Keys == before.Keys + WrittenFiles(generated)
    requires forall m :: m in generated.entries ==> after[ReviewFile(m)] == generated.entries[m]
    requires forall f :: f in before && f !in WrittenFiles(generated) ==> after[f] == before[f]
    ensures FilesWritten(files, generated, map[], after)
  {
  }

  /** The files the meta-review stage writes: `meta_review.md` with the
      meta-review text, the concerns table as CSV when one was extracted, and
      `results.json` with the results record. */
  function ArtifactFiles(meta: MetaStage, backend: Backend): (r: Files)
    ensures forall f :: f in r ==> !f.ReviewFile?
    ensures r.Keys == {MetaReviewFile, ResultsFile} + (if meta.concerns.Some? then {ConcernsTableFile} else {})
    ensures r[MetaReviewFile] == meta.text && r[ResultsFile] == backend.resultsJson(meta.results)
    ensures meta.concerns.Some? ==> r[ConcernsTableFile] == backend.tableCsv(meta.concerns.value)
  {
    var written := map[MetaReviewFile := meta.text, ResultsFile := backend.resultsJson(meta.results)];
    if meta.concerns.Some? then written[ConcernsTableFile := backend.tableCsv(meta.concerns.value)] else written
  }

  /** cli.py:153-155, 229-231 and 243-245: writing files other than review files
      leaves the reviews alone and keeps every review equal to its file. */
  function WriteArtifacts(st: Store, artifacts: Files): (r: Store)
    requires forall f :: f in artifacts ==> !f.ReviewFile?
    ensures r.reviews == st.reviews && r.reviewData == st.reviewData
    ensures r.files.Keys == st.files.Keys + artifacts.Keys
    ensures forall f :: f in artifacts ==> r.files[f] == artifacts[f]
    ensures forall f :: f in st.files && f !in artifacts ==> r.files[f] == st.files[f]
    ensures Consistent(st) ==> Consistent(r)
  {
    st.(files := st.files + artifacts)
  }

  /** Writing the meta-review stage's files after the reviews extends `FilesWritten`. */
  lemma ArtifactsWritten(files: Files, generated: Dict<string>, st: Store, artifacts: Files)
    requires forall f :: f in artifacts ==> !f.ReviewFile?
    requires FilesWritten(files, generated, map[], st.files)
    ensures FilesWritten(files, generated, artifacts, WriteArtifacts(st, artifacts).files)
  {
  }

  /** cli.py:146-246 for the gathered reviews: generate the meta-review, format the
      extraction prompt, extract the concerns table and assemble the results record. */
  function MetaStageFor(reviews: Dict<string>, reviewData: Dict<string>, backend: Backend): (meta: MetaStage)
    ensures (meta.text, meta.reviewerToModel) == backend.generateMetaReview(reviews)
    ensures meta.prompt == FieldsFor(reviews, meta.text, meta.reviewerToModel)
    ensures meta.concerns == ExtractConcerns(backend.extract(meta.prompt), backend.parse, reviews.keys)
    ensures meta.concerns.Some? ==> forall m :: m in reviews.entries ==> m in meta.concerns.value.columns
    ensures meta.results == ResultsRecord(reviewData, meta.text, meta.reviewerToModel)
  {
    var (text, natoToModel) := backend.generateMetaReview(reviews);
    var prompt := FieldsFor(reviews, text, natoToModel);
    var concerns := ExtractConcerns(backend.extract(prompt), backend.parse, reviews.keys);
    MetaStage(text, natoToModel, prompt, concerns, ResultsRecord(reviewData, text, natoToModel))
  }

  /** The `review` command on the output directory's files `files`. */
  method Review(req: Request, files: Files, backend: Backend) returns (out: Outcome)
    ensures out.NothingSelected? <==> SelectModels(req.models).Failure?
    ensures out.Completed? ==>
      var generated := Generated(backend, out.toProcess);
      && out.selected == SelectModels(req.models).value
      && Consistent(out.store)
      && ReviewsGathered(out.selected, files, req.overwrite, out.toProcess, generated, out.store.reviews)
      && FilesWritten(files, generated, if out.meta.Some? then ArtifactFiles(out.meta.value, backend) else map[],
                      out.store.files)
      && (out.meta.Some? <==> req.metaReview)
      && (out.meta.Some? ==> out.meta.value == MetaStageFor(out.store.reviews, out.store.reviewData, backend))
  {
    var selection := SelectModels(req.models);
    if selection.Failure? {
      return NothingSelected;
    }
    var selected := selection.value;
    var st, toProcess := Gather(selected, files, req.overwrite, backend);
    if !req.metaReview {
      return Completed(selected, toProcess, st, None);
    }
    var meta := MetaStageFor(st.reviews, st.reviewData, backend);
    var artifacts := ArtifactFiles(meta, backend);
    var final := WriteArtifacts(st, artifacts);
    ArtifactsWritten(files, Generated(backend, toProcess), st, artifacts);
    out := Completed(selected, toProcess, final, Some(meta));
  }
}
