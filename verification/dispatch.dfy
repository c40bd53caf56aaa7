/** The cache/dispatch step of `review` (which selected models reuse an existing
    review file and which are sent for generation) and the merge of freshly
    generated reviews into `reviews` and `review_data`, with the files written. */
module Dispatch {
  import opened Seqs
  import opened Dicts

  /** The files the `review` command reads and writes in the paper's output
      directory. */
  datatype OutputFile = ReviewFile(model: string) | MetaReviewFile | ConcernsTableFile | ResultsFile

  /** The file's name inside the output directory. */
  function FileName(f: OutputFile): string {
    match f
    case ReviewFile(model) => "review_" + model + ".md"
    case MetaReviewFile => "meta_review.md"
    case ConcernsTableFile => "concerns_table.csv"
    case ResultsFile => "results.json"
  }

  /** Distinct output files have distinct names: in particular no two models share
      a review file and no model's review file is the meta-review, the table or the
      results record. */
  lemma FileNameInjective(a: OutputFile, b: OutputFile)
    ensures FileName(a) == FileName(b) ==> a == b
  {
    if FileName(a) == FileName(b) {
      // the third character tells a review file ('v') from the others
      if a.ReviewFile? && b.ReviewFile? {
        var name := FileName(a);
        assert a.model == name[7..|name| - 3] == b.model;
      } else {
        assert FileName(a)[2] == FileName(b)[2];
      }
    }
  }

  /** The text of the files in the paper's output directory; a file exists iff
      it is a key. */
  type Files = map<OutputFile, string>

  /** The test on cli.py:117: an existing review file is reused unless `overwrite`. */
  predicate UsesCache(files: Files, overwrite: bool, model: string) {
    ReviewFile(model) in files && !overwrite
  }

  function CachePolicy(files: Files, overwrite: bool): (p: string -> bool)
    ensures forall m :: p(m) == UsesCache(files, overwrite, m)
  {
    m => UsesCache(files, overwrite, m)
  }

  function GeneratePolicy(files: Files, overwrite: bool): (p: string -> bool)
    ensures forall m :: p(m) == !UsesCache(files, overwrite, m)
  {
    m => !UsesCache(files, overwrite, m)
  }

  /** The state the `review` command builds up: the two dicts `reviews` and
      `review_data`, and the output directory's files. */
  datatype Store = Store(reviews: Dict<string>, reviewData: Dict<string>, files: Files)

  /** `reviews` and `review_data` agree, and every review held is the text of
      its model's review file. File text is taken as it is stored: a write
      followed by a read gives the same text back (no newline translation). */
  predicate Consistent(st: Store) {
    && st.reviews == st.reviewData
    && forall m :: m in st.reviews.entries ==>
         ReviewFile(m) in st.files && st.files[ReviewFile(m)] == st.reviews.entries[m]
  }

  /** `reviews[model] = text` and `review_data[model] = text` (cli.py:121-122 and
      138-139). Recording a model's review file content keeps the store consistent. */
  function Record(st: Store, model: string, text: string): (r: Store)
    ensures r.files == st.files
    ensures r.reviews == Put(st.reviews, model, text) && r.reviewData == Put(st.reviewData, model, text)
    ensures Consistent(st) && ReviewFile(model) in st.files && st.files[ReviewFile(model)] == text
            ==> Consistent(r)
  {
    Store(Put(st.reviews, model, text), Put(st.reviewData, model, text), st.files)
  }

  /** cli.py:135-139: write a generated review to its file, then record it. */
  function Save(st: Store, model: string, text: string): (r: Store)
    ensures r.files == st.files[ReviewFile(model) := text]
    ensures r.reviews == Put(st.reviews, model, text) && r.reviewData == Put(st.reviewData, model, text)
    ensures Consistent(st) ==> Consistent(r)
  {
    var r := Store(Put(st.reviews, model, text), Put(st.reviewData, model, text),
                   st.files[ReviewFile(model) := text]);
    assert Consistent(st) ==> Consistent(r) by {
      if Consistent(st) {
        forall m | m in r.reviews.entries
          ensures ReviewFile(m) in r.files && r.files[ReviewFile(m)] == r.reviews.entries[m]
        {
        }
      }
    }
    r
  }

  /** cli.py:110-125: walk the selection once; a model with a reusable review file
      has that file's text recorded in both dicts, every other model is queued for
      generation. The cached models and the queue partition the selection, each in
      selection order. */
  method Resolve(selected: seq<string>, files: Files, overwrite: bool) returns (st: Store, toProcess: seq<string>)
    ensures st.files == files && Consistent(st)
    ensures toProcess == Filter(GeneratePolicy(files, overwrite), selected)
    ensures st.reviews.keys == Dedup(Filter(CachePolicy(files, overwrite), selected))
    ensures forall m :: m in st.reviews.entries <==> m in selected && UsesCache(files, overwrite, m)
    ensures multiset(Filter(CachePolicy(files, overwrite), selected)) + multiset(toProcess) == multiset(selected)
    ensures overwrite ==> toProcess == selected && st.reviews.keys == []
    ensures !overwrite ==> forall m :: m in toProcess <==> m in selected && ReviewFile(m) !in files
  {
    var cached, generate := CachePolicy(files, overwrite), GeneratePolicy(files, overwrite);
    st := Store(Empty(), Empty(), files);
    toProcess := [];
    var i := 0;
    while i < |selected|
      invariant 0 <= i <= |selected|
      invariant st.files == files && Consistent(st)
      invariant toProcess == Filter(generate, selected[..i])
      invariant st.reviews.keys == Dedup(Filter(cached, selected[..i]))
    {
      var model := selected[i];
      ResolveStep(cached, generate, selected, i);
      if ReviewFile(model) in files && !overwrite {
        PutKeepsFirstOrder(st.reviews, Filter(cached, selected[..i]), model, files[ReviewFile(model)]);
        st := Record(st, model, files[ReviewFile(model)]);
      } else {
        assert Filter(cached, selected[..i + 1]) == Filter(cached, selected[..i]);
        toProcess := toProcess + [model];
      }
      i := i + 1;
    }
    assert selected[..i] == selected;
    ResolveOutcome(files, overwrite, selected);
  }

  /** What the two filters of a whole selection contain. */
  lemma ResolveOutcome(files: Files, overwrite: bool, selected: seq<string>)
    ensures var cached, generate := CachePolicy(files, overwrite), GeneratePolicy(files, overwrite);
      && (forall m :: m in Dedup(Filter(cached, selected)) <==> m in selected && UsesCache(files, overwrite, m))
      && (forall m :: m in Filter(generate, selected) <==> m in selected && !UsesCache(files, overwrite, m))
      && multiset(Filter(cached, selected)) + multiset(Filter(generate, selected)) == multiset(selected)
      && (overwrite ==> Filter(generate, selected) == selected && Filter(cached, selected) == [])
  {
    var cached, generate := CachePolicy(files, overwrite), GeneratePolicy(files, overwrite);
    DedupContains(Filter(cached, selected));
    FilterContains(cached, selected);
    FilterContains(generate, selected);
    FilterPartition(cached, generate, selected);
    if overwrite {
      FilterAll(generate, selected);
    }
  }

  /** How both filters of the selection grow by one element. */
  lemma ResolveStep(cached: string -> bool, generate: string -> bool, selected: seq<string>, i: nat)
    requires i < |selected|
    requires forall m :: generate(m) == !cached(m)
    ensures Filter(cached, selected[..i + 1]) == Filter(cached, selected[..i]) + (if cached(selected[i]) then [selected[i]] else [])
    ensures Filter(generate, selected[..i + 1]) == Filter(generate, selected[..i]) + (if cached(selected[i]) then [] else [selected[i]])
  {
    assert selected[..i + 1] == selected[..i] + [selected[i]];
    FilterSnoc(cached, selected[..i], selected[i]);
    FilterSnoc(generate, selected[..i], selected[i]);
  }

  /** The review files written for a map of generated reviews. */
  function WrittenFiles(generated: Dict<string>): (files: set<OutputFile>)
    ensures forall f :: f in files <==> f.ReviewFile? && f.model in generated.entries
  {
    set m | m in generated.keys :: ReviewFile(m)
  }

  /** The state after the first `j` generated reviews have been saved. */
  ghost predicate SavedUpTo(st: Store, generated: Dict<string>, j: nat, r: Store)
    requires j <= |generated.keys|
  {
    && Consistent(r)
    && ReviewsSavedUpTo(st.reviews, generated, j, r.reviews)
    && FilesSavedUpTo(st.files, generated, j, r.files)
  }

  /** The reviews after the first `j` generated reviews have been recorded. */
  ghost predicate ReviewsSavedUpTo(prior: Dict<string>, generated: Dict<string>, j: nat, reviews: Dict<string>)
    requires j <= |generated.keys|
  {
    var done := generated.keys[..j];
    && (forall m :: m in reviews.entries <==> m in prior.entries || m in done)
    && (forall m :: m in done ==> reviews.entries[m] == generated.entries[m])
    && (forall m :: m in prior.entries && m !in done ==> reviews.entries[m] == prior.entries[m])
    && reviews.keys == Dedup(prior.keys + done)
  }

  /** The directory after the first `j` generated reviews have been written. */
  ghost predicate FilesSavedUpTo(prior: Files, generated: Dict<string>, j: nat, files: Files)
    requires j <= |generated.keys|
  {
    var done := generated.keys[..j];
    && (forall f :: f in files <==> f in prior || (f.ReviewFile? && f.model in done))
    && (forall f :: f in prior && !(f.ReviewFile? && f.model in done) ==> files[f] == prior[f])
  }

  /** Saving the next generated review extends `SavedUpTo` by one. */
  lemma SavedStep(st: Store, generated: Dict<string>, j: nat, r: Store)
    requires j < |generated.keys| && SavedUpTo(st, generated, j, r)
    ensures SavedUpTo(st, generated, j + 1, Save(r, generated.keys[j], generated.entries[generated.keys[j]]))
  {
    ReviewsSavedStep(st.reviews, generated, j, r.reviews);
    FilesSavedStep(st.files, generated, j, r.files);
  }

  /** Recording the next generated review extends `ReviewsSavedUpTo` by one. */
  lemma ReviewsSavedStep(prior: Dict<string>, generated: Dict<string>, j: nat, reviews: Dict<string>)
    requires j < |generated.keys| && ReviewsSavedUpTo(prior, generated, j, reviews)
    ensures var model := generated.keys[j];
            ReviewsSavedUpTo(prior, generated, j + 1, Put(reviews, model, generated.entries[model]))
  {
    var model := generated.keys[j];
    var done, done' := generated.keys[..j], generated.keys[..j + 1];
    assert done' == done + [model];
    assert prior.keys + done' == (prior.keys + done) + [model];
    PutKeepsFirstOrder(reviews, prior.keys + done, model, generated.entries[model]);
  }

  /** Writing the next generated review's file extends `FilesSavedUpTo` by one. */
  lemma FilesSavedStep(prior: Files, generated: Dict<string>, j: nat, files: Files)
    requires j < |generated.keys| && FilesSavedUpTo(prior, generated, j, files)
    ensures var model := generated.keys[j];
            FilesSavedUpTo(prior, generated, j + 1, files[ReviewFile(model) := generated.entries[model]])
  {
    assert generated.keys[..j + 1] == generated.keys[..j] + [generated.keys[j]];
  }

  /** cli.py:133-140: each generated review is written to its review file and
      recorded in both dicts. `reviews` becomes the old map overridden by the
      generated one, new keys appended in generation order; no other file changes
      and the store stays consistent. */
  method SaveGenerated(st: Store, generated: Dict<string>) returns (r: Store)
    requires Consistent(st)
    ensures Consistent(r)
    ensures r.reviews.entries == st.reviews.entries + generated.entries
    ensures r.reviews.keys == Dedup(st.reviews.keys + generated.keys)
    ensures r.files.Keys == st.files.Keys + WrittenFiles(generated)
    ensures forall m :: m in generated.entries ==> r.files[ReviewFile(m)] == generated.entries[m]
    ensures forall f :: f in st.files && f !in WrittenFiles(generated) ==> r.files[f] == st.files[f]
  {
    r := st;
    var j := 0;
    SavedInitially(st, generated);
    while j < |generated.keys|
      invariant 0 <= j <= |generated.keys|
      invariant SavedUpTo(st, generated, j, r)
    {
      SavedStep(st, generated, j, r);
      r := Save(r, generated.keys[j], generated.entries[generated.keys[j]]);
      j := j + 1;
    }
    SavedAll(st, generated, r);
  }

  lemma SavedInitially(st: Store, generated: Dict<string>)
    requires Consistent(st)
    ensures SavedUpTo(st, generated, 0, st)
  {
    assert generated.keys[..0] == [];
    assert st.reviews.keys + [] == st.reviews.keys;
    DedupDistinct(st.reviews.keys);
  }

  lemma SavedAll(st: Store, generated: Dict<string>, r: Store)
    requires SavedUpTo(st, generated, |generated.keys|, r)
    ensures r.reviews.entries == st.reviews.entries + generated.entries
    ensures r.reviews.keys == Dedup(st.reviews.keys + generated.keys)
    ensures r.files.Keys == st.files.Keys + WrittenFiles(generated)
    ensures forall f :: f in st.files && f !in WrittenFiles(generated) ==> r.files[f] == st.files[f]
  {
    assert generated.keys[..|generated.keys|] == generated.keys;
    assert r.reviews.entries.Keys == (st.reviews.entries + generated.entries).Keys;
  }
}
