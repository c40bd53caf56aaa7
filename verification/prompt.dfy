/** The values substituted into the concerns-extraction prompt: the reviewed
    models' names, the first two of them for the prompt's example object, the
    meta-review text and the reviewer-code-to-model mapping. */
module Prompt {
  import opened Wrappers
  import opened Strings
  import opened Dicts
  import opened Registry

  datatype PromptFields = PromptFields(
    modelNames: string,
    firstModel: string,
    secondModel: string,
    metaReviewText: string,
    modelMapping: string)

  /** One line of the mapping without its newline: `"<code>: <model>"`. */
  function MappingLine(code: string, model: string): string {
    code + ": " + model
  }

  /** The mapping's lines, one per (code, model) pair, in order. */
  function MappingLines(items: seq<(string, string)>): (r: seq<string>)
    ensures |r| == |items|
    ensures forall i :: 0 <= i < |r| ==> r[i] == MappingLine(items[i].0, items[i].1)
  {
    seq(|items|, i requires 0 <= i < |items| => MappingLine(items[i].0, items[i].1))
  }

  /** The mapping text the loop accumulates: each pair's line followed by a newline. */
  function MappingOf(items: seq<(string, string)>): (r: string)
    ensures r == "" <==> |items| == 0
    ensures |items| > 0 ==> r[|r| - 1] == '\n' && MappingLine(items[0].0, items[0].1) + "\n" <= r
  {
    if |items| == 0 then ""
    else MappingLine(items[0].0, items[0].1) + "\n" + MappingOf(items[1..])
  }

  /** `model_mapping` for the meta-review's reviewer-code mapping, in its key order. */
  function ModelMapping(natoToModel: Dict<string>): (r: string)
    ensures r == "" <==> natoToModel.entries == map[]
    ensures r != "" ==> r[|r| - 1] == '\n'
  {
    assert natoToModel.keys != [] ==> natoToModel.keys[0] in natoToModel.entries;
    MappingOf(Items(natoToModel))
  }

  /** The mapping text is its lines joined by newlines, with a final newline. */
  lemma {:induction false} MappingIsJoin(items: seq<(string, string)>)
    ensures MappingOf(items) == Join(MappingLines(items) + [""], "\n")
  {
    if |items| > 0 {
      MappingIsJoin(items[1..]);
      assert MappingLines(items[1..]) + [""] == (MappingLines(items) + [""])[1..];
    }
  }

  /** Splitting the mapping text at newlines gives back exactly one line per
      reviewer code, in the dict's order, followed by the empty piece after the
      final newline (codes and model names are free of newlines). */
  lemma MappingSplits(natoToModel: Dict<string>)
    requires forall k :: k in natoToModel.entries ==> '\n' !in k && '\n' !in natoToModel.entries[k]
    ensures var items := Items(natoToModel);
            Split(ModelMapping(natoToModel), '\n') == MappingLines(items) + [""]
  {
    var items := Items(natoToModel);
    var parts := MappingLines(items) + [""];
    MappingIsJoin(items);
    forall i | 0 <= i < |parts| ensures '\n' !in parts[i] {
      if i < |items| {
        assert natoToModel.keys[i] in natoToModel.entries;
        assert parts[i] == items[i].0 + ": " + items[i].1;
      }
    }
    SplitJoin(parts, '\n');
  }

  /** The prompt's substitutions for the reviews gathered (keyed by model, in
      insertion order), the meta-review text and its reviewer-code mapping. The
      two example models are reviewed models, the earliest ones, and two
      different ones when at least two models were reviewed; a missing one is the
      empty string. */
  function FieldsFor(reviews: Dict<string>, metaReviewText: string, natoToModel: Dict<string>): (f: PromptFields)
    ensures f.modelNames == Join(reviews.keys, ", ")
    ensures f.metaReviewText == metaReviewText && f.modelMapping == ModelMapping(natoToModel)
    ensures |reviews.keys| > 0 ==> f.firstModel == reviews.keys[0] && f.firstModel in reviews.entries
    ensures |reviews.keys| > 1 ==>
              && f.secondModel == reviews.keys[1] && f.secondModel in reviews.entries
              && f.firstModel != f.secondModel
    ensures |reviews.keys| == 0 ==> f.firstModel == "" && reviews.entries == map[]
    ensures |reviews.keys| <= 1 ==> f.secondModel == ""
  {
    var names := reviews.keys;
    PromptFields(
      Join(names, ", "),
      if |names| > 0 then names[0] else "",
      if |names| > 1 then names[1] else "",
      metaReviewText,
      ModelMapping(natoToModel))
  }

  /** The prompt's model list uses the listing format of the command line: for
      reviewed models from the registry it is a `--models` value selecting
      exactly the reviewed models, in `reviews` order. */
  lemma ModelNamesReselect(reviews: Dict<string>, metaReviewText: string, natoToModel: Dict<string>)
    requires |reviews.keys| >= 1
    requires forall i :: 0 <= i < |reviews.keys| ==> IsKnown(reviews.keys[i])
    ensures SelectModels(Some(FieldsFor(reviews, metaReviewText, natoToModel).modelNames)) == Success(reviews.keys)
  {
    ListingReselects(reviews.keys);
  }
}
