/** The model registry (`get_available_models`) and the validation of the
    `--models` option at the start of the `review` command. */
module Registry {
  import opened Wrappers
  import opened Seqs
  import opened Strings

  /** The fixed registry, in the order `list-models` prints it. */
  const AvailableModels: seq<string> := [
    "gpt4-o1",
    "gpt4-o3-mini",
    "claude-3.7-sonnet",
    "gemini-2.5-pro",
    "deepseek-r1",
    "llama-4-maverick"
  ]

  predicate IsKnown(m: string) {
    m in AvailableModels
  }

  /** The registry holds six distinct, non-empty names; none contains a comma or
      has white space at either end, so each survives the `--models` parser. */
  lemma RegistryShape()
    ensures |AvailableModels| == 6 && Distinct(AvailableModels)
    ensures forall i :: 0 <= i < |AvailableModels| ==>
              AvailableModels[i] != "" && ',' !in AvailableModels[i] && Trimmed(AvailableModels[i])
  {
  }

  /** `[m.strip() for m in models.split(",")]` */
  function RequestedNames(models: string): (r: seq<string>)
    ensures |r| == |Split(models, ',')| >= 1
    ensures forall i :: 0 <= i < |r| ==> r[i] == Strip(Split(models, ',')[i])
  {
    var parts := Split(models, ',');
    seq(|parts|, i requires 0 <= i < |parts| => Strip(parts[i]))
  }

  /** Why the command stops before doing anything. */
  datatype SelectionError = NoValidModels

  /** The selection step of `review`: no (or an empty) `--models` value means the
      whole registry; otherwise the known names among the stripped comma-separated
      items, in request order and with repetitions kept, and failure when none is
      known. */
  function SelectModels(models: Option<string>): (r: Result<seq<string>, SelectionError>)
    ensures (models.None? || models.value == "") ==> r == Success(AvailableModels)
    ensures models.Some? && models.value != "" ==>
      var requested := RequestedNames(models.value);
      && (r.Success? <==> exists m :: m in requested && IsKnown(m))
      && (r.Success? ==> && r.value == Filter(IsKnown, requested)
                         && IsSubsequence(r.value, requested)
                         && forall m :: IsKnown(m) ==> multiset(r.value)[m] == multiset(requested)[m])
    ensures r.Success? ==> |r.value| > 0 && forall m :: m in r.value ==> IsKnown(m)
  {
    // Python's `if models:` is false both for a missing option and for ""
    if models.None? || models.value == "" then Success(AvailableModels)
    else
      var selected := Filter(IsKnown, RequestedNames(models.value));
      KnownItems(RequestedNames(models.value));
      if |selected| == 0 then Failure(NoValidModels) else Success(selected)
  }

  /** The known items of a request: some exist iff some item is known; they keep
      request order and every known name's number of occurrences. */
  lemma KnownItems(requested: seq<string>)
    ensures var selected := Filter(IsKnown, requested);
            && (|selected| > 0 <==> exists m :: m in requested && IsKnown(m))
            && (forall m :: m in selected ==> IsKnown(m))
            && IsSubsequence(selected, requested)
            && forall m :: IsKnown(m) ==> multiset(selected)[m] == multiset(requested)[m]
  {
    var selected := Filter(IsKnown, requested);
    FilterContains(IsKnown, requested);
    FilterCounts(IsKnown, requested);
    FilterSubsequence(IsKnown, requested);
    if |selected| > 0 {
      assert selected[0] in requested && IsKnown(selected[0]);
    }
  }

  /** The pieces `Join(parts, ", ")` is made of when read as a `","`-join:
      every piece after the first carries the blank of the separator. */
  function Padded(parts: seq<string>): (r: seq<string>)
    requires |parts| >= 1
    ensures |r| == |parts| && r[0] == parts[0]
    ensures forall i :: 1 <= i < |r| ==> r[i] == " " + parts[i]
  {
    seq(|parts|, i requires 0 <= i < |parts| => if i == 0 then parts[0] else " " + parts[i])
  }

  lemma {:induction false} JoinPadded(parts: seq<string>)
    requires |parts| >= 1
    ensures Join(parts, ", ") == Join(Padded(parts), ",")
  {
    if |parts| > 1 {
      JoinPadded(parts[1..]);
      var p, q := Padded(parts), Padded(parts[1..]);
      assert p[1..] == [" " + parts[1]] + q[1..];
      assert Join(p[1..], ",") == " " + Join(q, ",");
    }
  }

  /** A `", "`-joined list of trimmed, comma-free names parses back into the list. */
  lemma ReparseListing(names: seq<string>)
    requires |names| >= 1
    requires forall i :: 0 <= i < |names| ==> ',' !in names[i] && Trimmed(names[i])
    ensures RequestedNames(Join(names, ", ")) == names
  {
    SplitListing(names);
    var padded := Padded(names);
    var requested := RequestedNames(Join(names, ", "));
    forall i | 0 <= i < |names| ensures requested[i] == names[i] {
      StripPadded(names[i], i > 0);
    }
  }

  /** Splitting a `", "`-joined list of comma-free names at the commas. */
  lemma SplitListing(names: seq<string>)
    requires |names| >= 1
    requires forall i :: 0 <= i < |names| ==> ',' !in names[i]
    ensures Split(Join(names, ", "), ',') == Padded(names)
  {
    var padded := Padded(names);
    JoinPadded(names);
    forall i | 0 <= i < |padded| ensures ',' !in padded[i] {
      if i > 0 {
        assert padded[i] == [' '] + names[i];
      }
    }
    SplitJoin(padded, ',');
  }

  /** One item of the listing, with or without the blank of the separator. */
  lemma StripPadded(name: string, blank: bool)
    requires Trimmed(name)
    ensures Strip(if blank then " " + name else name) == name
  {
    if blank {
      StripOf(" ", name, "");
      assert " " + name + "" == " " + name;
    } else {
      StripOf("", name, "");
      assert "" + name + "" == name;
    }
  }

  /** Round trip with the listing format: the `", "`-joined selection that the
      command echoes (and the registry listing in its error message) is itself a
      `--models` value that selects exactly the same models. */
  lemma ListingReselects(selected: seq<string>)
    requires |selected| >= 1
    requires forall i :: 0 <= i < |selected| ==> IsKnown(selected[i])
    ensures SelectModels(Some(Join(selected, ", "))) == Success(selected)
  {
    KnownNamesParse(selected);
    ReparseListing(selected);
    SelectsAllKnown(Join(selected, ", "));
  }

  /** A request naming only known models selects exactly those names. */
  lemma SelectsAllKnown(models: string)
    requires models != ""
    requires forall i :: 0 <= i < |RequestedNames(models)| ==> IsKnown(RequestedNames(models)[i])
    ensures SelectModels(Some(models)) == Success(RequestedNames(models))
  {
    FilterAll(IsKnown, RequestedNames(models));
  }

  /** Known names are safe to list: the listing is non-empty and each name is
      comma-free and trimmed. */
  lemma KnownNamesParse(selected: seq<string>)
    requires |selected| >= 1
    requires forall i :: 0 <= i < |selected| ==> IsKnown(selected[i])
    ensures forall i :: 0 <= i < |selected| ==> ',' !in selected[i] && Trimmed(selected[i])
    ensures Join(selected, ", ") != ""
  {
    RegistryShape();
    assert selected[0] != "";
    if |selected| > 1 {
      assert Join(selected, ", ") == selected[0] + ", " + Join(selected[1..], ", ");
    }
  }
}
