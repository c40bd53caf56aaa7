/** The concerns table built from the extraction backend's reply: the JSON
    object cut out of the reply, its `concerns` array turned into a table with
    one row per concern, and a `False` column added for every reviewed model
    the table lacks. */
module Concerns {
  import opened Wrappers
  import opened Seqs
  import opened Dicts
  import opened Extraction

  /** A parsed JSON value; objects keep their key order. */
  datatype Json =
    | JNull
    | JBool(b: bool)
    | JNumber(n: real)
    | JString(s: string)
    | JArray(items: seq<Json>)
    | JObject(fields: Dict<Json>)

  /** A table cell: a value, or missing (pandas' NaN) where a record lacks the column. */
  datatype Cell = Value(v: Json) | Missing

  type Row = map<string, Cell>

  /** A data frame: named columns in order, and rows mapping column names to cells. */
  datatype Table = Table(columns: seq<string>, rows: seq<Row>)

  ghost predicate RowFits(row: Row, columns: seq<string>) {
    forall c :: c in row <==> c in columns
  }

  /** Column names are distinct and every row has a cell in exactly those columns. */
  ghost predicate WellFormed(t: Table) {
    && Distinct(t.columns)
    && forall i :: 0 <= i < |t.rows| ==> RowFits(t.rows[i], t.columns)
  }

  /** The keys of all records, record after record, each in its own key order. */
  function AllKeys(records: seq<Dict<Json>>): seq<string>
  {
    if |records| == 0 then []
    else AllKeys(records[..|records| - 1]) + records[|records| - 1].keys
  }

  /** A key occurs among the records' keys exactly when some record has it. */
  lemma {:induction false} AllKeysContains(records: seq<Dict<Json>>)
    ensures forall k :: k in AllKeys(records) <==> exists i :: 0 <= i < |records| && k in records[i].entries
  {
    if |records| > 0 {
      var init := records[..|records| - 1];
      AllKeysContains(init);
      forall k | k in AllKeys(records)
        ensures exists i :: 0 <= i < |records| && k in records[i].entries
      {
        if k in AllKeys(init) {
          var i :| 0 <= i < |init| && k in init[i].entries;
          assert records[i] == init[i];
        } else {
          assert k in records[|records| - 1].entries;
        }
      }
      forall k, i | 0 <= i < |records| && k in records[i].entries
        ensures k in AllKeys(records)
      {
        if i < |init| {
          assert init[i] == records[i];
        } else {
          assert k in records[i].keys;
        }
      }
    }
  }

  /** One record as a row over `columns`. */
  function RowOf(record: Dict<Json>, columns: seq<string>): Row {
    map c | c in columns :: if c in record.entries then Value(record.entries[c]) else Missing
  }

  /** `pd.DataFrame(records)` for a list of JSON objects: one row per record; the
      columns are the records' keys in order of first appearance; a record that
      lacks a column has a missing cell there. */
  function FromRecords(records: seq<Dict<Json>>): (t: Table)
    ensures WellFormed(t)
    ensures t.columns == Dedup(AllKeys(records))
    ensures forall c :: c in t.columns <==> exists i :: 0 <= i < |records| && c in records[i].entries
    ensures |t.rows| == |records|
    ensures forall i, c :: 0 <= i < |records| && c in records[i].entries ==>
              c in t.rows[i] && t.rows[i][c] == Value(records[i].entries[c])
    ensures forall i, c :: 0 <= i < |records| && c in t.columns && c !in records[i].entries ==>
              t.rows[i][c] == Missing
  {
    var columns := Dedup(AllKeys(records));
    DedupIsDistinct(AllKeys(records));
    DedupContains(AllKeys(records));
    AllKeysContains(records);
    Table(columns, seq(|records|, i requires 0 <= i < |records| => RowOf(records[i], columns)))
  }

  /** One round of the loop: `if name not in df.columns: df[name] = False`. A
      missing column is appended and holds `False` in every row; the existing
      cells are untouched. */
  function EnsureColumn(t: Table, name: string): (r: Table)
    requires WellFormed(t)
    ensures WellFormed(r)
    ensures r.columns == if name in t.columns then t.columns else t.columns + [name]
    ensures |r.rows| == |t.rows|
    ensures forall i, c :: 0 <= i < |t.rows| && c in t.columns ==> r.rows[i][c] == t.rows[i][c]
    ensures forall i :: 0 <= i < |t.rows| && name !in t.columns ==> r.rows[i][name] == Value(JBool(false))
  {
    if name in t.columns then t
    else
      Table(t.columns + [name],
            seq(|t.rows|, i requires 0 <= i < |t.rows| => t.rows[i][name := Value(JBool(false))]))
  }

  /** The loop over the reviewed models that adds a `False` column for each model
      the table lacks (cli.py:225-227). */
  function CompleteColumns(t: Table, names: seq<string>): (r: Table)
    requires WellFormed(t)
    ensures WellFormed(r)
    ensures |r.rows| == |t.rows|
  {
    if |names| == 0 then t
    else EnsureColumn(CompleteColumns(t, names[..|names| - 1]), names[|names| - 1])
  }

  /** The columns become the old ones followed by the missing model names in
      order of first mention, each once. */
  lemma {:induction false} CompletedColumnOrder(t: Table, names: seq<string>)
    requires WellFormed(t)
    ensures CompleteColumns(t, names).columns == Dedup(t.columns + names)
  {
    if |names| == 0 {
      assert t.columns + names == t.columns;
      DedupDistinct(t.columns);
    } else {
      var init, name := names[..|names| - 1], names[|names| - 1];
      CompletedColumnOrder(t, init);
      assert t.columns + names == (t.columns + init) + [name];
      DedupSnoc(t.columns + init, name);
      DedupContains(t.columns + init);
    }
  }

  /** The old columns stay first, with their cells untouched; every added cell is
      `False`. */
  lemma {:induction false} CompletedCells(t: Table, names: seq<string>)
    requires WellFormed(t)
    ensures var r := CompleteColumns(t, names);
            && |t.columns| <= |r.columns| && r.columns[..|t.columns|] == t.columns
            && (forall i, c :: 0 <= i < |t.rows| && c in t.columns ==> r.rows[i][c] == t.rows[i][c])
            && (forall i, c :: 0 <= i < |t.rows| && c in r.columns && c !in t.columns ==>
                  r.rows[i][c] == Value(JBool(false)))
  {
    if |names| > 0 {
      var init, name := names[..|names| - 1], names[|names| - 1];
      CompletedCells(t, init);
      var prev := CompleteColumns(t, init);
      var r := EnsureColumn(prev, name);
      assert r.columns[..|t.columns|] == prev.columns[..|t.columns|];
    }
  }

  /** Afterwards every model is a column, and every column is an old one or a model. */
  lemma CompletedColumns(t: Table, names: seq<string>)
    requires WellFormed(t)
    ensures var r := CompleteColumns(t, names);
            forall c :: c in r.columns <==> c in t.columns || c in names
  {
    CompletedColumnOrder(t, names);
    DedupContains(t.columns + names);
  }

  /** With every model already a column, completing changes nothing. */
  lemma {:induction false} CompleteColumnsNoop(t: Table, names: seq<string>)
    requires WellFormed(t)
    requires forall n :: n in names ==> n in t.columns
    ensures CompleteColumns(t, names) == t
  {
    if |names| > 0 {
      CompleteColumnsNoop(t, names[..|names| - 1]);
      assert names[|names| - 1] in names;
    }
  }

  /** Completing twice is completing once. */
  lemma CompleteColumnsIdempotent(t: Table, names: seq<string>)
    requires WellFormed(t)
    ensures CompleteColumns(CompleteColumns(t, names), names) == CompleteColumns(t, names)
  {
    CompletedColumns(t, names);
    CompleteColumnsNoop(CompleteColumns(t, names), names);
  }

  /** The concern records of a `concerns` value, when it is an array of objects. */
  function RecordsOf(concerns: Json): (r: Option<seq<Dict<Json>>>)
    ensures r.Some? <==> concerns.JArray? && forall i :: 0 <= i < |concerns.items| ==> concerns.items[i].JObject?
    ensures r.Some? ==> |r.value| == |concerns.items|
    ensures r.Some? ==> forall i :: 0 <= i < |r.value| ==> concerns.items[i] == JObject(r.value[i])
  {
    if concerns.JArray? && forall i :: 0 <= i < |concerns.items| ==> concerns.items[i].JObject? then
      var items := concerns.items;
      Some(seq(|items|, i requires 0 <= i < |items| => items[i].fields))
    else None
  }

  /** The table the reply yields, or `None` where no table is written: the reply
      has no brace span, the span does not parse (the parse error is caught), the
      parsed object has no `concerns` key, or the `concerns` value is not an
      array of objects. */
  function ExtractConcerns(reply: string, parse: string -> Option<Json>, modelNames: seq<string>): (r: Option<Table>)
    ensures BraceSpan(reply).None? ==> r.None?
    ensures BraceSpan(reply).Some? && parse(MatchedText(reply, BraceSpan(reply).value)).None? ==> r.None?
    ensures r.Some? ==> WellFormed(r.value)
    ensures r.Some? ==> forall n :: n in modelNames ==> n in r.value.columns
    ensures r.Some? ==>
      var parsed := parse(MatchedText(reply, BraceSpan(reply).value)).value;
      && parsed.JObject? && "concerns" in parsed.fields.entries
      && RecordsOf(parsed.fields.entries["concerns"]).Some?
      && r.value == CompleteColumns(FromRecords(RecordsOf(parsed.fields.entries["concerns"]).value), modelNames)
  {
    match BraceSpan(reply)
    case None => None
    case Some(span) =>
      match parse(MatchedText(reply, span))
      case Some(JObject(fields)) =>
        if "concerns" in fields.entries then
          match RecordsOf(fields.entries["concerns"])
          case Some(records) =>
            CompletedColumns(FromRecords(records), modelNames);
            Some(CompleteColumns(FromRecords(records), modelNames))
          case None => None
        else None
      case _ => None
  }

  /** A reply that wraps a `{"concerns": [...]}` payload in prose free of braces
      yields the table of exactly those concerns: one row per concern, each
      concern's fields as its cells, and every reviewed model as a column. */
  lemma ExtractFromProse(
    before: string, payload: string, after: string,
    parse: string -> Option<Json>, fields: Dict<Json>, items: seq<Json>,
    modelNames: seq<string>)
    requires |payload| >= 2 && payload[0] == '{' && payload[|payload| - 1] == '}'
    requires '{' !in before && '}' !in after
    requires parse(payload) == Some(JObject(fields))
    requires "concerns" in fields.entries && fields.entries["concerns"] == JArray(items)
    requires forall i :: 0 <= i < |items| ==> items[i].JObject?
    ensures var r := ExtractConcerns(before + payload + after, parse, modelNames);
            && r.Some?
            && |r.value.rows| == |items|
            && (forall n :: n in modelNames ==> n in r.value.columns)
            && (forall i, c :: 0 <= i < |items| && c in items[i].fields.entries ==>
                  c in r.value.rows[i] && r.value.rows[i][c] == Value(items[i].fields.entries[c]))
  {
    ProseIsStripped(before, payload, after);
    var records := RecordsOf(JArray(items)).value;
    ConcernCells(records, modelNames);
  }

  /** The completed table of some concern records keeps one row per record with
      the record's fields as its cells. */
  lemma ConcernCells(records: seq<Dict<Json>>, modelNames: seq<string>)
    ensures var t := CompleteColumns(FromRecords(records), modelNames);
            && |t.rows| == |records|
            && forall i, c :: 0 <= i < |records| && c in records[i].entries ==>
                 c in t.rows[i] && t.rows[i][c] == Value(records[i].entries[c])
  {
    var f := FromRecords(records);
    var t := CompleteColumns(f, modelNames);
    CompletedCells(f, modelNames);
    forall i, c | 0 <= i < |records| && c in records[i].entries
      ensures c in t.rows[i] && t.rows[i][c] == Value(records[i].entries[c])
    {
      assert c in f.columns;
    }
  }
}
