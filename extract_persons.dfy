/** `src/extract_persons_html_to_json.py`: the payload is the first of the
    candidate code blocks 14 and 16 that decodes; one person row per record,
    four fields read through `.get` chains; per file, the rows with at most
    two missing cells. */
module Persons {
  import opened Results
  import opened JsonValues
  import opened Frames
  import opened RowSelect

  /** `ELEMENTS_WITH_RELEVANT_DATA`: the code blocks tried, in this order. */
  const Candidates: seq<nat> := [14, 16]

  const Columns: seq<string> := ["name", "subtitle", "position", "linkedinUrl"]

  /** The candidate search: the first candidate whose block decodes gives the
      payload; a block that does not decode is skipped; a candidate past the
      last block raises an IndexError that nobody catches; when no candidate
      decodes, the run reports the failure and exits. */
  function FirstParsable(blocks: seq<string>, candidates: seq<nat>, parse: string -> Option<Json>): (r: Result<Json>)
    ensures r.Ok? ==> exists i :: 0 <= i < |candidates| && candidates[i] < |blocks|
                                 && parse(blocks[candidates[i]]) == Some(r.value)
                                 && forall j :: 0 <= j < i ==> candidates[j] < |blocks| && parse(blocks[candidates[j]]).None?
    ensures r == Err(ParseExit) <==> forall j :: 0 <= j < |candidates| ==> candidates[j] < |blocks| && parse(blocks[candidates[j]]).None?
    ensures r.Err? && r.error != ParseExit ==>
              exists i :: 0 <= i < |candidates| && candidates[i] >= |blocks| && r.error == IndexError(candidates[i])
                          && forall j :: 0 <= j < i ==> candidates[j] < |blocks| && parse(blocks[candidates[j]]).None?
    decreases |candidates|
  {
    if |candidates| == 0 then Err(ParseExit)
    else if candidates[0] >= |blocks| then Err(IndexError(candidates[0]))
    else
      match parse(blocks[candidates[0]])
      case Some(js) => Ok(js)
      case None =>
        var r := FirstParsable(blocks, candidates[1..], parse);
        assert forall j :: 0 <= j < |candidates| - 1 ==> candidates[1..][j] == candidates[j + 1];
        r
  }

  /** With the two candidates of the source, spelled out case by case. */
  lemma CandidatesInOrder(blocks: seq<string>, parse: string -> Option<Json>)
    ensures FirstParsable(blocks, Candidates, parse)
         == if |blocks| <= 14 then Err(IndexError(14))
            else if parse(blocks[14]).Some? then Ok(parse(blocks[14]).value)
            else if |blocks| <= 16 then Err(IndexError(16))
            else if parse(blocks[16]).Some? then Ok(parse(blocks[16]).value)
            else Err(ParseExit)
  {
    assert Candidates[1..] == [16];
    assert Candidates[1..][1..] == [];
  }

  /** Once a candidate decodes, the candidates after it are never consulted. */
  lemma {:induction false} LaterCandidatesUnread(blocks: seq<string>, candidates: seq<nat>, i: nat, parse: string -> Option<Json>)
    requires i < |candidates| && candidates[i] < |blocks| && parse(blocks[candidates[i]]).Some?
    ensures FirstParsable(blocks, candidates, parse) == FirstParsable(blocks, candidates[..i + 1], parse)
    decreases i
  {
    if i > 0 && candidates[0] < |blocks| && parse(blocks[candidates[0]]).None? {
      assert candidates[..i + 1][1..] == candidates[1..][..i];
      LaterCandidatesUnread(blocks, candidates[1..], i - 1, parse);
    }
  }

  /** The imperative candidate loop of `read_html_file`. */
  method LocatePayload(blocks: seq<string>, parse: string -> Option<Json>) returns (r: Result<Json>)
    ensures r == FirstParsable(blocks, Candidates, parse)
  {
    for i := 0 to |Candidates|
      invariant FirstParsable(blocks, Candidates, parse) == FirstParsable(blocks, Candidates[i..], parse)
    {
      var element := Candidates[i];
      if element >= |blocks| {
        return Err(IndexError(element));
      }
      var js := parse(blocks[element]);
      if js.Some? {
        return Ok(js.value);
      }
      assert Candidates[i..][1..] == Candidates[i + 1..];
    }
    return Err(ParseExit);
  }

  /** Every `.get` chain of the person extractor can be followed through `d`. */
  predicate PersonReadable(d: map<string, Json>) {
    Descendable(d, "title") && Descendable(d, "primarySubtitle") && Descendable(d, "summary")
  }

  /** The person row of a record, read directly from the dict, in column order. */
  function PersonRow(d: map<string, Json>): Row {
    [Nested(d, "title", "text"), Nested(d, "primarySubtitle", "text"),
     Nested(d, "summary", "text"), Field(d, "bserpEntityNavigationalUrl")]
  }

  /** The four reads of one record: `title.text`, `primarySubtitle.text`,
      `summary.text` and the top-level `bserpEntityNavigationalUrl`. */
  function ExtractRow(rec: Json): (r: Result<Row>)
    ensures r.Ok? <==> rec.JObject? && PersonReadable(rec.fields)
    ensures r.Ok? ==> r.value == PersonRow(rec.fields)
  {
    LookupTwo(rec, "title", "text");
    LookupTwo(rec, "primarySubtitle", "text");
    LookupTwo(rec, "summary", "text");
    LookupOne(rec, "bserpEntityNavigationalUrl");
    var chains := [Lookup(rec, ["title", "text"]),
                   Lookup(rec, ["primarySubtitle", "text"]),
                   Lookup(rec, ["summary", "text"]),
                   Lookup(rec, ["bserpEntityNavigationalUrl"])];
    assert chains[0].Ok? && chains[1].Ok? && chains[2].Ok? ==> rec.JObject? && PersonReadable(rec.fields);
    ReadCells(chains)
  }

  /** A record with a name, a subtitle and a profile URL but no summary
      yields those three fields and a missing position. */
  lemma JaneDoe(url: string)
    ensures ExtractRow(JObject(map[
              "title" := JObject(map["text" := JString("Jane Doe")]),
              "primarySubtitle" := JObject(map["text" := JString("Engineer")]),
              "bserpEntityNavigationalUrl" := JString(url)]))
         == Ok([Some(JString("Jane Doe")), Some(JString("Engineer")), None, Some(JString(url))])
  {
    var d := map[
      "title" := JObject(map["text" := JString("Jane Doe")]),
      "primarySubtitle" := JObject(map["text" := JString("Engineer")]),
      "bserpEntityNavigationalUrl" := JString(url)];
    assert "summary" !in d;
  }

  /** `read_html_file`: one row per record of the located payload, every
      row one cell per column. */
  function ReadHtml(blocks: seq<string>, parse: string -> Option<Json>): (r: Result<Frame>)
    ensures r.Ok? ==> r.value.columns == (if |r.value.rows| == 0 then [] else Columns) && Rectangular(r.value)
  {
    PayloadFrame(FirstParsable(blocks, Candidates, parse), Columns, ExtractRow)
  }

  /** The imperative `read_html_file`. */
  method ReadHtmlFile(blocks: seq<string>, parse: string -> Option<Json>) returns (r: Result<Frame>)
    ensures r == ReadHtml(blocks, parse)
  {
    var js := LocatePayload(blocks, parse);
    r := BuildFrame(js, Columns, ExtractRow);
  }

  /** The per-file step of `get_all_information`: `exclude_rows_with_x_nans(df, 2)`. */
  function FileRows(page: seq<string>, parse: string -> Option<Json>): (r: Result<Frame>)
    ensures r.Ok? <==> ReadHtml(page, parse).Ok?
    ensures r.Ok? ==> r.value.columns == ReadHtml(page, parse).value.columns
                      && SubsequenceOf(r.value.rows, ReadHtml(page, parse).value.rows)
  {
    var df :- ReadHtml(page, parse);
    Ok(ExcludeRowsWithXNulls(df, 2))
  }

  /** Per file, every row with at most two missing cells survives, as often
      as it was read, and no other row does. */
  lemma FileRowsAtMostTwoNulls(page: seq<string>, parse: string -> Option<Json>, row: Row)
    requires ReadHtml(page, parse).Ok?
    ensures multiset(FileRows(page, parse).value.rows)[row]
         == if NullCount(row) <= 2 then multiset(ReadHtml(page, parse).value.rows)[row] else 0
  {
    ExcludeKeepsAtMostXNulls(ReadHtml(page, parse).value, 2, row);
  }

  /** The imperative per-file step of `get_all_information`. */
  method ReadFileRows(page: seq<string>, parse: string -> Option<Json>) returns (r: Result<Frame>)
    ensures r == FileRows(page, parse)
  {
    var df := ReadHtmlFile(page, parse);
    if df.Err? {
      return Err(df.error);
    }
    r := Ok(ExcludeRowsWithXNulls(df.value, 2));
  }
}
