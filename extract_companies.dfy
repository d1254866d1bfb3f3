/** `src/extract_companies_html_to_json.py`: one company row per record of
    the payload at code block 20, twelve fields read through `.get` chains,
    and per file the single most complete row. */
module Companies {
  import opened Results
  import opened JsonValues
  import opened Frames
  import opened RowSelect

  /** `ELEMENT_WITH_RELEVANT_DATA`: the one code block that holds the payload. */
  const PayloadIndex: nat := 20

  const Columns: seq<string> :=
    ["name", "tagline", "description", "websiteUrl", "foundedOn",
     "headquarterCity", "headquarterCountry", "geographicArea", "phone",
     "specialities", "employeeCountRangeStart", "employeeCountRangeEnd"]

  /** `json.loads(raw_data[20])`: a page with too few code blocks raises an
      IndexError nobody catches; a decode error is caught, reported and ends
      the run with exit status 1. */
  function LocatePayload(blocks: seq<string>, parse: string -> Option<Json>): (r: Result<Json>)
    ensures r.Ok? <==> |blocks| > PayloadIndex && parse(blocks[PayloadIndex]).Some?
    ensures r.Ok? ==> Some(r.value) == parse(blocks[PayloadIndex])
    ensures r.Err? ==> r.error == (if |blocks| <= PayloadIndex then IndexError(PayloadIndex) else ParseExit)
  {
    if |blocks| <= PayloadIndex then Err(IndexError(PayloadIndex))
    else
      match parse(blocks[PayloadIndex])
      case Some(js) => Ok(js)
      case None => Err(ParseExit)
  }

  /** Only block 20 is ever consulted. */
  lemma LocateReadsOnlyBlock20(b1: seq<string>, b2: seq<string>, parse: string -> Option<Json>)
    requires (|b1| > PayloadIndex) == (|b2| > PayloadIndex)
    requires |b1| > PayloadIndex ==> b1[PayloadIndex] == b2[PayloadIndex]
    ensures LocatePayload(b1, parse) == LocatePayload(b2, parse)
  {
  }

  /** The dict the three headquarter fields are read from. */
  function Address(d: map<string, Json>): map<string, Json> {
    Child(Child(d, "headquarter"), "address")
  }

  /** Every `.get` chain of the company extractor can be followed through
      `d`: no key on the way is present without holding a dict. */
  predicate CompanyReadable(d: map<string, Json>) {
    && Descendable(d, "foundedOn")
    && Descendable(d, "headquarter")
    && Descendable(Child(d, "headquarter"), "address")
    && Descendable(d, "phone")
    && Descendable(d, "employeeCountRange")
  }

  /** The company row of a record, read directly from the dict, in column order. */
  function CompanyRow(d: map<string, Json>): Row {
    [Field(d, "name"), Field(d, "tagline"), Field(d, "description"),
     Field(d, "websiteUrl"), Nested(d, "foundedOn", "year"),
     Field(Address(d), "city"), Field(Address(d), "country"),
     Field(Address(d), "geographicArea"), Nested(d, "phone", "number"),
     Field(d, "specialities"), Nested(d, "employeeCountRange", "start"),
     Nested(d, "employeeCountRange", "end")]
  }

  /** The twelve `.get` chains of one record, in the order the source
      evaluates them. */
  function Reads(rec: Json): seq<Result<Cell>> {
    [Lookup(rec, ["name"]), Lookup(rec, ["tagline"]), Lookup(rec, ["description"]),
     Lookup(rec, ["foundedOn", "year"]),
     Lookup(rec, ["headquarter", "address", "city"]),
     Lookup(rec, ["headquarter", "address", "country"]),
     Lookup(rec, ["headquarter", "address", "geographicArea"]),
     Lookup(rec, ["websiteUrl"]), Lookup(rec, ["phone", "number"]),
     Lookup(rec, ["employeeCountRange", "start"]),
     Lookup(rec, ["employeeCountRange", "end"]),
     Lookup(rec, ["specialities"])]
  }

  /** The record's fields, in the order the source reads them. */
  function ReadOrder(d: map<string, Json>): Row {
    [Field(d, "name"), Field(d, "tagline"), Field(d, "description"),
     Nested(d, "foundedOn", "year"),
     Field(Address(d), "city"), Field(Address(d), "country"), Field(Address(d), "geographicArea"),
     Field(d, "websiteUrl"), Nested(d, "phone", "number"),
     Nested(d, "employeeCountRange", "start"), Nested(d, "employeeCountRange", "end"),
     Field(d, "specialities")]
  }

  /** A record that is not a dict, or has a parent key holding something
      else than a dict, makes one of the chains raise. */
  lemma ReadsFail(rec: Json)
    requires !(rec.JObject? && CompanyReadable(rec.fields))
    ensures ReadCells(Reads(rec)).Err?
  {
    var chains := Reads(rec);
    if !rec.JObject? {
      assert chains[0].Err? by { LookupOne(rec, "name"); }
    } else if !Descendable(rec.fields, "foundedOn") {
      assert chains[3].Err? by { LookupTwo(rec, "foundedOn", "year"); }
    } else if !Descendable(rec.fields, "headquarter") || !Descendable(Child(rec.fields, "headquarter"), "address") {
      assert chains[4].Err? by { LookupThree(rec, "headquarter", "address", "city"); }
    } else if !Descendable(rec.fields, "phone") {
      assert chains[8].Err? by { LookupTwo(rec, "phone", "number"); }
    } else {
      assert chains[9].Err? by { LookupTwo(rec, "employeeCountRange", "start"); }
    }
  }

  /** On a readable record every chain yields its field. */
  lemma ReadsSucceed(rec: Json)
    requires rec.JObject? && CompanyReadable(rec.fields)
    ensures ReadCells(Reads(rec)) == Ok(ReadOrder(rec.fields))
  {
    var d := rec.fields;
    assert Lookup(rec, ["name"]) == Ok(Field(d, "name")) by { LookupOne(rec, "name"); }
    assert Lookup(rec, ["tagline"]) == Ok(Field(d, "tagline")) by { LookupOne(rec, "tagline"); }
    assert Lookup(rec, ["description"]) == Ok(Field(d, "description")) by { LookupOne(rec, "description"); }
    assert Lookup(rec, ["foundedOn", "year"]) == Ok(Nested(d, "foundedOn", "year")) by {
      LookupTwo(rec, "foundedOn", "year");
    }
    assert Lookup(rec, ["headquarter", "address", "city"]) == Ok(Field(Address(d), "city")) by {
      LookupThree(rec, "headquarter", "address", "city");
    }
    assert Lookup(rec, ["headquarter", "address", "country"]) == Ok(Field(Address(d), "country")) by {
      LookupThree(rec, "headquarter", "address", "country");
    }
    assert Lookup(rec, ["headquarter", "address", "geographicArea"]) == Ok(Field(Address(d), "geographicArea")) by {
      LookupThree(rec, "headquarter", "address", "geographicArea");
    }
    assert Lookup(rec, ["websiteUrl"]) == Ok(Field(d, "websiteUrl")) by { LookupOne(rec, "websiteUrl"); }
    assert Lookup(rec, ["phone", "number"]) == Ok(Nested(d, "phone", "number")) by {
      LookupTwo(rec, "phone", "number");
    }
    assert Lookup(rec, ["employeeCountRange", "start"]) == Ok(Nested(d, "employeeCountRange", "start")) by {
      LookupTwo(rec, "employeeCountRange", "start");
    }
    assert Lookup(rec, ["employeeCountRange", "end"]) == Ok(Nested(d, "employeeCountRange", "end")) by {
      LookupTwo(rec, "employeeCountRange", "end");
    }
    assert Lookup(rec, ["specialities"]) == Ok(Field(d, "specialities")) by { LookupOne(rec, "specialities"); }
    var c := ReadOrder(d);
    assert Reads(rec) == [Ok(c[0]), Ok(c[1]), Ok(c[2]), Ok(c[3]), Ok(c[4]), Ok(c[5]),
                          Ok(c[6]), Ok(c[7]), Ok(c[8]), Ok(c[9]), Ok(c[10]), Ok(c[11])];
    ReadCellsAllOk(Reads(rec), c);
  }

  /** The twelve chains, read one after the other, raise exactly when the
      record is not readable; otherwise they yield the record's fields. */
  lemma ReadsMeaning(rec: Json)
    ensures ReadCells(Reads(rec)).Ok? <==> rec.JObject? && CompanyReadable(rec.fields)
    ensures ReadCells(Reads(rec)).Ok? ==> ReadCells(Reads(rec)).value == ReadOrder(rec.fields)
  {
    if rec.JObject? && CompanyReadable(rec.fields) {
      ReadsSucceed(rec);
    } else {
      ReadsFail(rec);
    }
  }

  /** The reads of one record laid out in the order of the row's keys. */
  function ExtractRow(rec: Json): (r: Result<Row>)
    ensures r.Ok? <==> rec.JObject? && CompanyReadable(rec.fields)
    ensures r.Ok? ==> r.value == CompanyRow(rec.fields)
  {
    ReadsMeaning(rec);
    var c :- ReadCells(Reads(rec));
    Ok([c[0], c[1], c[2], c[7], c[3], c[4], c[5], c[6], c[8], c[11], c[9], c[10]])
  }

  /** When a record has no `headquarter`, or no `address` in it, the city,
      the country and the geographic area are all missing together. */
  lemma HeadquarterMissingTogether(rec: Json)
    requires ExtractRow(rec).Ok?
    requires "headquarter" !in rec.fields || "address" !in Child(rec.fields, "headquarter")
    ensures ExtractRow(rec).value[5] == ExtractRow(rec).value[6] == ExtractRow(rec).value[7] == None
  {
    assert Address(rec.fields) == map[];
  }

  /** The records of the located payload. */
  function Records(blocks: seq<string>, parse: string -> Option<Json>): Result<seq<Json>> {
    PayloadRecords(LocatePayload(blocks, parse))
  }

  /** `read_html_file`: one row per record of the located payload, every
      row one cell per column. */
  function ReadHtml(blocks: seq<string>, parse: string -> Option<Json>): (r: Result<Frame>)
    ensures r.Ok? ==> r.value.columns == (if |r.value.rows| == 0 then [] else Columns) && Rectangular(r.value)
  {
    PayloadFrame(LocatePayload(blocks, parse), Columns, ExtractRow)
  }

  /** The imperative `read_html_file`. */
  method ReadHtmlFile(blocks: seq<string>, parse: string -> Option<Json>) returns (r: Result<Frame>)
    ensures r == ReadHtml(blocks, parse)
  {
    var js := LocatePayload(blocks, parse);
    r := BuildFrame(js, Columns, ExtractRow);
  }

  /** The per-file step of `get_all_information`: the file's most complete
      company row, as a one-row frame. A file without records makes
      `idxmax` raise. */
  function FileRow(page: seq<string>, parse: string -> Option<Json>): (r: Result<Frame>)
    ensures ReadHtml(page, parse).Err? ==> r == Err(ReadHtml(page, parse).error)
    ensures ReadHtml(page, parse).Ok? ==> (r.Ok? <==> |ReadHtml(page, parse).value.rows| > 0)
    ensures ReadHtml(page, parse).Ok? && r.Err? ==> r.error == EmptySeries
    ensures r.Ok? ==> ReadHtml(page, parse).Ok?
                      && exists k :: IsFirstFullest(ReadHtml(page, parse).value.rows, k)
                                     && r.value == Frame(Columns, [ReadHtml(page, parse).value.rows[k]])
  {
    var df :- ReadHtml(page, parse);
    RowWithMostNonNulls(df)
  }

  /** The row kept for a file is, unchanged, the extracted row of one of
      the file's records. */
  lemma FileRowIsRecord(page: seq<string>, parse: string -> Option<Json>)
    requires FileRow(page, parse).Ok?
    ensures Records(page, parse).Ok?
    ensures |FileRow(page, parse).value.rows| == 1
    ensures exists k :: 0 <= k < |Records(page, parse).value|
                        && ExtractRow(Records(page, parse).value[k]) == Ok(FileRow(page, parse).value.rows[0])
  {
    var records := Records(page, parse).value;
    var df := RecordsToFrame(records, Columns, ExtractRow);
    assert ReadHtml(page, parse) == df;
    FullestRecord(records, Columns, ExtractRow);
  }

  /** No record of the file yields a row with more non-null cells than the
      row kept for it. */
  lemma FileRowIsFullest(page: seq<string>, parse: string -> Option<Json>, j: nat)
    requires FileRow(page, parse).Ok?
    requires Records(page, parse).Ok? && j < |Records(page, parse).value|
    ensures ExtractRow(Records(page, parse).value[j]).Ok?
    ensures NonNullCount(ExtractRow(Records(page, parse).value[j]).value) <= NonNullCount(FileRow(page, parse).value.rows[0])
  {
    var records := Records(page, parse).value;
    var df := RecordsToFrame(records, Columns, ExtractRow);
    assert ReadHtml(page, parse) == df;
    FullestRecord(records, Columns, ExtractRow);
  }

  /** A page whose payload has no records yields no row at all. */
  lemma NoRecordsNoRow(page: seq<string>, parse: string -> Option<Json>)
    requires Records(page, parse) == Ok([])
    ensures FileRow(page, parse) == Err(EmptySeries)
  {
  }

  /** The imperative per-file step of `get_all_information`. */
  method ReadFileRow(page: seq<string>, parse: string -> Option<Json>) returns (r: Result<Frame>)
    ensures r == FileRow(page, parse)
  {
    var df := ReadHtmlFile(page, parse);
    if df.Err? {
      return Err(df.error);
    }
    r := RowWithMostNonNulls(df.value);
  }
}
