/** `extract_html_to_csv.py`: persons read from the payload at code block 16
    into `name`, `subtitle`, `linkedinurl`; every file below a folder; rows
    with a missing cell dropped and the rest concatenated file by file. */
module CsvExtract {
  import opened Results
  import opened JsonValues
  import opened Frames
  import opened RowSelect

  /** The one code block that holds the payload; there is no fallback. */
  const PayloadIndex: nat := 16

  const Columns: seq<string> := ["name", "subtitle", "linkedinurl"]

  /** `json.loads(raw_data[16])` over the stripped `<code>` texts of a page.
      Neither the IndexError nor the decode error is caught. */
  function LocatePayload(blocks: seq<string>, parse: string -> Option<Json>): (r: Result<Json>)
    ensures r.Ok? <==> |blocks| > PayloadIndex && parse(blocks[PayloadIndex]).Some?
    ensures r.Ok? ==> Some(r.value) == parse(blocks[PayloadIndex])
    ensures r.Err? ==> r.error == (if |blocks| <= PayloadIndex then IndexError(PayloadIndex) else DecodeError(PayloadIndex))
  {
    if |blocks| <= PayloadIndex then Err(IndexError(PayloadIndex))
    else
      match parse(blocks[PayloadIndex])
      case Some(js) => Ok(js)
      case None => Err(DecodeError(PayloadIndex))
  }

  /** Only block 16 is ever consulted: pages that agree there (and on whether
      there is a block 16 at all) locate the same payload. */
  lemma LocateReadsOnlyBlock16(b1: seq<string>, b2: seq<string>, parse: string -> Option<Json>)
    requires (|b1| > PayloadIndex) == (|b2| > PayloadIndex)
    requires |b1| > PayloadIndex ==> b1[PayloadIndex] == b2[PayloadIndex]
    ensures LocatePayload(b1, parse) == LocatePayload(b2, parse)
  {
  }

  /** One row per record: `title.text`, `primarySubtitle.text` and the
      top-level `bserpEntityNavigationalUrl`. Absent keys give a missing cell;
      a present `title` or `primarySubtitle` that is not a dict raises. */
  function ExtractRow(rec: Json): (r: Result<Row>)
    ensures r.Ok? <==> rec.JObject? && Descendable(rec.fields, "title") && Descendable(rec.fields, "primarySubtitle")
    ensures r.Ok? ==> r.value == [Nested(rec.fields, "title", "text"),
                                  Nested(rec.fields, "primarySubtitle", "text"),
                                  Field(rec.fields, "bserpEntityNavigationalUrl")]
  {
    LookupTwo(rec, "title", "text");
    LookupTwo(rec, "primarySubtitle", "text");
    LookupOne(rec, "bserpEntityNavigationalUrl");
    var chains := [Lookup(rec, ["title", "text"]),
                   Lookup(rec, ["primarySubtitle", "text"]),
                   Lookup(rec, ["bserpEntityNavigationalUrl"])];
    assert chains[0].Ok? && chains[1].Ok? ==> rec.JObject? && Descendable(rec.fields, "title") && Descendable(rec.fields, "primarySubtitle");
    ReadCells(chains)
  }

  /** `read_html_file`: one row per record of the located payload, every
      row one cell per column. */
  function ReadHtml(blocks: seq<string>, parse: string -> Option<Json>): (r: Result<Frame>)
    ensures r.Ok? ==> r.value.columns == (if |r.value.rows| == 0 then [] else Columns) && Rectangular(r.value)
  {
    PayloadFrame(LocatePayload(blocks, parse), Columns, ExtractRow)
  }

  /** The imperative `read_html_file`. */
  method ReadHtmlFile(blocks: seq<string>, parse: string -> Option<Json>) returns (r: Result<Frame>)
    ensures r == ReadHtml(blocks, parse)
  {
    var js := LocatePayload(blocks, parse);
    r := BuildFrame(js, Columns, ExtractRow);
  }

  // get_all_files_in_folder

  /** A directory entry as `os.listdir` and `os.path.isdir` see it. */
  datatype Entry = File(name: string) | Dir(name: string, entries: seq<Entry>)

  /** `os.path.join(path, name)` on POSIX. */
  function Join(path: string, name: string): string {
    if |name| > 0 && name[0] == '/' then name
    else if |path| == 0 || path[|path| - 1] == '/' then path + name
    else path + "/" + name
  }

  /** A joined path ends with the name. An absolute name replaces the path;
      otherwise the path comes first, a separator stands right before the
      name, and at most one character is added between the two. */
  lemma JoinMeaning(path: string, name: string)
    ensures var r := Join(path, name);
            && |name| <= |r| && r[|r| - |name|..] == name
            && (|name| > 0 && name[0] == '/' ==> r == name)
            && (!(|name| > 0 && name[0] == '/') ==>
                  |path| + |name| <= |r| <= |path| + 1 + |name| && r[..|path|] == path
                  && (|path| > 0 ==> r[|r| - |name| - 1] == '/'))
  {
  }

  /** The paths `get_all_files_in_folder(path)` returns for a directory whose
      listing is `entries`: a file contributes its joined path, a directory
      the files below it, in listing order. */
  function ListFiles(path: string, entries: seq<Entry>): seq<string>
    decreases entries
  {
    if |entries| == 0 then []
    else
      var here := match entries[0]
        case File(name) => [Join(path, name)]
        case Dir(name, children) => ListFiles(Join(path, name), children);
      here + ListFiles(path, entries[1..])
  }

  /** The number of files (not directories) in a tree. */
  function FileCount(entries: seq<Entry>): nat
    decreases entries
  {
    if |entries| == 0 then 0
    else
      (match entries[0] case File(_) => 1 case Dir(_, children) => FileCount(children))
      + FileCount(entries[1..])
  }

  /** `q` is the path of a file reachable from the directory at `path`. */
  ghost predicate FileReachable(path: string, entries: seq<Entry>, q: string)
    decreases entries
  {
    exists i :: 0 <= i < |entries| &&
      match entries[i]
      case File(name) => q == Join(path, name)
      case Dir(name, children) => FileReachable(Join(path, name), children, q)
  }

  /** Listing a concatenation of entries concatenates their listings. */
  lemma {:induction false} ListFilesAppend(path: string, a: seq<Entry>, b: seq<Entry>)
    ensures ListFiles(path, a + b) == ListFiles(path, a) + ListFiles(path, b)
    decreases |a|
  {
    if |a| == 0 {
      assert a + b == b;
    } else {
      assert (a + b)[0] == a[0];
      assert (a + b)[1..] == a[1..] + b;
      ListFilesAppend(path, a[1..], b);
    }
  }

  /** The files of a subdirectory appear together, at the subdirectory's
      place in its parent's listing. */
  lemma SubdirectorySpliced(path: string, before: seq<Entry>, name: string, children: seq<Entry>, after: seq<Entry>)
    ensures ListFiles(path, before + [Dir(name, children)] + after)
         == ListFiles(path, before) + ListFiles(Join(path, name), children) + ListFiles(path, after)
  {
    ListFilesAppend(path, before + [Dir(name, children)], after);
    ListFilesAppend(path, before, [Dir(name, children)]);
    assert [Dir(name, children)][1..] == [];
  }

  /** One path per file in the tree, none for a directory. */
  lemma {:induction false} ListFilesCount(path: string, entries: seq<Entry>)
    ensures |ListFiles(path, entries)| == FileCount(entries)
    decreases entries
  {
    if |entries| > 0 {
      ListFilesCount(path, entries[1..]);
      match entries[0]
      case File(_) =>
      case Dir(name, children) => ListFilesCount(Join(path, name), children);
    }
  }

  /** The listing holds exactly the paths of the files reachable from the root. */
  lemma {:induction false} ListFilesReachable(path: string, entries: seq<Entry>, q: string)
    ensures q in ListFiles(path, entries) <==> FileReachable(path, entries, q)
    decreases entries
  {
    if |entries| > 0 {
      var e, rest := entries[0], entries[1..];
      var here := match e
        case File(name) => [Join(path, name)]
        case Dir(name, children) => ListFiles(Join(path, name), children);
      assert ListFiles(path, entries) == here + ListFiles(path, rest);
      ListFilesReachable(path, rest, q);
      var hitsHere := match e
        case File(name) => q == Join(path, name)
        case Dir(name, children) => FileReachable(Join(path, name), children, q);
      if e.Dir? {
        ListFilesReachable(Join(path, e.name), e.entries, q);
      }
      assert (q in here) == hitsHere;
      if q in ListFiles(path, entries) {
        if q in here {
          assert entries[0] == e;
        } else {
          var j :| 0 <= j < |rest| &&
            match rest[j]
            case File(name) => q == Join(path, name)
            case Dir(name, children) => FileReachable(Join(path, name), children, q);
          assert entries[j + 1] == rest[j];
        }
      }
      if FileReachable(path, entries, q) {
        var i :| 0 <= i < |entries| &&
          match entries[i]
          case File(name) => q == Join(path, name)
          case Dir(name, children) => FileReachable(Join(path, name), children, q);
        if i > 0 {
          assert rest[i - 1] == entries[i];
        }
      }
    }
  }

  /** `get_all_files_in_folder`: walks the listing, recursing into each
      directory and splicing its files in where it stands. */
  method GetAllFilesInFolder(path: string, entries: seq<Entry>) returns (filesList: seq<string>)
    ensures filesList == ListFiles(path, entries)
    decreases entries
  {
    filesList := [];
    for i := 0 to |entries|
      invariant filesList == ListFiles(path, entries[..i])
    {
      var entry := entries[i];
      var fullPath := Join(path, entry.name);
      if entry.Dir? {
        var below := GetAllFilesInFolder(fullPath, entry.entries);
        filesList := filesList + below;
      } else {
        filesList := filesList + [fullPath];
      }
      assert entries[..i + 1] == entries[..i] + [entry];
      assert [entry][1..] == [];
      ListFilesAppend(path, entries[..i], [entry]);
    }
    assert entries[..|entries|] == entries;
  }

  // get_all_informations

  /** One file's contribution to `get_all_informations`: the frame
      `read_html_file` returns, with every row holding a missing cell dropped. */
  function FileRows(page: seq<string>, parse: string -> Option<Json>): (r: Result<Frame>)
    ensures r.Ok? <==> ReadHtml(page, parse).Ok?
    ensures r.Ok? ==> Shaped(r.value, Columns) && Complete(r.value)
    ensures r.Ok? ==> r.value.columns == ReadHtml(page, parse).value.columns
    ensures r.Ok? ==> SubsequenceOf(r.value.rows, ReadHtml(page, parse).value.rows)
  {
    var df :- ReadHtml(page, parse);
    DropNullsShaped(df, Columns);
    Ok(DropNulls(df))
  }

  /** Per file, every copy of a complete row survives, and no other row does. */
  lemma FileRowsKeepComplete(page: seq<string>, parse: string -> Option<Json>, row: Row)
    requires ReadHtml(page, parse).Ok?
    ensures multiset(FileRows(page, parse).value.rows)[row]
         == if NoNulls(row) then multiset(ReadHtml(page, parse).value.rows)[row] else 0
  {
    DropNullsKeepsComplete(ReadHtml(page, parse).value, row);
  }

  /** The imperative body of the loop of `get_all_informations`. */
  method ReadFileRows(page: seq<string>, parse: string -> Option<Json>) returns (r: Result<Frame>)
    ensures r == FileRows(page, parse)
  {
    var df := ReadHtmlFile(page, parse);
    if df.Err? {
      return Err(df.error);
    }
    r := Ok(DropNulls(df.value));
  }

  /** The per-file results, `pages[k]` holding the stripped code blocks of
      the k-th listed file. */
  function FileResults(pages: seq<seq<string>>, parse: string -> Option<Json>): (r: seq<Result<Frame>>)
    ensures |r| == |pages|
    ensures forall k :: 0 <= k < |pages| ==> r[k] == FileRows(pages[k], parse)
    decreases |pages|
  {
    if |pages| == 0 then []
    else FileResults(pages[..|pages| - 1], parse) + [FileRows(pages[|pages| - 1], parse)]
  }

  /** `get_all_informations`: each file's complete rows, appended in file
      order; the first file that fails ends the run. */
  function AllInformations(pages: seq<seq<string>>, parse: string -> Option<Json>): (r: Result<Frame>)
    ensures r.Ok? <==> forall k :: 0 <= k < |pages| ==> ReadHtml(pages[k], parse).Ok?
    ensures r.Ok? ==> Shaped(r.value, Columns) && Complete(r.value)
  {
    var files := FileResults(pages, parse);
    AppendAllShaped(files, Columns);
    AppendAll(files)
  }

  /** Processing `a` then `b` is processing each and appending the results:
      rows come out in file order, and the first failure wins. */
  lemma AllInformationsConcat(a: seq<seq<string>>, b: seq<seq<string>>, parse: string -> Option<Json>)
    ensures AllInformations(a + b, parse)
         == match AllInformations(a, parse)
            case Err(e) => Err(e)
            case Ok(fa) =>
              match AllInformations(b, parse)
              case Err(e) => Err(e)
              case Ok(fb) => Ok(Append(fa, fb))
  {
    assert FileResults(a + b, parse) == FileResults(a, parse) + FileResults(b, parse);
    AppendAllConcat(FileResults(a, parse), FileResults(b, parse));
  }

  /** A single file contributes exactly its rows without missing cells. */
  lemma AllInformationsOne(page: seq<string>, parse: string -> Option<Json>)
    ensures AllInformations([page], parse) == FileRows(page, parse)
  {
    var files := FileResults([page], parse);
    assert files == [FileRows(page, parse)];
    AppendAllOne(FileRows(page, parse));
  }

  /** The imperative `get_all_informations`. */
  method GetAllInformations(pages: seq<seq<string>>, parse: string -> Option<Json>) returns (r: Result<Frame>)
    ensures r == AllInformations(pages, parse)
  {
    ghost var files := FileResults(pages, parse);
    var data := EmptyFrame;
    for k := 0 to |pages|
      invariant AppendAll(files[..k]) == Ok(data)
    {
      var df := ReadFileRows(pages[k], parse);
      assert df == files[k];
      AppendAllStep(files, k);
      if df.Err? {
        AppendAllStopsAt(files, k);
        return Err(df.error);
      }
      data := Append(data, df.value);
    }
    assert files[..|pages|] == files;
    r := Ok(data);
  }
}
