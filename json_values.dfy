/** Parsed JSON values and the defensive `.get` chains the extractors use
    to read one entity record of the payload's `included` array. */
module JsonValues {
  import opened Results

  /** A value as `json.loads` returns it. Numbers are opaque leaves: the
      pipeline copies them into cells and never computes with them. */
  datatype Json =
    | JNull
    | JBool(b: bool)
    | JNumber(literal: string)
    | JString(s: string)
    | JArray(items: seq<Json>)
    | JObject(fields: map<string, Json>)

  /** The `{}` passed as default to every intermediate `.get`. */
  const EmptyObject: Json := JObject(map[])

  /** A data-frame cell: `None` is the missing value that `notna` rejects. */
  type Cell = Option<Json>

  /** Python sees JSON `null` as `None`, which the data frame stores as missing. */
  function ToCell(v: Json): Cell {
    if v.JNull? then None else Some(v)
  }

  /** `v.get(key, default)`: the value under `key`, `default` when the key is
      absent, and an AttributeError when `v` is not a dict. */
  function Get(v: Json, key: string, default: Json): Result<Json> {
    if v.JObject? then Ok(if key in v.fields then v.fields[key] else default)
    else Err(NotAnObject)
  }

  /** The chain `v.get(p0, {}).get(p1, {}) ... .get(leaf)` for `path == [p0, p1, ..., leaf]`:
      every intermediate lookup defaults to `{}`, the last one to `None`. */
  function Lookup(v: Json, path: seq<string>): Result<Cell>
    requires |path| > 0
    decreases |path|
  {
    if |path| == 1 then
      var leaf :- Get(v, path[0], JNull);
      Ok(ToCell(leaf))
    else
      var next :- Get(v, path[0], EmptyObject);
      Lookup(next, path[1..])
  }

  // Reference reading of nested keys, stated on dicts directly.

  /** `d[key]` as a cell: missing when the key is absent or holds null. */
  function Field(d: map<string, Json>, key: string): Cell {
    if key in d then ToCell(d[key]) else None
  }

  /** A `.get` can be applied to what `d.get(parent, {})` returns:
      `parent` is absent, or it holds a dict. */
  predicate Descendable(d: map<string, Json>, parent: string) {
    parent !in d || d[parent].JObject?
  }

  /** The dict under `parent`, or the empty dict when `parent` is absent. */
  function Child(d: map<string, Json>, parent: string): map<string, Json> {
    if parent in d && d[parent].JObject? then d[parent].fields else map[]
  }

  /** `parent.leaf` read from `d`. */
  function Nested(d: map<string, Json>, parent: string, leaf: string): Cell {
    Field(Child(d, parent), leaf)
  }

  /** Every key of `parents` can be descended through, starting at `d`. */
  ghost predicate PathDescendable(d: map<string, Json>, parents: seq<string>)
    decreases |parents|
  {
    |parents| == 0 || (Descendable(d, parents[0]) && PathDescendable(Child(d, parents[0]), parents[1..]))
  }

  /** The cell under `parents` followed by `leaf`, descending from `d`. */
  ghost function PathField(d: map<string, Json>, parents: seq<string>, leaf: string): Cell
    decreases |parents|
  {
    if |parents| == 0 then Field(d, leaf) else PathField(Child(d, parents[0]), parents[1..], leaf)
  }

  /** What a `.get` chain does on a record: it raises exactly when some key on
      the way is present but does not hold a dict (a `null` or a string, say);
      otherwise it yields the nested field, missing as soon as a key is absent. */
  lemma {:induction false} LookupMeaning(d: map<string, Json>, parents: seq<string>, leaf: string)
    ensures Lookup(JObject(d), parents + [leaf])
         == if PathDescendable(d, parents) then Ok(PathField(d, parents, leaf)) else Err(NotAnObject)
    decreases |parents|
  {
    if |parents| > 0 {
      var p := parents[0];
      assert (parents + [leaf])[1..] == parents[1..] + [leaf];
      if p in d && !d[p].JObject? {
        assert Get(d[p], (parents[1..] + [leaf])[0], EmptyObject) == Err(NotAnObject);
      } else {
        LookupMeaning(Child(d, p), parents[1..], leaf);
      }
    }
  }

  /** A chain applied to something that is not a dict raises at its first `.get`. */
  lemma LookupNotObject(v: Json, path: seq<string>)
    requires |path| > 0 && !v.JObject?
    ensures Lookup(v, path) == Err(NotAnObject)
  {
  }

  /** The two-level chain `rec.get(parent, {}).get(leaf)` in terms of dicts. */
  lemma LookupTwo(v: Json, parent: string, leaf: string)
    ensures Lookup(v, [parent, leaf])
         == if v.JObject? && Descendable(v.fields, parent) then Ok(Nested(v.fields, parent, leaf))
            else Err(NotAnObject)
  {
    if v.JObject? {
      LookupMeaning(v.fields, [parent], leaf);
      assert [parent] + [leaf] == [parent, leaf];
    }
  }

  /** The three-level chain `rec.get(a, {}).get(b, {}).get(leaf)` in terms of dicts. */
  lemma LookupThree(v: Json, a: string, b: string, leaf: string)
    ensures Lookup(v, [a, b, leaf])
         == if v.JObject? && Descendable(v.fields, a) && Descendable(Child(v.fields, a), b)
            then Ok(Nested(Child(v.fields, a), b, leaf))
            else Err(NotAnObject)
  {
    if v.JObject? {
      LookupMeaning(v.fields, [a, b], leaf);
      assert [a, b] + [leaf] == [a, b, leaf];
      assert [a, b][1..] == [b];
      assert PathDescendable(v.fields, [a, b])
         == (Descendable(v.fields, a) && PathDescendable(Child(v.fields, a), [b]));
      assert PathField(v.fields, [a, b], leaf) == PathField(Child(v.fields, a), [b], leaf);
      var c := Child(v.fields, a);
      assert [b][1..] == [];
      assert PathDescendable(c, [b]) == Descendable(c, b);
      assert PathField(c, [b], leaf) == Nested(c, b, leaf);
    }
  }

  /** The one-level read `rec.get(key)`. */
  lemma LookupOne(v: Json, key: string)
    ensures Lookup(v, [key]) == if v.JObject? then Ok(Field(v.fields, key)) else Err(NotAnObject)
  {
  }

  /** `js["included"]`, the records the extraction loops walk over. A payload
      that is not a dict, or has no `included` key, raises (TypeError,
      KeyError). An empty string or dict there is walked zero times; a
      non-empty one yields elements that are not records, and the first
      read of such an element raises. */
  function Included(js: Json): (r: Result<seq<Json>>)
    ensures r.Err? ==> r.error == MalformedPayload
    ensures r.Ok? ==> js.JObject? && "included" in js.fields
    ensures r.Ok? && |r.value| > 0 ==> js.fields["included"] == JArray(r.value)
    ensures js.JObject? && "included" in js.fields && js.fields["included"].JArray? ==>
              r == Ok(js.fields["included"].items)
    ensures js.JObject? && "included" in js.fields && js.fields["included"] in {JString(""), JObject(map[])} ==>
              r == Ok([])
  {
    if !js.JObject? || "included" !in js.fields then Err(MalformedPayload)
    else
      match js.fields["included"]
      case JArray(items) => Ok(items)
      case JString(s) => if |s| == 0 then Ok([]) else Err(MalformedPayload)
      case JObject(m) => if |m| == 0 then Ok([]) else Err(MalformedPayload)
      case _ => Err(MalformedPayload)
  }

  /** The cells of a row read left to right, as the extractor evaluates its
      `.get` chains one after the other: the first chain that raises ends
      the call. */
  function ReadCells(chains: seq<Result<Cell>>): (r: Result<seq<Cell>>)
    ensures r.Ok? <==> forall i :: 0 <= i < |chains| ==> chains[i].Ok?
    ensures r.Ok? ==> |r.value| == |chains| && forall i :: 0 <= i < |chains| ==> chains[i] == Ok(r.value[i])
    ensures r.Err? ==> exists i :: 0 <= i < |chains| && chains[i] == Err(r.error)
    decreases |chains|
  {
    if |chains| == 0 then Ok([])
    else
      match chains[0]
      case Err(e) => Err(e)
      case Ok(c) =>
        var rest :- ReadCells(chains[1..]);
        Ok([c] + rest)
  }

  /** The first chain that raises gives the row's error: the chains after it
      are never evaluated. */
  lemma {:induction false} ReadCellsFirstError(chains: seq<Result<Cell>>, i: nat)
    requires i < |chains| && chains[i].Err?
    requires forall j :: 0 <= j < i ==> chains[j].Ok?
    ensures ReadCells(chains) == Err(chains[i].error)
    decreases i
  {
    if i > 0 {
      ReadCellsFirstError(chains[1..], i - 1);
    }
  }

  /** Chains that all succeed are read into their cells, in order. */
  lemma {:induction false} ReadCellsAllOk(chains: seq<Result<Cell>>, cells: seq<Cell>)
    requires |chains| == |cells|
    requires forall i :: 0 <= i < |chains| ==> chains[i] == Ok(cells[i])
    ensures ReadCells(chains) == Ok(cells)
    decreases |chains|
  {
    if |chains| > 0 {
      ReadCellsAllOk(chains[1..], cells[1..]);
      assert cells == [cells[0]] + cells[1..];
    }
  }
}
