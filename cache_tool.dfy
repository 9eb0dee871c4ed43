/**
 * The cache-or-fetch procedure `get_figma_data_tool` of
 * backend/app/services/mcp_tools.py: serve a stored record unless a refresh
 * is forced; otherwise fetch from the remote API, reduce, store and return.
 * The remote API is the caller-supplied `fetch`, the clock the `now` argument.
 */
module CacheTool {
  import opened Wrappers
  import opened Json
  import opened Timestamps
  import opened Models
  import opened Reducer
  import opened SqlRepository

  /** The remote call made: the whole file, or the listed nodes of it. */
  datatype Request =
    | GetFile(fileKey: string, depth: Option<int>)
    | GetFileNodes(fileKey: string, nodeIds: string, depth: Option<int>)

  /** The nodes endpoint when a node id is given, the file endpoint otherwise. */
  function RequestFor(fk: string, nid: Option<string>, depth: Option<int>): (q: Request)
    ensures q.fileKey == fk && q.depth == depth
    ensures q.GetFileNodes? <==> NodeIdGiven(nid)
    ensures q.GetFileNodes? ==> q.nodeIds == nid.value
  {
    if NodeIdGiven(nid) then GetFileNodes(fk, nid.value, depth) else GetFile(fk, depth)
  }

  /** `json.loads(cached_item.data)`: a record without data makes `loads` raise a TypeError. */
  function LoadCached(codec: Codec, row: FigmaData): Result<Value, Error> {
    match row.data
    case None => Err(TypeError)
    case Some(s) => codec.loads(s)
  }

  /** The name column takes the metadata name when it is a string; `null` is stored as NULL. */
  function StoredName(v: Value): Option<string> {
    if v.Str? then Some(v.s) else None
  }

  /** A `lastModified` that is not a string, or does not parse, is stored as NULL. */
  function StoredTimestamp(v: Value): (r: Option<DateTime>)
    ensures r.Some? ==> v.Str? && Valid(r.value)
  {
    if v.Str? then ParseFigmaTimestamp(v.s) else None
  }

  /** The name and modification time read from the reduced response's `metadata`. */
  function Summary(p: Value): Result<(Option<string>, Option<DateTime>), Error> {
    var meta := if p.Obj? then GetOr(p.fields, "metadata", Obj([])) else Obj([]);
    if !meta.Obj? then Err(AttributeError)
    else Ok((StoredName(GetOr(meta.fields, "name", Null)), StoredTimestamp(GetOr(meta.fields, "lastModified", Null))))
  }

  /** What one call returns, the remote call it made (if any), and the table it leaves. */
  datatype Outcome = Outcome(result: Result<Value, Error>, request: Option<Request>,
                             rows: seq<FigmaData>, nextId: nat)

  /** One call of the tool, as a function of the table before it. */
  function Tool(rows: seq<FigmaData>, nextId: nat, codec: Codec, fk: string, nid: Option<string>,
                depth: Option<int>, force: bool, fetch: Request -> Result<Value, Error>, now: DateTime): Outcome
  {
    var hit := FirstMatch(rows, fk, nid);
    if hit.Some? && !force then Outcome(LoadCached(codec, rows[hit.value]), None, rows, nextId)
    else
      var req := RequestFor(fk, nid, depth);
      match fetch(req)
      case Err(e) => Outcome(Err(e), Some(req), rows, nextId)
      case Ok(raw) =>
        match ProcessFigmaResponse(raw, depth)
        case Err(e) => Outcome(Err(e), Some(req), rows, nextId)
        case Ok(p) =>
          match Summary(p)
          case Err(e) => Outcome(Err(e), Some(req), rows, nextId)
          case Ok(s) =>
            var (rows', next') := Saved(rows, nextId, fk, nid, codec.dumps(p), s.0, depth, s.1, now);
            Outcome(Ok(p), Some(req), rows', next')
  }

  /** `get_figma_data_tool` over the session's table. */
  method GetFigmaDataTool(db: FigmaTable, codec: Codec, fk: string, nid: Option<string>, depth: Option<int>,
                          force: bool, fetch: Request -> Result<Value, Error>, now: DateTime)
    returns (r: Result<Value, Error>, request: Option<Request>)
    modifies db
    ensures Outcome(r, request, db.rows, db.nextId) == Tool(old(db.rows), old(db.nextId), codec, fk, nid, depth, force, fetch, now)
  {
    var cached := db.Lookup(fk, nid);
    if cached.Some? && !force {
      r := LoadCached(codec, db.rows[cached.value]);
      request := None;
      return;
    }
    var req := RequestFor(fk, nid, depth);
    request := Some(req);
    var raw := fetch(req);
    if raw.Err? {
      r := Err(raw.error);
      return;
    }
    var processed := ProcessFigmaResponse(raw.value, depth);
    if processed.Err? {
      r := Err(processed.error);
      return;
    }
    var p := processed.value;
    var summary := Summary(p);
    if summary.Err? {
      r := Err(summary.error);
      return;
    }
    var (name, lastModified) := summary.value;
    if cached.Some? {
      db.Update(cached.value, codec.dumps(p), name, depth, lastModified, now);
    } else {
      db.Add(fk, nid, codec.dumps(p), name, depth, lastModified, now);
    }
    r := Ok(p);
  }

  // ---------------------------------------------------------------------
  // Properties of one call
  // ---------------------------------------------------------------------

  /**
   * A stored record is served as decoded, with no remote call and no change to
   * the table, unless a refresh is forced; otherwise the nodes endpoint is
   * called when a node id is given and the file endpoint when it is not.
   */
  lemma HitServesCache(rows: seq<FigmaData>, nextId: nat, codec: Codec, fk: string, nid: Option<string>,
                       depth: Option<int>, force: bool, fetch: Request -> Result<Value, Error>, now: DateTime)
    ensures var o := Tool(rows, nextId, codec, fk, nid, depth, force, fetch, now);
      && (o.request.None? <==> FirstRow(rows, fk, nid).Some? && !force)
      && (o.request.None? ==> o.result == LoadCached(codec, FirstRow(rows, fk, nid).value)
                              && o.rows == rows && o.nextId == nextId)
      && (o.request.Some? ==>
            o.request == Some(if NodeIdGiven(nid) then GetFileNodes(fk, nid.value, depth) else GetFile(fk, depth)))
  {
  }

  /** A failing remote call or reduction is passed on and leaves the table as it was. */
  lemma FailureKeepsTable(rows: seq<FigmaData>, nextId: nat, codec: Codec, fk: string, nid: Option<string>,
                          depth: Option<int>, force: bool, fetch: Request -> Result<Value, Error>, now: DateTime)
    ensures var o := Tool(rows, nextId, codec, fk, nid, depth, force, fetch, now);
      && (o.result.Err? ==> o.rows == rows && o.nextId == nextId)
      && (o.request.Some? && fetch(o.request.value).Err? ==> o.result == Err(fetch(o.request.value).error))
  {
  }

  /** The name and timestamp of every reduced response can be read, so a bad `lastModified` never aborts the call. */
  lemma SummaryOfResponse(raw: Value, depth: Option<int>)
    requires ProcessFigmaResponse(raw, depth).Ok?
    ensures Summary(ProcessFigmaResponse(raw, depth).value)
         == Ok((StoredName(GetOr(raw.fields, "name", Null)), StoredTimestamp(GetOr(raw.fields, "lastModified", Null))))
  {
    ResponseValues(raw, depth);
    MetadataMembers(GetOr(raw.fields, "name", Null), GetOr(raw.fields, "lastModified", Null),
                    GetOr(raw.fields, "thumbnailUrl", Null));
  }

  lemma MetadataMembers(n: Value, l: Value, t: Value)
    ensures Get([("name", n), ("lastModified", l), ("thumbnailUrl", t)], "name") == Some(n)
    ensures Get([("name", n), ("lastModified", l), ("thumbnailUrl", t)], "lastModified") == Some(l)
  {
  }

  /**
   * A successful fetch returns the reduced response and stores it: a lookup
   * under the same key then finds a record holding its encoding, the depth,
   * and the response's name and parsed modification time (for an empty node
   * id, only if a NULL row was there to update).
   */
  lemma FetchStores(rows: seq<FigmaData>, nextId: nat, codec: Codec, fk: string, nid: Option<string>,
                    depth: Option<int>, force: bool, fetch: Request -> Result<Value, Error>, now: DateTime)
    requires var o := Tool(rows, nextId, codec, fk, nid, depth, force, fetch, now);
      o.request.Some? && o.result.Ok?
    requires nid != Some("") || FirstMatch(rows, fk, nid).Some?
    ensures var o := Tool(rows, nextId, codec, fk, nid, depth, force, fetch, now);
      var raw := fetch(RequestFor(fk, nid, depth)).value;
      && o.result == ProcessFigmaResponse(raw, depth)
      && FirstRow(o.rows, fk, nid).Some?
      && FirstRow(o.rows, fk, nid).value.data == Some(codec.dumps(o.result.value))
      && FirstRow(o.rows, fk, nid).value.depth == depth
      && FirstRow(o.rows, fk, nid).value.name == StoredName(GetOr(raw.fields, "name", Null))
      && FirstRow(o.rows, fk, nid).value.lastModified == StoredTimestamp(GetOr(raw.fields, "lastModified", Null))
  {
    var raw := fetch(RequestFor(fk, nid, depth)).value;
    var p := ProcessFigmaResponse(raw, depth).value;
    SummaryOfResponse(raw, depth);
    var s := Summary(p).value;
    SaveThenGet(rows, nextId, fk, nid, codec.dumps(p), s.0, depth, s.1, now);
  }

  /**
   * After a successful fetch of a plain response (any that `json.loads`
   * produces, barring a NaN literal), the next call without a refresh is a
   * hit returning an equal value.
   */
  lemma MissThenHit(rows: seq<FigmaData>, nextId: nat, codec: Codec, fk: string, nid: Option<string>,
                    depth: Option<int>, force: bool, fetch: Request -> Result<Value, Error>, now: DateTime,
                    depth2: Option<int>, fetch2: Request -> Result<Value, Error>, later: DateTime)
    requires RoundTrips(codec)
    requires nid != Some("")
    requires fetch(RequestFor(fk, nid, depth)).Ok? ==> Plain(fetch(RequestFor(fk, nid, depth)).value)
    requires var o := Tool(rows, nextId, codec, fk, nid, depth, force, fetch, now);
      o.request.Some? && o.result.Ok?
    ensures var o := Tool(rows, nextId, codec, fk, nid, depth, force, fetch, now);
      var o2 := Tool(o.rows, o.nextId, codec, fk, nid, depth2, false, fetch2, later);
      o2.request.None? && o2.result == o.result && o2.rows == o.rows
  {
    var o := Tool(rows, nextId, codec, fk, nid, depth, force, fetch, now);
    FetchStores(rows, nextId, codec, fk, nid, depth, force, fetch, now);
    ResponsePlain(fetch(RequestFor(fk, nid, depth)).value, depth);
    assert codec.loads(codec.dumps(o.result.value)) == Ok(o.result.value);
  }

  /**
   * An empty node id is looked up as NULL but stored as the empty string:
   * without a NULL row, every call fetches again and adds one more row.
   */
  lemma EmptyIdRefetches(rows: seq<FigmaData>, nextId: nat, codec: Codec, fk: string,
                         depth: Option<int>, fetch: Request -> Result<Value, Error>, now: DateTime)
    requires FirstMatch(rows, fk, Some("")).None?
    requires Tool(rows, nextId, codec, fk, Some(""), depth, false, fetch, now).result.Ok?
    ensures var o := Tool(rows, nextId, codec, fk, Some(""), depth, false, fetch, now);
      && o.request == Some(GetFile(fk, depth))
      && |o.rows| == |rows| + 1 && o.rows[|rows|].nodeId == Some("")
      && FirstMatch(o.rows, fk, Some("")).None?
  {
    var o := Tool(rows, nextId, codec, fk, Some(""), depth, false, fetch, now);
    var raw := fetch(GetFile(fk, depth)).value;
    var p := ProcessFigmaResponse(raw, depth).value;
    SummaryOfResponse(raw, depth);
    var s := Summary(p).value;
    SaveThenGet(rows, nextId, fk, Some(""), codec.dumps(p), s.0, depth, s.1, now);
  }

  /** A forced refresh with no stored record takes exactly the path of a miss. */
  lemma ForceWithoutRecord(rows: seq<FigmaData>, nextId: nat, codec: Codec, fk: string, nid: Option<string>,
                           depth: Option<int>, fetch: Request -> Result<Value, Error>, now: DateTime)
    requires FirstMatch(rows, fk, nid).None?
    ensures Tool(rows, nextId, codec, fk, nid, depth, true, fetch, now)
         == Tool(rows, nextId, codec, fk, nid, depth, false, fetch, now)
  {
  }

  /** The tool keeps the table invariant. */
  lemma ToolKeepsInvariant(rows: seq<FigmaData>, nextId: nat, codec: Codec, fk: string, nid: Option<string>,
                           depth: Option<int>, force: bool, fetch: Request -> Result<Value, Error>, now: DateTime)
    requires TableInvariant(rows, nextId)
    ensures var o := Tool(rows, nextId, codec, fk, nid, depth, force, fetch, now);
      TableInvariant(o.rows, o.nextId)
  {
    var o := Tool(rows, nextId, codec, fk, nid, depth, force, fetch, now);
    if o.request.Some? && o.result.Ok? {
      var raw := fetch(RequestFor(fk, nid, depth)).value;
      var p := ProcessFigmaResponse(raw, depth).value;
      var s := Summary(p).value;
      SavedKeepsInvariant(rows, nextId, fk, nid, codec.dumps(p), s.0, depth, s.1, now);
    }
  }
}
