/**
 * The relational store: the `figma_data` table as seen through a database
 * session, and `MySQLRepository` of backend/app/repository.py, which looks a
 * record up by key and saves by updating it in place or adding one.
 */
module SqlRepository {
  import opened Wrappers
  import opened Json
  import opened Timestamps
  import opened Models

  /**
   * The lookup filter: the file key, and the node id when one is given,
   * otherwise `node_id IS NULL`. An empty node id therefore looks up the NULL row.
   */
  predicate Matches(row: FigmaData, fk: string, nid: Option<string>) {
    row.fileKey == fk && if NodeIdGiven(nid) then row.nodeId == nid else row.nodeId.None?
  }

  /** `query.first()`: the position of the first matching row in insertion order. */
  function FirstMatch(rows: seq<FigmaData>, fk: string, nid: Option<string>): (r: Option<nat>)
    ensures r.Some? ==> r.value < |rows| && Matches(rows[r.value], fk, nid)
    ensures r.Some? ==> forall j :: 0 <= j < r.value ==> !Matches(rows[j], fk, nid)
    ensures r.None? ==> forall j :: 0 <= j < |rows| ==> !Matches(rows[j], fk, nid)
  {
    if rows == [] then None
    else if Matches(rows[0], fk, nid) then Some(0)
    else match FirstMatch(rows[1..], fk, nid)
      case Some(i) => Some(i + 1)
      case None => None
  }

  /** The first matching row itself. */
  function FirstRow(rows: seq<FigmaData>, fk: string, nid: Option<string>): Option<FigmaData> {
    match FirstMatch(rows, fk, nid)
    case Some(i) => Some(rows[i])
    case None => None
  }

  /**
   * An existing row after its payload columns are assigned. The update hook
   * refreshes `updatedAt` only when an UPDATE is issued, that is, when some
   * column actually changes.
   */
  function Refreshed(row: FigmaData, payload: string, name: Option<string>, depth: Option<int>,
                     lm: Option<DateTime>, now: DateTime): FigmaData
  {
    var r := row.(data := Some(payload), depth := depth, name := name, lastModified := lm);
    if r == row then row else r.(updatedAt := now)
  }

  /** A new row: the next identity, both timestamps the time of insertion. */
  function Inserted(id: nat, fk: string, nid: Option<string>, payload: string, name: Option<string>,
                    depth: Option<int>, lm: Option<DateTime>, now: DateTime): FigmaData
  {
    FigmaData(id, fk, nid, name, depth, lm, Some(payload), now, now)
  }

  /** The table after a save: the first matching row updated in place, or one row added. */
  function Saved(rows: seq<FigmaData>, nextId: nat, fk: string, nid: Option<string>, payload: string,
                 name: Option<string>, depth: Option<int>, lm: Option<DateTime>, now: DateTime)
    : (seq<FigmaData>, nat)
  {
    match FirstMatch(rows, fk, nid)
    case Some(i) => (rows[i := Refreshed(rows[i], payload, name, depth, lm, now)], nextId)
    case None => (rows + [Inserted(nextId, fk, nid, payload, name, depth, lm, now)], nextId + 1)
  }

  /** Two rows that the lookup cannot tell apart. */
  predicate SameKey(a: FigmaData, b: FigmaData) {
    a.fileKey == b.fileKey && a.nodeId == b.nodeId
  }

  /**
   * What the lookup-then-insert logic maintains (the schema itself has no
   * unique constraint on the key): identities are distinct and below the next
   * one, and no two rows share a key, except rows with an empty node id, which
   * no lookup ever finds.
   */
  ghost predicate TableInvariant(rows: seq<FigmaData>, nextId: nat) {
    && (forall i :: 0 <= i < |rows| ==> rows[i].id < nextId)
    && (forall i, j :: 0 <= i < j < |rows| ==> rows[i].id != rows[j].id)
    && (forall i, j :: 0 <= i < j < |rows| && rows[i].nodeId != Some("") ==> !SameKey(rows[i], rows[j]))
  }

  /** The table of `figma_data` rows behind one database session. */
  class FigmaTable {
    var rows: seq<FigmaData>
    var nextId: nat

    ghost predicate Valid()
      reads this
    {
      TableInvariant(rows, nextId)
    }

    constructor()
      ensures rows == [] && nextId == 1 && Valid()
    {
      rows := [];
      nextId := 1;
    }

    /** `query(FigmaData).filter(...).first()`, as a position in the table. */
    function Lookup(fk: string, nid: Option<string>): (r: Option<nat>)
      reads this
      ensures r.Some? ==> r.value < |rows| && Matches(rows[r.value], fk, nid)
      ensures r.None? ==> forall j :: 0 <= j < |rows| ==> !Matches(rows[j], fk, nid)
    {
      FirstMatch(rows, fk, nid)
    }

    /** Assign the payload columns of row `i`, then commit. */
    method Update(i: nat, payload: string, name: Option<string>, depth: Option<int>,
                  lm: Option<DateTime>, now: DateTime)
      requires i < |rows|
      modifies this
      ensures rows == old(rows)[i := Refreshed(old(rows)[i], payload, name, depth, lm, now)]
      ensures nextId == old(nextId)
    {
      rows := rows[i := Refreshed(rows[i], payload, name, depth, lm, now)];
    }

    /** `db.add` of a new row, then commit. */
    method Add(fk: string, nid: Option<string>, payload: string, name: Option<string>,
               depth: Option<int>, lm: Option<DateTime>, now: DateTime)
      modifies this
      ensures rows == old(rows) + [Inserted(old(nextId), fk, nid, payload, name, depth, lm, now)]
      ensures nextId == old(nextId) + 1
    {
      rows := rows + [Inserted(nextId, fk, nid, payload, name, depth, lm, now)];
      nextId := nextId + 1;
    }
  }

  /** `MySQLRepository`: the get/save contract over a session's table. */
  class MySqlRepository {
    const db: FigmaTable

    constructor(db: FigmaTable)
      ensures this.db == db
    {
      this.db := db;
    }

    /** `get_data`: the first record under the key, if any. */
    function GetData(fk: string, nid: Option<string>): (r: Option<FigmaData>)
      reads db
      ensures r.Some? ==> r.value in db.rows && Matches(r.value, fk, nid)
      ensures r.None? <==> forall j :: 0 <= j < |db.rows| ==> !Matches(db.rows[j], fk, nid)
    {
      FirstRow(db.rows, fk, nid)
    }

    /** `save_data`: update the record found under the key in place, or add one. */
    method SaveData(fk: string, nid: Option<string>, data: Value, name: Option<string>,
                    depth: Option<int>, lm: Option<DateTime>, codec: Codec, now: DateTime)
      modifies db
      ensures (db.rows, db.nextId)
        == Saved(old(db.rows), old(db.nextId), fk, nid, EncodePayload(codec, data), name, depth, lm, now)
      ensures old(db.Valid()) ==> db.Valid()
    {
      var payload := EncodePayload(codec, data);
      var cached := db.Lookup(fk, nid);
      if cached.Some? {
        db.Update(cached.value, payload, name, depth, lm, now);
      } else {
        db.Add(fk, nid, payload, name, depth, lm, now);
      }
      SavedKeepsInvariant(old(db.rows), old(db.nextId), fk, nid, payload, name, depth, lm, now);
    }
  }

  // ---------------------------------------------------------------------
  // Properties of a save
  // ---------------------------------------------------------------------

  /** A save keeps the table invariant. */
  lemma SavedKeepsInvariant(rows: seq<FigmaData>, nextId: nat, fk: string, nid: Option<string>, payload: string,
                            name: Option<string>, depth: Option<int>, lm: Option<DateTime>, now: DateTime)
    ensures TableInvariant(rows, nextId) ==>
      var (rows', next') := Saved(rows, nextId, fk, nid, payload, name, depth, lm, now);
      TableInvariant(rows', next')
  {
    if TableInvariant(rows, nextId) {
      match FirstMatch(rows, fk, nid)
      case Some(i) =>
        UpdateKeepsInvariant(rows, nextId, i, Refreshed(rows[i], payload, name, depth, lm, now));
      case None =>
        var n := Inserted(nextId, fk, nid, payload, name, depth, lm, now);
        forall i | 0 <= i < |rows| && rows[i].nodeId != Some("")
          ensures !SameKey(rows[i], n)
        {
          assert !Matches(rows[i], fk, nid);
        }
        AppendKeepsInvariant(rows, nextId, n);
    }
  }

  /** Rewriting a row in place with its identity and key kept preserves the invariant. */
  lemma UpdateKeepsInvariant(rows: seq<FigmaData>, nextId: nat, i: nat, row: FigmaData)
    requires TableInvariant(rows, nextId) && i < |rows|
    requires row.id == rows[i].id && SameKey(row, rows[i])
    ensures TableInvariant(rows[i := row], nextId)
  {
  }

  /** Adding a row with the next identity and a key no findable row has preserves the invariant. */
  lemma AppendKeepsInvariant(rows: seq<FigmaData>, nextId: nat, row: FigmaData)
    requires TableInvariant(rows, nextId) && row.id == nextId
    requires forall i :: 0 <= i < |rows| && rows[i].nodeId != Some("") ==> !SameKey(rows[i], row)
    ensures TableInvariant(rows + [row], nextId + 1)
  {
  }

  /**
   * The row a save writes is in place of the one found, or added at the end;
   * its identity, key and creation time are kept, its payload columns are the
   * new ones, its update time moves only if something changed, and every other
   * row is untouched.
   */
  lemma SavedRow(rows: seq<FigmaData>, nextId: nat, fk: string, nid: Option<string>, payload: string,
                 name: Option<string>, depth: Option<int>, lm: Option<DateTime>, now: DateTime)
    ensures var (rows', next') := Saved(rows, nextId, fk, nid, payload, name, depth, lm, now);
      var i := if FirstMatch(rows, fk, nid).Some? then FirstMatch(rows, fk, nid).value else |rows|;
      && |rows'| == (if i < |rows| then |rows| else |rows| + 1)
      && (forall j :: 0 <= j < |rows| && j != i ==> rows'[j] == rows[j])
      && rows'[i].data == Some(payload) && rows'[i].name == name
      && rows'[i].depth == depth && rows'[i].lastModified == lm
      && rows'[i].fileKey == fk
      && (i < |rows| ==> && rows'[i].id == rows[i].id && rows'[i].nodeId == rows[i].nodeId
                         && rows'[i].createdAt == rows[i].createdAt
                         && rows'[i].updatedAt == (if rows'[i] == rows[i] then rows[i].updatedAt else now)
                         && next' == nextId)
      && (i == |rows| ==> && rows'[i].id == nextId && rows'[i].nodeId == nid
                          && rows'[i].createdAt == now && rows'[i].updatedAt == now
                          && next' == nextId + 1)
  {
  }

  /**
   * After a save, a lookup under the same key finds a record carrying the
   * saved payload, name, depth and modification time, unless the node id is
   * empty and there was no NULL row to update: then the row added with the
   * empty id is never found.
   */
  lemma SaveThenGet(rows: seq<FigmaData>, nextId: nat, fk: string, nid: Option<string>, payload: string,
                    name: Option<string>, depth: Option<int>, lm: Option<DateTime>, now: DateTime)
    ensures var (rows', next') := Saved(rows, nextId, fk, nid, payload, name, depth, lm, now);
      var got := FirstRow(rows', fk, nid);
      && (got.Some? <==> nid != Some("") || FirstMatch(rows, fk, nid).Some?)
      && (got.Some? ==>
            got.value.data == Some(payload) && got.value.name == name
            && got.value.depth == depth && got.value.lastModified == lm)
  {
    match FirstMatch(rows, fk, nid)
    case Some(i) =>
      UpdatedFirst(rows, fk, nid, i, Refreshed(rows[i], payload, name, depth, lm, now));
    case None =>
      var row := Inserted(nextId, fk, nid, payload, name, depth, lm, now);
      assert Matches(row, fk, nid) <==> nid != Some("");
      AppendedFirst(rows, fk, nid, row);
  }

  /** Replacing the first match by a row that still matches makes that row the first match. */
  lemma UpdatedFirst(rows: seq<FigmaData>, fk: string, nid: Option<string>, i: nat, row: FigmaData)
    requires FirstMatch(rows, fk, nid) == Some(i) && Matches(row, fk, nid)
    ensures FirstRow(rows[i := row], fk, nid) == Some(row)
  {
    var r := rows[i := row];
    forall j | 0 <= j < i
      ensures !Matches(r[j], fk, nid)
    {
      assert r[j] == rows[j];
    }
    FirstAt(r, fk, nid, i);
  }

  /** With no match, the first match after appending a row is that row if it matches. */
  lemma AppendedFirst(rows: seq<FigmaData>, fk: string, nid: Option<string>, row: FigmaData)
    requires FirstMatch(rows, fk, nid).None?
    ensures FirstRow(rows + [row], fk, nid) == if Matches(row, fk, nid) then Some(row) else None
  {
    var r, n := rows + [row], |rows|;
    forall j | 0 <= j < n
      ensures !Matches(r[j], fk, nid)
    {
      assert r[j] == rows[j];
    }
    if Matches(row, fk, nid) {
      FirstAt(r, fk, nid, n);
    } else {
      assert forall j :: 0 <= j < |r| ==> !Matches(r[j], fk, nid);
    }
  }

  /** A matching row with no match before it is the first match. */
  lemma FirstAt(rows: seq<FigmaData>, fk: string, nid: Option<string>, i: nat)
    requires i < |rows| && Matches(rows[i], fk, nid)
    requires forall j :: 0 <= j < i ==> !Matches(rows[j], fk, nid)
    ensures FirstMatch(rows, fk, nid) == Some(i)
  {
    var r := FirstMatch(rows, fk, nid);
    assert r.Some?;
    assert !(r.value < i);
    assert !(i < r.value);
  }

  /**
   * Repeating a save leaves the table as the first save left it, even at a
   * later time: the second save finds the row and changes no column.
   */
  lemma SaveIdempotent(rows: seq<FigmaData>, nextId: nat, fk: string, nid: Option<string>, payload: string,
                       name: Option<string>, depth: Option<int>, lm: Option<DateTime>, now: DateTime, later: DateTime)
    requires nid != Some("")
    ensures var (rows', next') := Saved(rows, nextId, fk, nid, payload, name, depth, lm, now);
      Saved(rows', next', fk, nid, payload, name, depth, lm, later) == (rows', next')
  {
    var (rows', next') := Saved(rows, nextId, fk, nid, payload, name, depth, lm, now);
    SaveThenGet(rows, nextId, fk, nid, payload, name, depth, lm, now);
    var i := FirstMatch(rows', fk, nid).value;
    assert Refreshed(rows'[i], payload, name, depth, lm, later) == rows'[i];
    assert rows'[i := rows'[i]] == rows';
  }

  /**
   * With an empty node id and no NULL row, every save adds a row with the
   * empty id, and none of them is ever found: repeated saves grow the table.
   */
  lemma EmptyIdGrows(rows: seq<FigmaData>, nextId: nat, fk: string, payload: string,
                     name: Option<string>, depth: Option<int>, lm: Option<DateTime>, now: DateTime, later: DateTime)
    requires FirstMatch(rows, fk, Some("")).None?
    ensures var (rows', next') := Saved(rows, nextId, fk, Some(""), payload, name, depth, lm, now);
      var (rows'', next'') := Saved(rows', next', fk, Some(""), payload, name, depth, lm, later);
      && rows' == rows + [Inserted(nextId, fk, Some(""), payload, name, depth, lm, now)]
      && rows'' == rows' + [Inserted(nextId + 1, fk, Some(""), payload, name, depth, lm, later)]
      && FirstRow(rows'', fk, Some("")) == None
  {
    var (rows', next') := Saved(rows, nextId, fk, Some(""), payload, name, depth, lm, now);
    SaveThenGet(rows, nextId, fk, Some(""), payload, name, depth, lm, now);
    SaveThenGet(rows', next', fk, Some(""), payload, name, depth, lm, later);
  }
}
