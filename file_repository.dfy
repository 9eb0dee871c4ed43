/**
 * The file-system store: `FileSystemRepository` of backend/app/repository.py.
 * Each key is kept as one JSON file in a data folder, under a file name
 * derived from the key; a save overwrites the whole file and a read that
 * fails for any reason yields nothing.
 */
module FileRepository {
  import opened Wrappers
  import opened Json
  import opened Timestamps
  import opened Models
  import opened Paths

  // ---------------------------------------------------------------------
  // `_get_filename`
  // ---------------------------------------------------------------------

  /** The characters that are replaced in a node id: `< > : " / \ | ? *`. */
  predicate Illegal(c: char) {
    c == '<' || c == '>' || c == ':' || c == '"' || c == '/' || c == '\\' || c == '|' || c == '?' || c == '*'
  }

  /** Every illegal character replaced by `_`. */
  function Sanitize(s: string): (r: string)
    ensures |r| == |s|
    ensures forall i :: 0 <= i < |s| ==> !Illegal(r[i])
    ensures forall i :: 0 <= i < |s| ==> r[i] == (if Illegal(s[i]) then '_' else s[i])
  {
    if s == [] then [] else [if Illegal(s[0]) then '_' else s[0]] + Sanitize(s[1..])
  }

  /** The node part of a file name: `ROOT` for a missing or empty node id. */
  function SafeNodeId(nid: Option<string>): string {
    if NodeIdGiven(nid) then Sanitize(nid.value) else "ROOT"
  }

  /** The file name proper, `{file_key}__{safe}.json`. */
  function BaseName(fk: string, nid: Option<string>): string {
    fk + "__" + SafeNodeId(nid) + ".json"
  }

  /** `_get_filename`: the base name joined onto the data folder. */
  function GetFilename(folder: string, fk: string, nid: Option<string>): string {
    PathJoin(folder, BaseName(fk, nid))
  }

  /** Within one file key, two node ids share a file exactly when their sanitised forms agree. */
  lemma SameFileIff(folder: string, fk: string, a: Option<string>, b: Option<string>)
    ensures GetFilename(folder, fk, a) == GetFilename(folder, fk, b) <==> SafeNodeId(a) == SafeNodeId(b)
  {
    var x, y := BaseName(fk, a), BaseName(fk, b);
    if GetFilename(folder, fk, a) == GetFilename(folder, fk, b) {
      var absolute := |x| > 0 && x[0] == '/';
      assert absolute <==> |y| > 0 && y[0] == '/' by {
        if fk == [] {
          assert x[0] == '_' && y[0] == '_';
        } else {
          assert x[0] == fk[0] && y[0] == fk[0];
        }
      }
      if !absolute {
        JoinRelative(folder, x);
        JoinRelative(folder, y);
        assert JoinPrefix(folder) + x == JoinPrefix(folder) + y;
        assert x == (JoinPrefix(folder) + x)[|JoinPrefix(folder)|..];
        assert y == (JoinPrefix(folder) + y)[|JoinPrefix(folder)|..];
      }
      assert x == y;
      var n := |fk| + 2;
      assert SafeNodeId(a) == x[n..|x| - 5];
      assert SafeNodeId(b) == y[n..|y| - 5];
    }
  }

  /** The sanitisation collisions: `1:2` and `1_2` share a file, and so do `ROOT`, an empty id and no id. */
  lemma Collisions(folder: string, fk: string)
    ensures GetFilename(folder, fk, Some("1:2")) == GetFilename(folder, fk, Some("1_2"))
    ensures GetFilename(folder, fk, Some("ROOT")) == GetFilename(folder, fk, None)
    ensures GetFilename(folder, fk, Some("")) == GetFilename(folder, fk, None)
  {
    assert Sanitize("1:2") == "1_2" by {
      assert Sanitize("1:2")[1] == '_';
    }
    SanitizeClean("1_2");
    SanitizeClean("ROOT");
    SameFileIff(folder, fk, Some("1:2"), Some("1_2"));
    SameFileIff(folder, fk, Some("ROOT"), None);
    SameFileIff(folder, fk, Some(""), None);
  }

  /** A string without illegal characters is its own sanitised form. */
  lemma SanitizeClean(s: string)
    requires forall i :: 0 <= i < |s| ==> !Illegal(s[i])
    ensures Sanitize(s) == s
  {
  }

  /** Distinct file keys can share a file too: `a` with node `b__ROOT`, and `a__b` with no node. */
  lemma KeyCollision(folder: string)
    ensures GetFilename(folder, "a", Some("b__ROOT")) == GetFilename(folder, "a__b", None)
  {
    var m, id, key := "b", "b__ROOT", "a__b";
    assert m + "__ROOT" == id;
    assert "a" + "__" + m == key;
    KeyShift(folder, "a", m);
  }

  /** Moving a clean `m__` from the front of the node id to the end of the file key keeps the file. */
  lemma KeyShift(folder: string, fk: string, m: string)
    requires forall i :: 0 <= i < |m| ==> !Illegal(m[i])
    ensures GetFilename(folder, fk, Some(m + "__ROOT")) == GetFilename(folder, fk + "__" + m, None)
  {
    CleanSuffix(m);
    SanitizeClean(m + "__ROOT");
    ShiftNames(fk, m);
    ShiftConcat(fk, m);
  }

  lemma CleanSuffix(m: string)
    requires forall i :: 0 <= i < |m| ==> !Illegal(m[i])
    ensures forall i :: 0 <= i < |m + "__ROOT"| ==> !Illegal((m + "__ROOT")[i])
  {
  }

  lemma ShiftNames(fk: string, m: string)
    requires Sanitize(m + "__ROOT") == m + "__ROOT"
    ensures BaseName(fk, Some(m + "__ROOT")) == fk + "__" + (m + "__ROOT") + ".json"
    ensures BaseName(fk + "__" + m, None) == fk + "__" + m + "__" + "ROOT" + ".json"
  {
  }

  lemma ShiftConcat(fk: string, m: string)
    ensures fk + "__" + (m + "__ROOT") + ".json" == fk + "__" + m + "__" + "ROOT" + ".json"
  {
  }

  // ---------------------------------------------------------------------
  // File contents and the record read back
  // ---------------------------------------------------------------------

  /** A file in the data folder: its text, or one that cannot be opened. */
  datatype Entry = Text(content: string) | Unreadable

  /** The `last_modified` of a record read back: re-parsed when possible, otherwise as stored. */
  datatype Stamp = Parsed(at: DateTime) | Kept(raw: Value)

  /** The object `get_data` hands out: the members of the file, by name. */
  datatype FileRecord = FileRecord(
    fileKey: Value,
    nodeId: Value,
    name: Value,
    depth: Value,
    lastModified: Stamp,
    data: Value)

  function OptStr(o: Option<string>): Value {
    match o
    case Some(s) => Str(s)
    case None => Null
  }

  function OptInt(o: Option<int>): Value {
    match o
    case Some(n) => Int(n)
    case None => Null
  }

  /** A truthy string `last_modified` is re-parsed; if that fails, or it is anything else, it is kept. */
  function ReadStamp(lm: Value): Stamp {
    if Truthy(lm) && lm.Str? then
      match FromIsoFormat(lm.s)
      case Some(t) => Parsed(t)
      case None => Kept(lm)
    else Kept(lm)
  }

  /** The wrapper built from a decoded file; absent members read as `None`. */
  function Wrapped(fs: Fields): FileRecord {
    FileRecord(GetOr(fs, "file_key", Null), GetOr(fs, "node_id", Null), GetOr(fs, "name", Null),
               GetOr(fs, "depth", Null), ReadStamp(GetOr(fs, "last_modified", Null)), GetOr(fs, "data", Null))
  }

  /** Reading the file at `path`: a missing, unreadable or undecodable file, or one not holding a dict, gives `None`. */
  function ReadRecord(files: map<string, Entry>, path: string, codec: Codec): (r: Option<FileRecord>)
    ensures path !in files ==> r.None?
    ensures r.Some? <==> path in files && files[path].Text? && codec.loads(files[path].content).Ok?
                         && codec.loads(files[path].content).value.Obj?
  {
    if path !in files then None
    else match files[path]
      case Unreadable => None
      case Text(s) =>
        match codec.loads(s)
        case Err(_) => None
        case Ok(v) => if v.Obj? then Some(Wrapped(v.fields)) else None
  }

  /** The dict `save_data` writes. */
  function Content(fk: string, nid: Option<string>, name: Option<string>, depth: Option<int>,
                   lm: Option<DateTime>, payload: string, now: DateTime): Value
    requires lm.Some? ==> Valid(lm.value)
    requires Valid(now)
  {
    Obj([("file_key", Str(fk)),
         ("node_id", OptStr(nid)),
         ("name", OptStr(name)),
         ("depth", OptInt(depth)),
         ("last_modified", if lm.Some? then Str(IsoFormat(lm.value)) else Null),
         ("data", Str(payload)),
         ("updated_at", Str(IsoFormat(now)))])
  }

  /** The record a save is read back as: the key as given (not sanitised), and the modification time re-parsed. */
  function Expected(fk: string, nid: Option<string>, name: Option<string>, depth: Option<int>,
                    lm: Option<DateTime>, payload: string): FileRecord
  {
    FileRecord(Str(fk), OptStr(nid), OptStr(name), OptInt(depth),
               if lm.Some? then Parsed(lm.value) else Kept(Null), Str(payload))
  }

  /** The members of a written file, looked up one at a time. */
  lemma ContentMembers(fk: string, nid: Option<string>, name: Option<string>, depth: Option<int>,
                       lm: Option<DateTime>, payload: string, now: DateTime)
    requires lm.Some? ==> Valid(lm.value)
    requires Valid(now)
    ensures var fs := Content(fk, nid, name, depth, lm, payload, now).fields;
      && GetOr(fs, "file_key", Null) == Str(fk)
      && GetOr(fs, "node_id", Null) == OptStr(nid)
      && GetOr(fs, "name", Null) == OptStr(name)
      && GetOr(fs, "depth", Null) == OptInt(depth)
      && GetOr(fs, "last_modified", Null) == (if lm.Some? then Str(IsoFormat(lm.value)) else Null)
      && GetOr(fs, "data", Null) == Str(payload)
  {
    var k, n, m, d := Str(fk), OptStr(nid), OptStr(name), OptInt(depth);
    var l, p, u := if lm.Some? then Str(IsoFormat(lm.value)) else Null, Str(payload), Str(IsoFormat(now));
    LayoutFileKey(k, n, m, d, l, p, u);
    LayoutNodeId(k, n, m, d, l, p, u);
    LayoutName(k, n, m, d, l, p, u);
    LayoutDepth(k, n, m, d, l, p, u);
    LayoutLastModified(k, n, m, d, l, p, u);
    LayoutData(k, n, m, d, l, p, u);
  }

  lemma LayoutFileKey(k: Value, n: Value, m: Value, d: Value, l: Value, p: Value, u: Value)
    ensures Get([("file_key", k), ("node_id", n), ("name", m), ("depth", d),
                ("last_modified", l), ("data", p), ("updated_at", u)], "file_key") == Some(k)
  {
    var fs := [("file_key", k), ("node_id", n), ("name", m), ("depth", d),
               ("last_modified", l), ("data", p), ("updated_at", u)];
    GetIndex(fs, "file_key", 0);
  }

  lemma LayoutNodeId(k: Value, n: Value, m: Value, d: Value, l: Value, p: Value, u: Value)
    ensures Get([("file_key", k), ("node_id", n), ("name", m), ("depth", d),
                ("last_modified", l), ("data", p), ("updated_at", u)], "node_id") == Some(n)
  {
    var fs := [("file_key", k), ("node_id", n), ("name", m), ("depth", d),
               ("last_modified", l), ("data", p), ("updated_at", u)];
    assert fs[0].0 != "node_id";
    GetIndex(fs, "node_id", 1);
  }

  lemma LayoutName(k: Value, n: Value, m: Value, d: Value, l: Value, p: Value, u: Value)
    ensures Get([("file_key", k), ("node_id", n), ("name", m), ("depth", d),
                ("last_modified", l), ("data", p), ("updated_at", u)], "name") == Some(m)
  {
    var fs := [("file_key", k), ("node_id", n), ("name", m), ("depth", d),
               ("last_modified", l), ("data", p), ("updated_at", u)];
    assert fs[0].0 != "name";
    assert fs[1].0 != "name";
    GetIndex(fs, "name", 2);
  }

  lemma LayoutDepth(k: Value, n: Value, m: Value, d: Value, l: Value, p: Value, u: Value)
    ensures Get([("file_key", k), ("node_id", n), ("name", m), ("depth", d),
                ("last_modified", l), ("data", p), ("updated_at", u)], "depth") == Some(d)
  {
    var fs := [("file_key", k), ("node_id", n), ("name", m), ("depth", d),
               ("last_modified", l), ("data", p), ("updated_at", u)];
    assert fs[0].0 != "depth";
    assert fs[1].0 != "depth";
    assert fs[2].0 != "depth";
    GetIndex(fs, "depth", 3);
  }

  lemma LayoutLastModified(k: Value, n: Value, m: Value, d: Value, l: Value, p: Value, u: Value)
    ensures Get([("file_key", k), ("node_id", n), ("name", m), ("depth", d),
                ("last_modified", l), ("data", p), ("updated_at", u)], "last_modified") == Some(l)
  {
    var fs := [("file_key", k), ("node_id", n), ("name", m), ("depth", d),
               ("last_modified", l), ("data", p), ("updated_at", u)];
    assert fs[0].0 != "last_modified";
    assert fs[1].0 != "last_modified";
    assert fs[2].0 != "last_modified";
    assert fs[3].0 != "last_modified";
    GetIndex(fs, "last_modified", 4);
  }

  lemma LayoutData(k: Value, n: Value, m: Value, d: Value, l: Value, p: Value, u: Value)
    ensures Get([("file_key", k), ("node_id", n), ("name", m), ("depth", d),
                ("last_modified", l), ("data", p), ("updated_at", u)], "data") == Some(p)
  {
    var fs := [("file_key", k), ("node_id", n), ("name", m), ("depth", d),
               ("last_modified", l), ("data", p), ("updated_at", u)];
    assert fs[0].0 != "data";
    assert fs[1].0 != "data";
    assert fs[2].0 != "data";
    assert fs[3].0 != "data";
    assert fs[4].0 != "data";
    GetIndex(fs, "data", 5);
  }

  /**
   * A written file reads back as the record saved, whatever the file held
   * before: the original node id, name, depth and payload, and the
   * modification time through `isoformat` and `fromisoformat`.
   */
  lemma WriteThenRead(files: map<string, Entry>, path: string, codec: Codec,
                      fk: string, nid: Option<string>, name: Option<string>, depth: Option<int>,
                      lm: Option<DateTime>, payload: string, now: DateTime)
    requires RoundTrips(codec)
    requires lm.Some? ==> Valid(lm.value)
    requires Valid(now)
    ensures ReadRecord(files[path := Text(codec.dumps(Content(fk, nid, name, depth, lm, payload, now)))], path, codec)
         == Some(Expected(fk, nid, name, depth, lm, payload))
  {
    var c := Content(fk, nid, name, depth, lm, payload, now);
    var files' := files[path := Text(codec.dumps(c))];
    ContentPlain(fk, nid, name, depth, lm, payload, now);
    assert codec.loads(codec.dumps(c)) == Ok(c);
    assert ReadRecord(files', path, codec) == Some(Wrapped(c.fields));
    ContentReads(fk, nid, name, depth, lm, payload, now);
  }

  /** A written dict has seven distinct keys and no float, so the codec carries it over. */
  lemma ContentPlain(fk: string, nid: Option<string>, name: Option<string>, depth: Option<int>,
                     lm: Option<DateTime>, payload: string, now: DateTime)
    requires lm.Some? ==> Valid(lm.value)
    requires Valid(now)
    ensures Plain(Content(fk, nid, name, depth, lm, payload, now))
  {
    var l := if lm.Some? then Str(IsoFormat(lm.value)) else Null;
    LayoutPlain(Str(fk), OptStr(nid), OptStr(name), OptInt(depth), l, Str(payload), Str(IsoFormat(now)));
  }

  lemma LayoutPlain(k: Value, n: Value, m: Value, d: Value, l: Value, p: Value, u: Value)
    requires Plain(k) && Plain(n) && Plain(m) && Plain(d) && Plain(l) && Plain(p) && Plain(u)
    ensures Plain(Obj([("file_key", k), ("node_id", n), ("name", m), ("depth", d),
                       ("last_modified", l), ("data", p), ("updated_at", u)]))
  {
    var fs := [("file_key", k), ("node_id", n), ("name", m), ("depth", d),
               ("last_modified", l), ("data", p), ("updated_at", u)];
    assert DistinctKeys(fs);
  }

  /** The wrapper built from a written file is the record saved. */
  lemma ContentReads(fk: string, nid: Option<string>, name: Option<string>, depth: Option<int>,
                     lm: Option<DateTime>, payload: string, now: DateTime)
    requires lm.Some? ==> Valid(lm.value)
    requires Valid(now)
    ensures Wrapped(Content(fk, nid, name, depth, lm, payload, now).fields) == Expected(fk, nid, name, depth, lm, payload)
  {
    ContentMembers(fk, nid, name, depth, lm, payload, now);
    WrappedFrom(Content(fk, nid, name, depth, lm, payload, now).fields, fk, nid, name, depth, lm, payload);
  }

  lemma WrappedFrom(fs: Fields, fk: string, nid: Option<string>, name: Option<string>, depth: Option<int>,
                    lm: Option<DateTime>, payload: string)
    requires lm.Some? ==> Valid(lm.value)
    requires GetOr(fs, "file_key", Null) == Str(fk)
    requires GetOr(fs, "node_id", Null) == OptStr(nid)
    requires GetOr(fs, "name", Null) == OptStr(name)
    requires GetOr(fs, "depth", Null) == OptInt(depth)
    requires GetOr(fs, "last_modified", Null) == (if lm.Some? then Str(IsoFormat(lm.value)) else Null)
    requires GetOr(fs, "data", Null) == Str(payload)
    ensures Wrapped(fs) == Expected(fk, nid, name, depth, lm, payload)
  {
    if lm.Some? {
      IsoStamp(lm.value);
    }
  }

  /** A stored `isoformat` text is read back as the date-time it was written from. */
  lemma IsoStamp(t: DateTime)
    requires Valid(t)
    ensures ReadStamp(Str(IsoFormat(t))) == Parsed(t)
  {
    var s := IsoFormat(t);
    IsoRoundTrip(t);
    FormatLength(t, "");
    assert Truthy(Str(s));
  }

  // ---------------------------------------------------------------------
  // The repository
  // ---------------------------------------------------------------------

  class FileSystemRepository {
    const dataFolder: string
    var files: map<string, Entry>

    /** A repository over a data folder holding `existing`. */
    constructor(dataFolder: string, existing: map<string, Entry>)
      ensures this.dataFolder == dataFolder && files == existing
    {
      this.dataFolder := dataFolder;
      files := existing;
    }

    /** `get_data`: the record in the key's file, or `None` when it is missing or cannot be read. */
    function GetData(fk: string, nid: Option<string>, codec: Codec): (r: Option<FileRecord>)
      reads this
      ensures GetFilename(dataFolder, fk, nid) !in files ==> r.None?
    {
      ReadRecord(files, GetFilename(dataFolder, fk, nid), codec)
    }

    /** `save_data`: overwrite the key's file with the whole record. */
    method SaveData(fk: string, nid: Option<string>, data: Value, name: Option<string>, depth: Option<int>,
                    lm: Option<DateTime>, codec: Codec, now: DateTime)
      requires lm.Some? ==> Valid(lm.value)
      requires Valid(now)
      modifies this
      ensures files == old(files)[GetFilename(dataFolder, fk, nid) :=
        Text(codec.dumps(Content(fk, nid, name, depth, lm, EncodePayload(codec, data), now)))]
    {
      var path := GetFilename(dataFolder, fk, nid);
      var content := Content(fk, nid, name, depth, lm, EncodePayload(codec, data), now);
      files := files[path := Text(codec.dumps(content))];
    }
  }

  /**
   * Save then get under the same key gives back the saved record; any other
   * key sharing the file name gets that same record, and a key with a
   * different file name is unaffected.
   */
  lemma SaveThenRead(files: map<string, Entry>, folder: string, codec: Codec,
                     fk: string, nid: Option<string>, data: Value, name: Option<string>, depth: Option<int>,
                     lm: Option<DateTime>, now: DateTime, fk2: string, nid2: Option<string>)
    requires RoundTrips(codec)
    requires lm.Some? ==> Valid(lm.value)
    requires Valid(now)
    ensures var path := GetFilename(folder, fk, nid);
      var files' := files[path := Text(codec.dumps(Content(fk, nid, name, depth, lm, EncodePayload(codec, data), now)))];
      var path2 := GetFilename(folder, fk2, nid2);
      && ReadRecord(files', path2, codec)
         == if path2 == path then Some(Expected(fk, nid, name, depth, lm, EncodePayload(codec, data)))
            else ReadRecord(files, path2, codec)
  {
    var path, path2 := GetFilename(folder, fk, nid), GetFilename(folder, fk2, nid2);
    var payload := EncodePayload(codec, data);
    var entry := Text(codec.dumps(Content(fk, nid, name, depth, lm, payload, now)));
    if path2 == path {
      WriteThenRead(files, path, codec, fk, nid, name, depth, lm, payload, now);
    } else {
      OtherFile(files, path, entry, path2, codec);
    }
  }

  /** Writing one file leaves what every other file reads as. */
  lemma OtherFile(files: map<string, Entry>, path: string, entry: Entry, path2: string, codec: Codec)
    requires path2 != path
    ensures ReadRecord(files[path := entry], path2, codec) == ReadRecord(files, path2, codec)
  {
  }

  /** Saving `1:2` and then reading `1_2` hands out the record of `1:2`. */
  lemma CollisionReadBack(files: map<string, Entry>, folder: string, codec: Codec, fk: string, data: Value,
                          now: DateTime)
    requires RoundTrips(codec)
    requires Valid(now)
    ensures var files' := files[GetFilename(folder, fk, Some("1:2")) :=
              Text(codec.dumps(Content(fk, Some("1:2"), None, None, None, EncodePayload(codec, data), now)))];
      ReadRecord(files', GetFilename(folder, fk, Some("1_2")), codec).Some?
      && ReadRecord(files', GetFilename(folder, fk, Some("1_2")), codec).value.nodeId == Str("1:2")
  {
    Collisions(folder, fk);
    SaveThenRead(files, folder, codec, fk, Some("1:2"), data, None, None, None, now, fk, Some("1_2"));
  }
}
