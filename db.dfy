/** The tracked-directory store of `dir_snapshot/db.py`: a `SnapshotDB`
    object loaded from a JSON database file when it is built, and written
    back to it by `save_data`. The file's bytes and the JSON codec are not
    modelled: loading starts from what `json.load` produced, and saving ends
    with the value `json.dump` is handed. */
module Db {
  import opened PyStr

  /** One tracked directory: its id, its path and the names of its snapshot files. */
  datatype SnapshotDirData = SnapshotDirData(id: int, path: string, snapFiles: seq<string>)

  /** A value the store can hold: what `json.load` builds (JSON numbers are
      taken to be integers) or a `SnapshotDirData` record. */
  datatype Value =
    | Null
    | Bool(b: bool)
    | Int(i: int)
    | Str(s: string)
    | List(items: seq<Value>)
    | Dict(entries: map<string, Value>)
    | DirRecord(record: SnapshotDirData)

  /** The store's content. The field is declared to hold a list of
      `SnapshotDirData`, but loading puts whatever the document's `"dirs"`
      held into it, so it is any value. */
  datatype SnapshotListData = SnapshotListData(dirs: Value)

  /** The empty store. */
  const EmptyList := SnapshotListData(dirs := List([]))

  /** A value made only of what `json.load` can build: no record anywhere. */
  predicate IsJson(v: Value) {
    match v
    case DirRecord(_) => false
    case List(xs) => forall k :: 0 <= k < |xs| ==> IsJson(xs[k])
    case Dict(m) => forall key :: key in m ==> IsJson(m[key])
    case _ => true
  }

  /** `asdict` as applied to `SnapshotDirData`: a dict of its three fields. */
  function RecordAsDict(r: SnapshotDirData): Value {
    Dict(map[
      "id" := Int(r.id),
      "path" := Str(r.path),
      "snap_files" := List(seq(|r.snapFiles|, k requires 0 <= k < |r.snapFiles| => Str(r.snapFiles[k])))])
  }

  /** `asdict`'s recursive conversion: records become dicts of their fields,
      lists and dicts are rebuilt around their converted members, anything
      else is copied. */
  function AsDict(v: Value): (r: Value)
    ensures v.DirRecord? ==> r.Dict? && r.entries.Keys == {"id", "path", "snap_files"}
    ensures v.List? ==> r.List? && |r.items| == |v.items|
    ensures v.Dict? ==> r.Dict? && r.entries.Keys == v.entries.Keys
    ensures !(v.DirRecord? || v.List? || v.Dict?) ==> r == v
  {
    match v
    case DirRecord(r) => RecordAsDict(r)
    case List(xs) => List(seq(|xs|, k requires 0 <= k < |xs| => AsDict(xs[k])))
    case Dict(m) => Dict(map key | key in m :: AsDict(m[key]))
    case _ => v
  }

  /** The document `save_data` hands to `json.dump`: `asdict` of the store. */
  function SaveDocument(data: SnapshotListData): (r: Value)
    ensures r.Dict? && r.entries.Keys == {"dirs"}
    ensures IsJson(r)
  {
    AsDictIsJson(data.dirs);
    Dict(map["dirs" := AsDict(data.dirs)])
  }

  /** What reading and decoding the database file produced:
      `json.JSONDecodeError` (an empty file among the causes), a decoded
      value, or another error (the file cannot be opened or decoded as text). */
  datatype ParseOutcome = Malformed | Decoded(doc: Value) | ReadFails

  /** What `_load_data` ends with: the store's content, or an exception that
      it lets through (and that makes `SnapshotDB()` fail). */
  datatype LoadResult = Loaded(data: SnapshotListData) | Raises

  /** How `open("w")` and `json.dump` end: normally or with an `OSError`. */
  datatype SaveOutcome = SaveCompletes | SaveRaisesOSError

  class SnapshotDB {
    /** `_db_file`, in POSIX form. */
    const dbFile: string
    /** `_snapshot_data` */
    var snapshotData: SnapshotListData

    constructor (dbFile: string, data: SnapshotListData)
      ensures this.dbFile == dbFile && snapshotData == data
    {
      this.dbFile := dbFile;
      snapshotData := data;
    }

    /** `_load_data`: a decode error gives the empty store; a decoded dict
        whose only key is `"dirs"` gives a store holding that entry's value
        as it is (`SnapshotListData(**doc)`); every other outcome raises,
        since `SnapshotListData` accepts exactly one keyword, `dirs`. */
    static function LoadData(parsed: ParseOutcome): (r: LoadResult)
      ensures parsed.ReadFails? ==> r.Raises?
      ensures r.Loaded? && parsed.Malformed? ==> r.data.dirs == List([])
      ensures r.Loaded? && parsed.Decoded? ==> parsed.doc == Dict(map["dirs" := r.data.dirs])
    {
      match parsed
      case Malformed => Loaded(EmptyList)
      case ReadFails => Raises
      case Decoded(doc) =>
        if doc.Dict? && doc.entries.Keys == {"dirs"} then Loaded(SnapshotListData(dirs := doc.entries["dirs"]))
        else Raises
    }

    /** `SnapshotDB()`: the store is built from the database file `dbFile`
        whose reading and decoding ended in `parsed`; `null` stands for the
        exception that escapes when loading raises. */
    static method Open(dbFile: string, parsed: ParseOutcome) returns (db: SnapshotDB?)
      ensures db == null <==> LoadData(parsed).Raises?
      ensures db != null ==> fresh(db) && db.dbFile == dbFile && db.snapshotData == LoadData(parsed).data
    {
      var loaded := LoadData(parsed);
      if loaded.Raises? {
        return null;
      }
      db := new SnapshotDB(dbFile, loaded.data);
    }

    /** The `snapshot_data` property. */
    function SnapshotData(): (r: SnapshotListData)
      reads this
      ensures r == snapshotData
    {
      snapshotData
    }

    /** The `snapshot_dirs` property: always the `dirs` of `snapshot_data`. */
    function SnapshotDirs(): (r: Value)
      reads this
      ensures r == SnapshotData().dirs
    {
      snapshotData.dirs
    }

    /** The `db_file` property. */
    function DbFile(): (r: string)
      ensures r == dbFile
    {
      dbFile
    }

    /** `save_data`: writes `asdict` of the store to the database file and
        returns `False` exactly when an `OSError` was raised. `written` is
        the complete document the file then holds, or `None` when the write
        failed part-way. The store itself is not changed. */
    method SaveData(outcome: SaveOutcome) returns (ok: bool, written: Option<Value>)
      ensures ok <==> outcome.SaveCompletes?
      ensures written == if ok then Some(SaveDocument(snapshotData)) else None
    {
      if outcome.SaveRaisesOSError? {
        return false, None;
      }
      written := Some(SaveDocument(snapshotData));
      ok := true;
    }
  }

  /** Loading succeeds exactly on a decode error (giving the empty store) and
      on a dict whose one key is `"dirs"` (giving that entry's value,
      unchanged: the entries are not rebuilt into records). */
  lemma LoadCases(parsed: ParseOutcome)
    ensures SnapshotDB.LoadData(parsed).Loaded?
        <==> parsed.Malformed? || (parsed.Decoded? && parsed.doc.Dict? && parsed.doc.entries.Keys == {"dirs"})
    ensures parsed.Malformed? ==> SnapshotDB.LoadData(parsed) == Loaded(SnapshotListData(dirs := List([])))
    ensures parsed.Decoded? && SnapshotDB.LoadData(parsed).Loaded? ==>
              SnapshotDB.LoadData(parsed).data.dirs == parsed.doc.entries["dirs"]
  {
  }

  /** A document with other keys besides `"dirs"`, or without it, or that is
      not a dict, does not load as an empty store: it raises. */
  lemma UnexpectedDocumentRaises(doc: Value)
    requires !doc.Dict? || doc.entries.Keys != {"dirs"}
    ensures SnapshotDB.LoadData(Decoded(doc)) == Raises
  {
  }

  /** `asdict` leaves no record behind. */
  lemma {:induction false} AsDictIsJson(v: Value)
    ensures IsJson(AsDict(v))
  {
    match v
    case DirRecord(r) =>
      var d := RecordAsDict(r);
      assert forall key :: key in d.entries ==> IsJson(d.entries[key]);
    case List(xs) =>
      forall k | 0 <= k < |xs| ensures IsJson(AsDict(xs[k])) {
        AsDictIsJson(xs[k]);
      }
    case Dict(m) =>
      forall key | key in m ensures IsJson(AsDict(m[key])) {
        AsDictIsJson(m[key]);
      }
    case _ =>
  }

  /** `asdict` copies a value that holds no record unchanged. */
  lemma {:induction false} AsDictKeepsJson(v: Value)
    requires IsJson(v)
    ensures AsDict(v) == v
  {
    match v
    case List(xs) =>
      forall k | 0 <= k < |xs| ensures AsDict(xs[k]) == xs[k] {
        AsDictKeepsJson(xs[k]);
      }
      assert AsDict(v).items == xs;
    case Dict(m) =>
      forall key | key in m ensures AsDict(m[key]) == m[key] {
        AsDictKeepsJson(m[key]);
      }
      assert AsDict(v).entries == m;
    case _ =>
  }

  /** A store whose content came from a JSON document is saved and loaded
      back unchanged. */
  lemma SaveLoadRoundTrip(data: SnapshotListData)
    requires IsJson(data.dirs)
    ensures SnapshotDB.LoadData(Decoded(SaveDocument(data))) == Loaded(data)
  {
    AsDictKeepsJson(data.dirs);
  }

  /** Any store, saved, loaded back and saved again, writes the same
      document both times (records come back as dicts, which save as the same
      dicts). */
  lemma SaveLoadSaveStable(data: SnapshotListData)
    ensures SnapshotDB.LoadData(Decoded(SaveDocument(data))).Loaded?
    ensures SaveDocument(SnapshotDB.LoadData(Decoded(SaveDocument(data))).data) == SaveDocument(data)
  {
    AsDictIsJson(data.dirs);
    AsDictKeepsJson(AsDict(data.dirs));
  }

  /** The shape of the saved document for a store of records:
      `{"dirs": [{"id": ..., "path": ..., "snap_files": [...]}, ...]}`. */
  lemma SaveRecords(records: seq<SnapshotDirData>)
    ensures SaveDocument(SnapshotListData(dirs := List(seq(|records|, k requires 0 <= k < |records| => DirRecord(records[k])))))
         == Dict(map["dirs" := List(seq(|records|, k requires 0 <= k < |records| => RecordAsDict(records[k])))])
  {
    var xs := seq(|records|, k requires 0 <= k < |records| => DirRecord(records[k]));
    assert AsDict(List(xs)).items == seq(|records|, k requires 0 <= k < |records| => RecordAsDict(records[k]));
  }

  /** The repository's test of an empty database file: decoding fails, and
      the store and its directory list are empty. */
  method EmptyDbScenario() returns (data: SnapshotListData, dirs: Value)
    ensures data == SnapshotListData(dirs := List([]))
    ensures dirs == List([])
  {
    var db := SnapshotDB.Open("tests/data/empty.json", Malformed);
    data := db.SnapshotData();
    dirs := db.SnapshotDirs();
  }

  /** The repository's test of a database file holding `{"dirs": []}`. */
  method EmptyDirsScenario() returns (data: SnapshotListData, dirs: Value)
    ensures data == SnapshotListData(dirs := List([]))
    ensures dirs == List([])
  {
    var db := SnapshotDB.Open("tests/data/empty_dirs.json", Decoded(Dict(map["dirs" := List([])])));
    data := db.SnapshotData();
    dirs := db.SnapshotDirs();
  }
}
