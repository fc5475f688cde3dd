/** The registry of loaded databases: a cache over the databases on disk. */
module Registries {
  import opened Values
  import opened Schema
  import opened TableSpec
  import opened Indexing
  import opened StorageSpec
  import opened Disk
  import opened Opening

  // ------------------------------------------------------------------ databases on disk

  /** A database directory: its own meta.json and its table directories. */
  datatype DatabaseImage = DatabaseImage(name: string, tables: map<string, TableImage>)

  datatype DatabaseData = DatabaseData(name: string, tables: map<string, TableData>)

  /** Table directories are named like their tables, and columns have different names. */
  predicate SoundTables(tables: map<string, TableImage>)
  {
    forall d :: d in tables ==> tables[d].meta.name == d && DistinctNames(tables[d].meta.columns)
  }

  /** The database, unless one of its tables cannot be loaded or indexed. */
  function OpenDatabase(checks: TextChecks, img: DatabaseImage): (db: Option<DatabaseData>)
  {
    if exists d :: d in img.tables && OpenTable(checks, img.tables[d]).None? then None
    else Some(DatabaseData(
      img.name,
      map d | d in img.tables && OpenTable(checks, img.tables[d]).Some? :: OpenTable(checks, img.tables[d]).value))
  }

  function SavedTables(tables: map<string, TableData>): (saved: map<string, TableImage>)
  {
    map d | d in tables :: ImageOf(tables[d])
  }

  function SavedDatabase(db: DatabaseData): (img: DatabaseImage)
  {
    DatabaseImage(db.name, SavedTables(db.tables))
  }

  /** A database image up to what one load and save would normalise. */
  function Canonical(checks: TextChecks, img: DatabaseImage): (c: DatabaseImage)
  {
    var db := OpenDatabase(checks, img);
    if db.Some? then SavedDatabase(db.value) else img
  }

  lemma OpenTableStable(checks: TextChecks, img: TableImage)
    requires DistinctNames(img.meta.columns) && OpenTable(checks, img).Some?
    ensures var t := OpenTable(checks, img).value;
      && OpenTable(checks, ImageOf(t)) == Some(t)
      && ImageOf(t).meta.columns == img.meta.columns && ImageOf(t).meta.name == img.meta.name
  {
    hide LoadImage, Buildable, BuiltIndexes, MarshalRows;
    SecondSaveLoad(checks, img);
    LoadKeepsMeta(checks, img);
    var loaded := LoadImage(checks, img).value;
    assert ImageOf(OpenTable(checks, img).value) == ImageOf(loaded);
  }

  lemma LoadKeepsMeta(checks: TextChecks, img: TableImage)
    requires LoadImage(checks, img).Ok?
    ensures var t := LoadImage(checks, img).value; t.columns == img.meta.columns && t.name == img.meta.name
  {
  }

  /** Saving what was loaded and loading it again gives the same database. */
  lemma OpenStable(checks: TextChecks, img: DatabaseImage)
    requires SoundTables(img.tables) && OpenDatabase(checks, img).Some?
    ensures var db := OpenDatabase(checks, img).value;
      && OpenDatabase(checks, SavedDatabase(db)) == Some(db)
      && SoundTables(SavedDatabase(db).tables) && db.tables.Keys == img.tables.Keys && db.name == img.name
  {
    hide OpenTable, ImageOf, DistinctNames;
    var db := OpenDatabase(checks, img).value;
    forall d | d in db.tables
      ensures OpenTable(checks, ImageOf(db.tables[d])) == Some(db.tables[d])
      ensures ImageOf(db.tables[d]).meta.name == d && DistinctNames(ImageOf(db.tables[d]).meta.columns)
    {
      OpenTableStable(checks, img.tables[d]);
    }
    assert OpenDatabase(checks, SavedDatabase(db)).value.tables == db.tables;
  }

  lemma CanonicalIdempotent(checks: TextChecks, img: DatabaseImage)
    requires SoundTables(img.tables)
    ensures Canonical(checks, Canonical(checks, img)) == Canonical(checks, img)
  {
    hide OpenDatabase, SavedDatabase, SoundTables;
    if OpenDatabase(checks, img).Some? {
      OpenStable(checks, img);
    }
  }

  /** Renaming a database commutes with normalising it. */
  lemma CanonicalRename(checks: TextChecks, img: DatabaseImage, name: string)
    ensures Canonical(checks, img.(name := name)) == Canonical(checks, img).(name := name)
  {
    hide OpenTable, SavedTables;
  }

  // --------------------------------------------------------------------------- a plain map

  type Databases = map<string, DatabaseImage>

  /** A plain map of databases, and the names of those in use. */
  datatype Plain = Plain(dbs: Databases, inUse: set<string>)

  datatype RegistryOp =
    | GetOp(name: string)
    | ChangeOp(name: string, tables: map<string, TableData>)
    | CreateOp(name: string)
    | DropOp(name: string)
    | RenameOp(oldName: string, newName: string)
    | SaveAllOp

  datatype Response = Done | Got(db: DatabaseImage) | Failed(e: RegistryError)

  function ResponseOf(e: Option<RegistryError>): (r: Response)
  {
    if e.None? then Done else Failed(e.value)
  }

  function RenameError(dbs: Databases, oldName: string, newName: string): (e: Option<RegistryError>)
  {
    if oldName !in dbs then Some(NotFound) else if newName in dbs then Some(AlreadyExists) else None
  }

  /** The database moves to the new name, which its meta data takes over. */
  function Renamed(dbs: Databases, oldName: string, newName: string): (r: Databases)
    requires oldName in dbs
  {
    (dbs - {oldName})[newName := dbs[oldName].(name := newName)]
  }

  /** The new contents have the tables of the old ones. */
  predicate Fits(tables: map<string, TableData>, old_: set<string>)
  {
    tables.Keys == old_ && SoundTables(SavedTables(tables))
  }

  /** What each operation does to a plain map of databases, and what it answers.  Get succeeds
      for a database that is in use or can be opened; statements change databases in use. */
  function MapStep(checks: TextChecks, m: Plain, op: RegistryOp): (r: (Plain, Response))
  {
    match op
    case GetOp(n) =>
      if n !in m.dbs then (m, Failed(NotFound))
      else if n in m.inUse || OpenDatabase(checks, m.dbs[n]).Some? then (m.(inUse := m.inUse + {n}), Got(m.dbs[n]))
      else (m, Failed(CannotLoad))
    case ChangeOp(n, tables) =>
      if n !in m.inUse || n !in m.dbs || !Fits(tables, m.dbs[n].tables.Keys) then (m, Failed(NotInUse))
      else (m.(dbs := m.dbs[n := Canonical(checks, SavedDatabase(DatabaseData(n, tables)))]), Done)
    case CreateOp(n) =>
      if n in m.dbs then (m, Failed(AlreadyExists)) else (m.(dbs := m.dbs[n := DatabaseImage(n, map[])]), Done)
    case DropOp(n) => (Plain(m.dbs - {n}, m.inUse - {n}), if n in m.dbs then Done else Failed(NotFound))
    case RenameOp(o, n) =>
      var e := RenameError(m.dbs, o, n);
      (Plain(if e.None? then Renamed(m.dbs, o, n) else m.dbs, m.inUse - {o}), ResponseOf(e))
    case SaveAllOp => (m, Done)
  }

  function MapRun(checks: TextChecks, m: Plain, ops: seq<RegistryOp>): (r: (Plain, seq<Response>))
  {
    if ops == [] then (m, [])
    else
      var n := |ops| - 1;
      var before := MapRun(checks, m, ops[..n]);
      var last := MapStep(checks, before.0, ops[n]);
      (last.0, before.1 + [last.1])
  }

  /** A saved database opens again if and only if all its tables do. */
  lemma SavedOpensIff(checks: TextChecks, db: DatabaseData)
    requires forall d :: d in db.tables ==> DistinctNames(db.tables[d].columns)
    ensures OpenDatabase(checks, SavedDatabase(db)).Some? <==>
      forall d :: d in db.tables ==> Reopens(checks, db.tables[d])
  {
    hide OpenTable, Reopens, ImageOf, DistinctNames;
    forall d | d in db.tables
      ensures OpenTable(checks, SavedDatabase(db).tables[d]).Some? <==> Reopens(checks, db.tables[d])
    {
      ReopensIff(checks, db.tables[d]);
    }
  }

  /** A database in use answers Get, and after it is renamed Get fails if and only if some table
      of it does not reopen; the condition can be tested before the rename. */
  lemma RenameCloses(checks: TextChecks, m: Plain, o: string, n: string, db: DatabaseData)
    requires o in m.dbs && o in m.inUse && n !in m.dbs && n !in m.inUse
    requires m.dbs[o] == Canonical(checks, SavedDatabase(db))
    requires SoundTables(SavedTables(db.tables))
    ensures MapStep(checks, m, GetOp(o)) == (m.(inUse := m.inUse + {o}), Got(m.dbs[o]))
    ensures var (m', renamed) := MapStep(checks, m, RenameOp(o, n));
      && renamed == Done
      && (MapStep(checks, m', GetOp(n)).1 == Failed(CannotLoad) <==>
        exists d :: d in db.tables && !Reopens(checks, db.tables[d]))
  {
    RenamedOpens(checks, m.dbs[o], n);
    hide OpenDatabase, Reopens, Canonical, SavedTables, DistinctNames, ImageOf;
    SavedDatabaseIs(db);
    CanonicalOpens(checks, SavedDatabase(db));
    SavedNames(db.tables);
    SavedOpensIff(checks, db);
  }

  lemma SavedNames(tables: map<string, TableData>)
    requires SoundTables(SavedTables(tables))
    ensures forall d :: d in tables ==> DistinctNames(tables[d].columns)
  {
    hide DistinctNames;
    forall d | d in tables ensures DistinctNames(tables[d].columns) {
      assert d in SavedTables(tables) && SavedTables(tables)[d].meta.columns == tables[d].columns;
    }
  }

  lemma RenamedOpens(checks: TextChecks, img: DatabaseImage, n: string)
    ensures OpenDatabase(checks, img.(name := n)).Some? <==> OpenDatabase(checks, img).Some?
  {
    hide OpenTable;
  }

  /** The database of NumericTwins, in use, is one that closes. */
  lemma TwinsClose(checks: TextChecks)
    ensures var img := DatabaseImage("a", map["t" := ImageOf(AfterInsert(LoadedFive(), map["id" := Int(5)]))]);
      var m := Plain(map["a" := img], {"a"});
      && MapStep(checks, m, GetOp("a")).1 == Got(img)
      && MapStep(checks, MapStep(checks, m, RenameOp("a", "b")).0, GetOp("b")).1 == Failed(CannotLoad)
  {
    hide LoadedFive, ImageOf, AfterInsert, Buildable, LoadImage;
    NumericTwins(checks);
    var table := ImageOf(AfterInsert(LoadedFive(), map["id" := Int(5)]));
    TwinImage(checks);
    var img := DatabaseImage("a", map["t" := table]);
    assert "t" in img.tables && OpenTable(checks, img.tables["t"]).None?;
    RenamedOpens(checks, img, "b");
  }

  lemma TwinImage(checks: TextChecks)
    requires LoadImage(checks, ImageOf(AfterInsert(LoadedFive(), map["id" := Int(5)]))).Ok?
    ensures LoadImage(checks, ImageOf(AfterInsert(LoadedFive(), map["id" := Int(5)]))).value.columns ==
      AfterInsert(LoadedFive(), map["id" := Int(5)]).columns
  {
    hide LoadedFive, AfterInsert;
    LoadKeepsMeta(checks, ImageOf(AfterInsert(LoadedFive(), map["id" := Int(5)])));
  }

  // --------------------------------------------------------------------------- the files

  /** The database that the files of a directory make up, if they are all there. */
  function ReadDatabase(files: Files, dbDir: string): (img: Option<DatabaseImage>)
  {
    var meta := File(dbDir, MetaJson);
    if meta !in files || !files[meta].DatabaseMeta? then None
    else if exists d :: d in files[meta].tables && !Readable(files, d) then None
    else Some(DatabaseImage(
      files[meta].name,
      map d | d in files[meta].tables && Readable(files, d) :: ReadTable(files, d)))
  }

  predicate Readable(files: Files, dir: string)
  {
    && File(dir, MetaJson) in files && files[File(dir, MetaJson)].Meta?
    && File(dir, DataJson) in files && files[File(dir, DataJson)].Rows?
  }

  function ReadTable(files: Files, dir: string): (img: TableImage)
    requires Readable(files, dir)
  {
    TableImage(files[File(dir, MetaJson)].meta, files[File(dir, DataJson)].rows)
  }

  /** The steps of a database save leave files that read back as the saved database. */
  lemma SavedFilesRead(files: Files, entries: seq<Entry>, dbDir: string, db: DatabaseData)
    requires DistinctDirs(entries, dbDir) && Dirs(entries) == db.tables.Keys
    requires forall i :: 0 <= i < |entries| ==>
      entries[i].dir in db.tables && entries[i].new_ == db.tables[entries[i].dir]
    ensures var steps := DatabaseSteps(entries, dbDir, DatabaseMeta(db.name, db.tables.Keys));
      ReadDatabase(ApplyAll(files, steps), dbDir) == Some(SavedDatabase(db))
  {
    hide ApplyAll, DatabaseSteps, MetaOf, MarshalRows;
    var meta := DatabaseMeta(db.name, db.tables.Keys);
    CompletedDatabase(files, entries, dbDir, meta);
    var files' := ApplyAll(files, DatabaseSteps(entries, dbDir, meta));
    forall d | d in db.tables ensures Readable(files', d) && ReadTable(files', d) == ImageOf(db.tables[d]) {
      assert d in Dirs(entries);
      var i :| 0 <= i < |entries| && entries[i].dir == d;
      assert Written(files', entries[i].dir, entries[i].new_);
    }
    assert ReadDatabase(files', dbDir).value.tables == SavedTables(db.tables);
  }

  // ------------------------------------------------------------------------ the registry

  datatype RegistryError = NotFound | AlreadyExists | CannotLoad | NotInUse

  /** A loaded database, which its users change in place. */
  class Database {
    var name: string
    var tables: map<string, TableData>

    constructor (db: DatabaseData)
      ensures Data() == db
    {
      name, tables := db.name, db.tables;
    }

    function Data(): (db: DatabaseData)
      reads this
    {
      DatabaseData(name, tables)
    }
  }

  class Registry {
    const checks: TextChecks
    var loaded: map<string, Database>
    /** The databases under the base path. */
    var disk: map<string, DatabaseImage>

    /** Every cached database is on disk under its name, with the same tables. */
    ghost predicate Valid()
      reads this, loaded.Values
    {
      && (forall n :: n in disk ==> disk[n].name == n && SoundTables(disk[n].tables))
      && (forall n :: n in loaded ==>
          && n in disk && loaded[n].name == n
          && loaded[n].tables.Keys == disk[n].tables.Keys
          && SoundTables(SavedTables(loaded[n].tables)))
      && (forall m, n :: m in loaded && n in loaded && m != n ==> loaded[m] != loaded[n])
    }

    /** The database a caller of the registry sees: the cached one if there is one. */
    ghost function Current(n: string): (img: DatabaseImage)
      requires n in disk
      reads this, loaded.Values
    {
      if n in loaded then SavedDatabase(loaded[n].Data()) else disk[n]
    }

    /** The registry as a plain map. */
    ghost function Abstract(): (m: Databases)
      reads this, loaded.Values
    {
      map n | n in disk :: Canonical(checks, Current(n))
    }

    /** The registry as a plain map with the cached names in use. */
    ghost function View(): (m: Plain)
      reads this, loaded.Values
    {
      Plain(Abstract(), loaded.Keys)
    }

    constructor (checks: TextChecks, disk: map<string, DatabaseImage>)
      requires forall n :: n in disk ==> disk[n].name == n && SoundTables(disk[n].tables)
      ensures Valid() && loaded == map[] && this.disk == disk && this.checks == checks
    {
      this.checks, this.loaded, this.disk := checks, map[], disk;
    }

    /** The cached database, or the one on disk, which is then cached. */
    method Get(name: string) returns (r: Result<Database, RegistryError>)
      requires Valid()
      modifies this`loaded
      ensures Valid() && Abstract() == old(Abstract())
      ensures r.Ok? ==>
        && name in loaded && loaded[name] == r.value && name in Abstract()
        && Canonical(checks, SavedDatabase(r.value.Data())) == Abstract()[name]
      ensures r.Ok? && name !in old(loaded) ==> Some(r.value.Data()) == OpenDatabase(checks, disk[name])
      ensures r.Ok? && name !in old(loaded) ==> fresh(r.value)
      ensures name in old(loaded) ==> r == Ok(old(loaded)[name])
      ensures loaded == if r.Ok? then old(loaded)[name := r.value] else old(loaded)
      ensures r.Err? <==> name !in old(loaded) && (name !in disk || OpenDatabase(checks, disk[name]).None?)
      ensures r.Err? ==> r.error == if name in disk then CannotLoad else NotFound
    {
      hide OpenDatabase, SavedTables, SavedDatabase, SoundTables, Canonical;
      if name in loaded {
        return Ok(loaded[name]);
      }
      if name !in disk {
        return Err(NotFound);
      }
      var opened_ := OpenDatabase(checks, disk[name]);
      if opened_.None? {
        return Err(CannotLoad);
      }
      LoadedFacts(checks, disk[name]);
      var db := new Database(opened_.value);
      loaded := loaded[name := db];
      assert Abstract() == old(Abstract());
      return Ok(db);
    }

    /** Makes an empty database on disk. */
    method Create(name: string) returns (e: Option<RegistryError>)
      requires Valid()
      modifies this`disk
      ensures Valid() && Abstract() ==
        if e.None? then old(Abstract())[name := DatabaseImage(name, map[])] else old(Abstract())
      ensures e == if name in old(Abstract()) then Some(AlreadyExists) else None
    {
      hide SavedTables, SavedDatabase, SoundTables, Canonical;
      if name in loaded {
        return Some(AlreadyExists);
      }
      if name in disk {
        return Some(AlreadyExists);
      }
      EmptyFacts(checks, name);
      disk := disk[name := DatabaseImage(name, map[])];
      return None;
    }

    /** Forgets the cached database and removes the one on disk. */
    method Drop(name: string) returns (e: Option<RegistryError>)
      requires Valid()
      modifies this`disk, this`loaded
      ensures Valid() && Abstract() == old(Abstract()) - {name} && loaded == old(loaded) - {name}
      ensures e == if name in old(Abstract()) then None else Some(NotFound)
    {
      hide SavedTables, SavedDatabase, SoundTables, Canonical;
      loaded := loaded - {name};
      if name !in disk {
        return Some(NotFound);
      }
      disk := disk - {name};
      return None;
    }

    /** Writes the cached database over the one on disk; tables the cache does not know stay. */
    method SaveDatabase(name: string)
      requires Valid() && name in loaded
      modifies this`disk
      ensures Valid() && Abstract() == old(Abstract())
      ensures disk == old(disk)[name := SavedDatabase(loaded[name].Data())]
    {
      hide SoundTables, Canonical, SavedTables, SavedDatabase;
      ghost var before, img := Abstract(), Current(name);
      var saved := SavedTables(loaded[name].tables);
      SavedKeys(loaded[name].tables);
      MergeAll(disk[name].tables, saved);
      SavedDatabaseIs(loaded[name].Data());
      disk := disk[name := DatabaseImage(loaded[name].name, disk[name].tables + saved)];
      assert disk[name] == img == Current(name);
      assert Abstract() == before;
    }

    /** Saves and forgets the cached database, then renames the one on disk. */
    method Rename(oldName: string, newName: string) returns (e: Option<RegistryError>)
      requires Valid()
      modifies this`disk, this`loaded
      ensures Valid() && loaded == old(loaded) - {oldName}
      ensures e == RenameError(old(Abstract()), oldName, newName)
      ensures Abstract() == if e.None? then Renamed(old(Abstract()), oldName, newName) else old(Abstract())
    {
      hide Renamed, Canonical, OpenDatabase, SavedTables, SavedDatabase, SoundTables;
      if oldName in loaded {
        Unload(oldName);
      }
      e := RenameOnDisk(oldName, newName);
    }

    method Unload(name: string)
      requires Valid() && name in loaded
      modifies this`disk, this`loaded
      ensures Valid() && Abstract() == old(Abstract())
      ensures loaded == old(loaded) - {name} && disk.Keys == old(disk).Keys
    {
      hide SavedTables, SavedDatabase, SoundTables, Canonical;
      SaveDatabase(name);
      Forget(name);
    }

    /** Forgets a cached database that was just saved. */
    method Forget(name: string)
      requires Valid() && name in loaded && disk[name] == SavedDatabase(loaded[name].Data())
      modifies this`loaded
      ensures Valid() && Abstract() == old(Abstract())
      ensures loaded == old(loaded) - {name}
    {
      hide SavedTables, SavedDatabase, SoundTables, Canonical;
      ghost var before := Abstract();
      loaded := loaded - {name};
      assert Abstract() == before;
    }

    /** Moves the directory, unless it is missing or the new one exists. */
    method RenameOnDisk(oldName: string, newName: string) returns (e: Option<RegistryError>)
      requires Valid() && oldName !in loaded
      modifies this`disk
      ensures Valid() && e == RenameError(old(Abstract()), oldName, newName)
      ensures Abstract() == if e.None? then Renamed(old(Abstract()), oldName, newName) else old(Abstract())
    {
      hide SavedTables, SavedDatabase, SoundTables, Canonical;
      if oldName !in disk {
        return Some(NotFound);
      }
      if newName in disk {
        return Some(AlreadyExists);
      }
      ghost var before := Abstract();
      CanonicalRename(checks, disk[oldName], newName);
      disk := (disk - {oldName})[newName := disk[oldName].(name := newName)];
      assert Abstract() == Renamed(before, oldName, newName);
      return None;
    }

    /** Saves every cached database, in map order. */
    method SaveAll()
      requires Valid()
      modifies this`disk
      ensures Valid() && Abstract() == old(Abstract())
      ensures forall n :: n in loaded ==> disk[n] == SavedDatabase(loaded[n].Data())
    {
      hide SavedTables, SavedDatabase, SoundTables, Canonical;
      var todo := loaded.Keys;
      while todo != {}
        invariant Valid() && Abstract() == old(Abstract()) && todo <= loaded.Keys && loaded == old(loaded)
        invariant forall n :: n in loaded && n !in todo ==> disk[n] == SavedDatabase(loaded[n].Data())
      {
        var n :| n in todo;
        SaveDatabase(n);
        todo := todo - {n};
      }
    }

    /** What statements executed on a cached database amount to: its tables hold new data,
        which no file knows yet. */
    method ChangeLoaded(name: string, tables: map<string, TableData>)
      requires Valid() && name in loaded && Fits(tables, loaded[name].tables.Keys)
      modifies loaded[name]
      ensures Valid() && Abstract() ==
        old(Abstract())[name := Canonical(checks, SavedDatabase(DatabaseData(name, tables)))]
      ensures disk == old(disk) && loaded == old(loaded)
    {
      hide SavedTables, SavedDatabase, SoundTables, Canonical;
      loaded[name].tables := tables;
    }

    /** Statements need a database in use, and keep its list of tables. */
    method Change(name: string, tables: map<string, TableData>) returns (e: Option<RegistryError>)
      requires Valid()
      modifies loaded.Values
      ensures Valid() && e.None? == (name in loaded && Fits(tables, old(Abstract())[name].tables.Keys))
      ensures e.Some? ==> e == Some(NotInUse) && Abstract() == old(Abstract())
      ensures e.None? ==>
        Abstract() == old(Abstract())[name := Canonical(checks, SavedDatabase(DatabaseData(name, tables)))]
    {
      hide SavedTables, SavedDatabase, SoundTables, Canonical, Fits;
      if name !in loaded {
        return Some(NotInUse);
      }
      SavedKeys(loaded[name].tables);
      SavedDatabaseIs(loaded[name].Data());
      CanonicalKeys(checks, SavedDatabase(loaded[name].Data()));
      if !Fits(tables, loaded[name].tables.Keys) {
        return Some(NotInUse);
      }
      ChangeLoaded(name, tables);
      return None;
    }

    /** Any sequence of operations does to the registry what it does to a plain map of
        databases, and is answered as the map answers it. */
    method Perform(ops: seq<RegistryOp>) returns (responses: seq<Response>)
      requires Valid()
      modifies this`disk, this`loaded, loaded.Values
      ensures Valid() && (View(), responses) == MapRun(checks, old(View()), ops)
    {
      hide MapStep;
      responses := [];
      assert ops[..0] == [];
      for i := 0 to |ops|
        invariant Valid() && (View(), responses) == MapRun(checks, old(View()), ops[..i])
        invariant forall n :: n in loaded ==> loaded[n] in old(loaded.Values) || fresh(loaded[n])
      {
        assert ops[..i + 1][..i] == ops[..i];
        var response := PerformOne(ops[i]);
        responses := responses + [response];
      }
      assert ops[..|ops|] == ops;
    }

    method PerformOne(op: RegistryOp) returns (response: Response)
      requires Valid()
      modifies this`disk, this`loaded, loaded.Values
      ensures Valid() && (View(), response) == MapStep(checks, old(View()), op)
      ensures forall n :: n in loaded ==> (n in old(loaded) && loaded[n] == old(loaded)[n]) || fresh(loaded[n])
    {
      hide MapStep, Canonical, SavedDatabase, SavedTables, SoundTables, OpenDatabase, Renamed, RenameError, Fits;
      ghost var before, img := View(), if op.GetOp? && op.name in disk then Some(disk[op.name]) else None;
      match op
      case GetOp(n) =>
        var r := Get(n);
        response := if r.Ok? then Got(Canonical(checks, SavedDatabase(r.value.Data()))) else Failed(r.error);
        GetStep(checks, before, View(), n, img, response);
      case ChangeOp(n, tables) =>
        var e := Change(n, tables);
        response := ResponseOf(e);
        ChangeStep(checks, before, View(), n, tables, e);
      case CreateOp(n) =>
        var e := Create(n);
        response := ResponseOf(e);
        CreateStep(checks, before, View(), n, e);
      case DropOp(n) =>
        var e := Drop(n);
        response := ResponseOf(e);
        DropStep(checks, before, View(), n, e);
      case RenameOp(o, n) =>
        var e := Rename(o, n);
        response := ResponseOf(e);
        RenameStep(checks, before, View(), o, n, e);
      case SaveAllOp =>
        SaveAll();
        response := Done;
        SaveAllStep(checks, View());
    }
  }

  // --------------------------------------------------- each operation as a step of the map

  /** `img` is the database on disk, if there is one. */
  lemma GetStep(checks: TextChecks, m: Plain, m': Plain, n: string, img: Option<DatabaseImage>, r: Response)
    requires n in m.dbs <==> img.Some?
    requires n in m.inUse ==> n in m.dbs
    requires img.Some? ==> SoundTables(img.value.tables) && (n !in m.inUse ==> m.dbs[n] == Canonical(checks, img.value))
    requires r.Failed? <==> n !in m.inUse && (n !in m.dbs || OpenDatabase(checks, img.value).None?)
    requires r.Failed? ==> m' == m && r.e == if n in m.dbs then CannotLoad else NotFound
    requires !r.Failed? ==> m'.dbs == m.dbs && m'.inUse == m.inUse + {n} && n in m.dbs && r == Got(m.dbs[n])
    ensures (m', r) == MapStep(checks, m, GetOp(n))
  {
    hide OpenDatabase, SoundTables, Canonical;
    if img.Some? {
      CanonicalOpens(checks, img.value);
    }
  }

  lemma ChangeStep(checks: TextChecks, m: Plain, m': Plain, n: string, tables: map<string, TableData>,
                   e: Option<RegistryError>)
    requires m'.inUse == m.inUse && (n in m.inUse ==> n in m.dbs)
    requires e.None? <==> n in m.inUse && Fits(tables, m.dbs[n].tables.Keys)
    requires e.Some? ==> e == Some(NotInUse) && m'.dbs == m.dbs
    requires e.None? ==> m'.dbs == m.dbs[n := Canonical(checks, SavedDatabase(DatabaseData(n, tables)))]
    ensures (m', ResponseOf(e)) == MapStep(checks, m, ChangeOp(n, tables))
  {
    hide Canonical, SavedDatabase, Fits;
  }

  lemma CreateStep(checks: TextChecks, m: Plain, m': Plain, n: string, e: Option<RegistryError>)
    requires m'.inUse == m.inUse
    requires m'.dbs == if e.None? then m.dbs[n := DatabaseImage(n, map[])] else m.dbs
    requires e == if n in m.dbs then Some(AlreadyExists) else None
    ensures (m', ResponseOf(e)) == MapStep(checks, m, CreateOp(n))
  {
  }

  lemma DropStep(checks: TextChecks, m: Plain, m': Plain, n: string, e: Option<RegistryError>)
    requires m'.dbs == m.dbs - {n} && m'.inUse == m.inUse - {n}
    requires e == if n in m.dbs then None else Some(NotFound)
    ensures (m', ResponseOf(e)) == MapStep(checks, m, DropOp(n))
  {
  }

  lemma RenameStep(checks: TextChecks, m: Plain, m': Plain, o: string, n: string, e: Option<RegistryError>)
    requires e == RenameError(m.dbs, o, n) && m'.inUse == m.inUse - {o}
    requires m'.dbs == if e.None? then Renamed(m.dbs, o, n) else m.dbs
    ensures (m', ResponseOf(e)) == MapStep(checks, m, RenameOp(o, n))
  {
  }

  lemma SaveAllStep(checks: TextChecks, m: Plain)
    ensures MapStep(checks, m, SaveAllOp) == (m, Done)
  {
  }

  lemma SavedDatabaseIs(db: DatabaseData)
    ensures SavedDatabase(db) == DatabaseImage(db.name, SavedTables(db.tables))
  {
  }

  /** Normalising changes neither whether a database opens nor its list of tables. */
  lemma CanonicalOpens(checks: TextChecks, img: DatabaseImage)
    requires SoundTables(img.tables)
    ensures OpenDatabase(checks, Canonical(checks, img)).Some? <==> OpenDatabase(checks, img).Some?
  {
    hide OpenDatabase, SavedDatabase, SoundTables;
    if OpenDatabase(checks, img).Some? {
      OpenStable(checks, img);
    }
  }

  lemma CanonicalKeys(checks: TextChecks, img: DatabaseImage)
    requires SoundTables(img.tables)
    ensures Canonical(checks, img).tables.Keys == img.tables.Keys
  {
    hide OpenDatabase, SavedTables, SoundTables;
    if OpenDatabase(checks, img).Some? {
      OpenStable(checks, img);
      SavedKeys(OpenDatabase(checks, img).value.tables);
    }
  }

  /** What caching a database that loads preserves. */
  lemma LoadedFacts(checks: TextChecks, img: DatabaseImage)
    requires SoundTables(img.tables) && OpenDatabase(checks, img).Some?
    ensures var db := OpenDatabase(checks, img).value;
      && db.name == img.name && db.tables.Keys == img.tables.Keys && SoundTables(SavedTables(db.tables))
      && Canonical(checks, SavedDatabase(db)) == Canonical(checks, img)
  {
    hide OpenDatabase, SoundTables, SavedTables;
    OpenStable(checks, img);
  }

  lemma EmptyFacts(checks: TextChecks, name: string)
    ensures SoundTables(map[])
    ensures Canonical(checks, DatabaseImage(name, map[])) == DatabaseImage(name, map[])
  {
    assert OpenDatabase(checks, DatabaseImage(name, map[])).Some?;
    assert SavedTables(map[]) == map[];
  }

  lemma SavedKeys(tables: map<string, TableData>)
    ensures SavedTables(tables).Keys == tables.Keys
  {
  }

  lemma MergeAll(a: map<string, TableImage>, b: map<string, TableImage>)
    requires a.Keys == b.Keys
    ensures a + b == b
  {
  }
}
