/** What a caller of the registry can rely on, in terms of its answers. */
module RegistryLaws {
  import opened Values
  import opened Schema
  import opened TableSpec
  import opened StorageSpec
  import opened Registries

  /** Names of databases in use are names of databases, and a database carries its name. */
  ghost predicate Sound(m: Plain)
  {
    m.inUse <= m.dbs.Keys && forall n :: n in m.dbs ==> m.dbs[n].name == n
  }

  function After(checks: TextChecks, m: Plain, op: RegistryOp): (m': Plain)
  {
    MapStep(checks, m, op).0
  }

  function Answer(checks: TextChecks, m: Plain, op: RegistryOp): (r: Response)
  {
    MapStep(checks, m, op).1
  }

  predicate Concerns(op: RegistryOp, n: string)
  {
    match op
    case GetOp(x) => x == n
    case ChangeOp(x, _) => x == n
    case CreateOp(x) => x == n
    case DropOp(x) => x == n
    case RenameOp(x, y) => x == n || y == n
    case SaveAllOp => false
  }

  lemma SoundStep(checks: TextChecks, m: Plain, op: RegistryOp)
    requires Sound(m)
    ensures Sound(After(checks, m, op))
  {
    hide OpenDatabase, Canonical, Fits;
    if op.ChangeOp? {
      CanonicalName(checks, SavedDatabase(DatabaseData(op.name, op.tables)));
    }
  }

  lemma CanonicalName(checks: TextChecks, img: DatabaseImage)
    ensures Canonical(checks, img).name == img.name
  {
  }

  // --------------------------------------------------------------------- what is left alone

  /** The database of that name is as it was: absent, or the same and in use or not as before. */
  ghost predicate SameAt(m: Plain, m': Plain, n: string)
  {
    && (n in m'.dbs <==> n in m.dbs) && (n in m.dbs ==> m'.dbs[n] == m.dbs[n])
    && (n in m'.inUse <==> n in m.inUse)
  }

  lemma OthersAlone(checks: TextChecks, m: Plain, op: RegistryOp, n: string)
    requires !Concerns(op, n)
    ensures SameAt(m, After(checks, m, op), n)
  {
    hide OpenDatabase, Canonical, Fits;
  }

  /** A database that no operation of a run names is as it was. */
  lemma {:induction false} RunAlone(checks: TextChecks, m: Plain, ops: seq<RegistryOp>, n: string)
    requires forall i :: 0 <= i < |ops| ==> !Concerns(ops[i], n)
    ensures SameAt(m, MapRun(checks, m, ops).0, n)
  {
    hide MapStep, Concerns;
    if ops != [] {
      var k := |ops| - 1;
      RunAlone(checks, m, ops[..k], n);
      OthersAlone(checks, MapRun(checks, m, ops[..k]).0, ops[k], n);
    }
  }

  /** An operation that fails changes no database. */
  lemma FailureKeeps(checks: TextChecks, m: Plain, op: RegistryOp)
    requires Answer(checks, m, op).Failed?
    ensures After(checks, m, op).dbs == m.dbs
  {
    hide OpenDatabase, Canonical, Fits;
  }

  // ------------------------------------------------------------------------ operations

  /** Create makes an empty database of a new name, which Get then finds and Drop takes away. */
  lemma CreateLaws(checks: TextChecks, m: Plain, n: string)
    requires Sound(m)
    ensures Answer(checks, m, CreateOp(n)) == if n in m.dbs then Failed(AlreadyExists) else Done
    ensures n !in m.dbs ==> var m1 := After(checks, m, CreateOp(n));
      && Answer(checks, m1, GetOp(n)) == Got(DatabaseImage(n, map[]))
      && Answer(checks, m1, CreateOp(n)) == Failed(AlreadyExists)
      && Answer(checks, m1, DropOp(n)) == Done && After(checks, m1, DropOp(n)) == m
  {
    hide Canonical, Fits;
    assert OpenDatabase(checks, DatabaseImage(n, map[])).Some?;
  }

  /** After Drop the name is free. */
  lemma DropLaws(checks: TextChecks, m: Plain, n: string)
    requires Sound(m)
    ensures Answer(checks, m, DropOp(n)) == if n in m.dbs then Done else Failed(NotFound)
    ensures var m1 := After(checks, m, DropOp(n));
      && Answer(checks, m1, GetOp(n)) == Answer(checks, m1, DropOp(n)) == Failed(NotFound)
      && Answer(checks, m1, CreateOp(n)) == Done
  {
    hide OpenDatabase, Canonical, Fits;
  }

  /** Rename needs an old name that exists and a new one that does not. It moves the database as it
      is, no longer in use, and renaming back undoes it. */
  lemma RenameLaws(checks: TextChecks, m: Plain, o: string, n: string)
    requires Sound(m)
    ensures Answer(checks, m, RenameOp(o, n)) ==
      if o !in m.dbs then Failed(NotFound) else if n in m.dbs then Failed(AlreadyExists) else Done
    ensures o in m.dbs && n !in m.dbs ==> var m1 := After(checks, m, RenameOp(o, n));
      && n in m1.dbs && m1.dbs[n] == m.dbs[o].(name := n) && n !in m1.inUse
      && Answer(checks, m1, GetOp(o)) == Failed(NotFound)
      && After(checks, m1, RenameOp(n, o)).dbs == m.dbs
  {
    hide OpenDatabase, Canonical, Fits;
    if o in m.dbs && n !in m.dbs {
      var m1 := After(checks, m, RenameOp(o, n));
      assert m.dbs[o].name == o;
      assert After(checks, m1, RenameOp(n, o)).dbs == m.dbs;
    }
  }

  /** Get finds a database that is in use or can be opened, which is in use from then on, and changes
      no database; so a second Get answers the same. */
  lemma GetLaws(checks: TextChecks, m: Plain, n: string)
    requires Sound(m)
    ensures Answer(checks, m, GetOp(n)) ==
      if n !in m.dbs then Failed(NotFound)
      else if n in m.inUse || OpenDatabase(checks, m.dbs[n]).Some? then Got(m.dbs[n]) else Failed(CannotLoad)
    ensures var m1 := After(checks, m, GetOp(n));
      && m1.dbs == m.dbs && Answer(checks, m1, GetOp(n)) == Answer(checks, m, GetOp(n))
      && m1.inUse == if Answer(checks, m, GetOp(n)).Got? then m.inUse + {n} else m.inUse
  {
    hide OpenDatabase, Canonical, Fits;
  }

  /** The tables have these names, which they carry, and columns of different names. */
  ghost predicate SameTables(tables: map<string, TableData>, names: set<string>)
  {
    tables.Keys == names && forall n :: n in tables ==> tables[n].name == n && DistinctNames(tables[n].columns)
  }

  lemma FitsExact(tables: map<string, TableData>, names: set<string>)
    ensures Fits(tables, names) <==> SameTables(tables, names)
    ensures Fits(tables, names) ==> tables.Keys == names && SoundTables(SavedTables(tables))
  {
    hide DistinctNames;
    var saved := SavedTables(tables);
    assert forall n :: n in tables ==>
      saved[n].meta.name == tables[n].name && saved[n].meta.columns == tables[n].columns;
  }

  /** Statements need a database in use and keep its list of tables; Get then finds what they left,
      as a load and a save normalise it, and a second change overwrites the first. */
  lemma ChangeLaws(checks: TextChecks, m: Plain, n: string, tables: map<string, TableData>,
                   later: map<string, TableData>)
    requires Sound(m)
    ensures Answer(checks, m, ChangeOp(n, tables)) ==
      if n in m.inUse && SameTables(tables, m.dbs[n].tables.Keys) then Done else Failed(NotInUse)
    ensures Answer(checks, m, ChangeOp(n, tables)).Done? ==> var m1 := After(checks, m, ChangeOp(n, tables));
      && Answer(checks, m1, GetOp(n)) == Got(Canonical(checks, SavedDatabase(DatabaseData(n, tables))))
      && (SameTables(later, tables.Keys) ==>
            After(checks, m1, ChangeOp(n, later)) == After(checks, m, ChangeOp(n, later)))
  {
    hide OpenDatabase, Canonical, SavedTables, Fits, SameTables;
    if n in m.inUse {
      FitsExact(tables, m.dbs[n].tables.Keys);
      FitsExact(later, m.dbs[n].tables.Keys);
      FitsExact(later, tables.Keys);
    }
    if Answer(checks, m, ChangeOp(n, tables)).Done? {
      SavedKeys(tables);
      CanonicalKeys(checks, SavedDatabase(DatabaseData(n, tables)));
    }
  }

  /** Saving changes nothing that the registry answers. */
  lemma SaveAllLaws(checks: TextChecks, m: Plain, op: RegistryOp)
    ensures Answer(checks, m, SaveAllOp) == Done
    ensures Answer(checks, After(checks, m, SaveAllOp), op) == Answer(checks, m, op)
    ensures After(checks, After(checks, m, SaveAllOp), op) == After(checks, m, op)
  {
    hide OpenDatabase, Canonical, Fits, Renamed;
  }
}
