/** Loading the migrations of a directory (migrator.go): which files count, what stops
    the load, and in which order the migrations are run. */
module Loading {
  import opened Database
  import Filenames
  import opened Migrator
  import opened Options
  import opened Order
  import Protocol

  /** `sql` is the file's text, None when it cannot be read. */
  datatype Entry = Entry(name: string, isDir: bool, sql: Option<string>)

  /** A file whose name ends in .sql; everything else is passed over. */
  predicate Counts(e: Entry) {
    !e.isDir && Filenames.EndsInSql(e.name)
  }

  function MigrationOf(e: Entry): Migration
    requires Filenames.Parse(e.name).Some? && e.sql.Some?
  {
    var (version, title) := Filenames.Parse(e.name).value;
    Migration(version, title, e.sql.value)
  }

  predicate Readable(entries: seq<Entry>) {
    forall e | e in entries :: Counts(e) ==> Filenames.Parse(e.name).Some? && e.sql.Some?
  }

  /** The migrations of the files that count, in directory order. */
  function All(entries: seq<Entry>): seq<Migration>
    requires Readable(entries)
  {
    if entries == [] then []
    else
      var e := entries[|entries| - 1];
      All(entries[..|entries| - 1]) + if Counts(e) then [MigrationOf(e)] else []
  }

  // ----- The files and their migrations, said by the names -----

  /** A file whose name ends in .sql. */
  ghost predicate SqlFile(e: Entry) {
    !e.isDir && exists base :: e.name == base + ".sql"
  }

  /** The file holds a migration: its name is one, and it can be read. */
  ghost predicate IsMigration(e: Entry) {
    e.sql.Some? && exists v, t :: Filenames.Version(v) && Filenames.FileTitle(t) && e.name == Filenames.Print(v, t)
  }

  lemma CountsExactly(e: Entry)
    ensures Counts(e) <==> SqlFile(e)
  {
    if Counts(e) { assert e.name == e.name[..|e.name| - 4] + ".sql"; }
  }

  lemma ReadableExactly(entries: seq<Entry>)
    ensures Readable(entries) <==> forall e | e in entries && SqlFile(e) :: IsMigration(e)
  {
    hide Counts, SqlFile, Filenames.Parse, Filenames.Version, Filenames.FileTitle, Filenames.Print;
    forall e | e in entries
      ensures Counts(e) <==> SqlFile(e)
      ensures Filenames.Parse(e.name).Some? && e.sql.Some? <==> IsMigration(e)
    {
      CountsExactly(e);
      ParsedExactly(e);
    }
  }

  lemma ParsedExactly(e: Entry)
    ensures Filenames.Parse(e.name).Some? && e.sql.Some? <==> IsMigration(e)
  {
    hide Filenames.Parse, Filenames.Version, Filenames.FileTitle, Filenames.Print;
    if Filenames.Parse(e.name).Some? {
      var (v, t) := Filenames.Parse(e.name).value;
      Filenames.ParseExactly(e.name, v, t);
    }
    if IsMigration(e) {
      var v, t :| Filenames.Version(v) && Filenames.FileTitle(t) && e.name == Filenames.Print(v, t);
      Filenames.ParseExactly(e.name, v, t);
    }
  }

  lemma PrintEndsInSql(v: string, t: string)
    ensures Filenames.EndsInSql(Filenames.Print(v, t))
  {
    hide Filenames.StampedVersion;
    var f := Filenames.Print(v, t);
    assert f[|f| - 4..] == ".sql";
  }

  /** A migration comes from one file: the one with its version and title in the name and
      its statements inside. */
  lemma FileOf(e: Entry, m: Migration)
    ensures Counts(e) && Filenames.Parse(e.name).Some? && e.sql.Some? && MigrationOf(e) == m <==>
            && Filenames.Version(m.version) && Filenames.FileTitle(m.name)
            && e == Entry(Filenames.Print(m.version, m.name), false, Some(m.sql))
  {
    hide Filenames.Parse, Filenames.EndsInSql, Filenames.Version, Filenames.FileTitle, Filenames.Print;
    Filenames.ParseExactly(e.name, m.version, m.name);
    PrintEndsInSql(m.version, m.name);
    if Filenames.Parse(e.name).Some? && e.sql.Some? {
      var found := Filenames.Parse(e.name).value;
      assert MigrationOf(e) == m <==> found == (m.version, m.name) && e.sql == Some(m.sql);
    }
  }

  lemma {:induction false} AllExactly(entries: seq<Entry>, m: Migration)
    requires Readable(entries)
    ensures multiset(All(entries))[m]
         == if Filenames.Version(m.version) && Filenames.FileTitle(m.name)
            then multiset(entries)[Entry(Filenames.Print(m.version, m.name), false, Some(m.sql))] else 0
  {
    hide Counts, MigrationOf, Filenames.Parse, Filenames.Version, Filenames.FileTitle, Filenames.Print;
    if entries != [] {
      var front, e := entries[..|entries| - 1], entries[|entries| - 1];
      assert entries == front + [e] && e in entries;
      AllExactly(front, m);
      FileOf(e, m);
    }
  }

  predicate Ascending(ms: seq<Migration>) {
    forall i, j | 0 <= i < j < |ms| :: !Below(ms[j].version, ms[i].version)
  }

  method SortByVersion(ms: seq<Migration>) returns (out: seq<Migration>)
    ensures Ascending(out) && multiset(out) == multiset(ms)
  {
    hide Below;
    out := [];
    for i := 0 to |ms|
      invariant Ascending(out) && multiset(out) == multiset(ms[..i])
    {
      var k := |out|;
      while k > 0 && Below(ms[i].version, out[k - 1].version)
        invariant 0 <= k <= |out|
        invariant forall j | k <= j < |out| :: Below(ms[i].version, out[j].version)
      {
        k := k - 1;
      }
      InsertAscending(out, ms[i], k);
      InsertAdds(out, ms[i], k);
      assert ms[..i + 1] == ms[..i] + [ms[i]];
      out := out[..k] + [ms[i]] + out[k..];
    }
    assert ms[..|ms|] == ms;
  }

  lemma InsertAscending(out: seq<Migration>, m: Migration, k: nat)
    requires Ascending(out) && k <= |out|
    requires forall j | k <= j < |out| :: Below(m.version, out[j].version)
    requires k > 0 ==> !Below(m.version, out[k - 1].version)
    ensures Ascending(out[..k] + [m] + out[k..])
  {
    var t := out[..k] + [m] + out[k..];
    forall j | 0 <= j < k
      ensures !Below(m.version, out[j].version)
    {
      NotBelowChain(m.version, out[k - 1].version, out[j].version);
    }
    forall j | k <= j < |out|
      ensures !Below(out[j].version, m.version)
    {
      if Below(out[j].version, m.version) {
        BelowIsTransitive(m.version, out[j].version, m.version);
        BelowIsIrreflexive(m.version);
      }
    }
    forall i, j | 0 <= i < j < |t|
      ensures !Below(t[j].version, t[i].version)
    {
      if j < k {
      } else if i > k {
        assert t[i] == out[i - 1] && t[j] == out[j - 1];
      } else if i < k < j {
        assert t[i] == out[i] && t[j] == out[j - 1];
      }
    }
  }

  lemma InsertAdds(out: seq<Migration>, m: Migration, k: nat)
    requires k <= |out|
    ensures multiset(out[..k] + [m] + out[k..]) == multiset(out) + multiset{m}
  {
    assert out == out[..k] + out[k..];
  }

  lemma NotBelowChain(a: string, b: string, c: string)
    requires !Below(a, b) && (c == b || !Below(b, c))
    ensures !Below(a, c)
  {
    if Below(a, c) && c != b {
      BelowIsTotal(b, c);
      BelowIsTransitive(a, c, b);
    }
  }

  /** A directory or a file that cannot be read, or a name that is no migration file,
      stops the load; otherwise every file that counts is loaded once, in version
      order. */
  method LoadMigrations(directory: Option<seq<Entry>>) returns (r: Option<seq<Migration>>)
    ensures r.Some? <==> directory.Some? && forall e | e in directory.value && SqlFile(e) :: IsMigration(e)
    ensures r.Some? ==> Ascending(r.value)
    ensures r.Some? ==> forall v, t, q ::
              multiset(r.value)[Migration(v, t, q)]
              == if Filenames.Version(v) && Filenames.FileTitle(t)
                 then multiset(directory.value)[Entry(Filenames.Print(v, t), false, Some(q))] else 0
  {
    hide Counts, MigrationOf, SqlFile, IsMigration, Filenames.EndsInSql, Filenames.Parse, Filenames.Version,
         Filenames.FileTitle, Filenames.Print;
    if directory.None? {
      return None;
    }
    var entries := directory.value;
    ReadableExactly(entries);
    var ms: seq<Migration> := [];
    for i := 0 to |entries|
      invariant Readable(entries[..i]) && ms == All(entries[..i])
    {
      var e := entries[i];
      assert entries[..i + 1] == entries[..i] + [e];
      if !Counts(e) {
        continue;
      }
      if Filenames.Parse(e.name).None? {
        assert e in entries;
        return None;
      }
      if e.sql.None? {
        assert e in entries;
        return None;
      }
      ms := ms + [MigrationOf(e)];
    }
    assert entries[..|entries|] == entries;
    forall v, t, q
      ensures multiset(ms)[Migration(v, t, q)]
           == if Filenames.Version(v) && Filenames.FileTitle(t)
              then multiset(entries)[Entry(Filenames.Print(v, t), false, Some(q))] else 0
    {
      AllExactly(entries, Migration(v, t, q));
    }
    ms := SortByVersion(ms);
    r := Some(ms);
  }

  /** With distinct versions the order is fixed: every node that loads the same files
      walks the same list, however its directory is listed and its sort proceeds. */
  lemma {:induction false} OneOrder(a: seq<Migration>, b: seq<Migration>)
    requires Ascending(a) && Ascending(b) && multiset(a) == multiset(b) && Distinct(a)
    ensures a == b
    decreases |a|
  {
    hide Below, Ascending, Distinct;
    assert |multiset(b)| == |multiset(a)|;
    if a != [] {
      SameFirst(a, b);
      WithoutFirst(a);
      WithoutFirst(b);
      OneOrder(a[1..], b[1..]);
      assert a == [a[0]] + a[1..] && b == [b[0]] + b[1..];
    }
  }

  lemma SameFirst(a: seq<Migration>, b: seq<Migration>)
    requires Ascending(a) && Ascending(b) && multiset(a) == multiset(b) && Distinct(a) && a != [] && b != []
    ensures a[0] == b[0]
  {
    hide Below;
    assert a[0] in multiset(b) && b[0] in multiset(a);
    var i :| 0 <= i < |b| && b[i] == a[0];
    var j :| 0 <= j < |a| && a[j] == b[0];
    BelowIsTotal(a[0].version, b[0].version);
    BelowIsIrreflexive(a[0].version);
  }

  lemma WithoutFirst(a: seq<Migration>)
    requires a != []
    ensures multiset(a[1..]) == multiset(a) - multiset{a[0]}
    ensures Ascending(a) ==> Ascending(a[1..])
    ensures Distinct(a) ==> Distinct(a[1..])
  {
    assert a == [a[0]] + a[1..];
  }

  // ----- What is run of a list -----

  /** The migrations whose batch was accepted or whose repair was completed, in order. */
  function Ran<U>(e: Engine<U>, db: Db<U>, applied: set<string>, list: seq<Migration>): seq<Migration>
    decreases list
  {
    if list == [] then []
    else if list[0].version in applied then Ran(e, db, applied, list[1..])
    else
      var (d, r) := e.Transaction(db, list[0].Batch());
      match Classify(r)
      case Applied => [list[0]] + Ran(e, d, applied, list[1..])
      case TakenByOther => Ran(e, d, applied, list[1..])
      case InPlace =>
        var (d', r') := Repaired(e, d, list[0]);
        if r'.Failed? then [] else [list[0]] + Ran(e, d', applied, list[1..])
      case Fatal(_) => []
  }

  /** The first migration of each version that has not been seen. */
  function Firsts(list: seq<Migration>, seen: set<string>): seq<Migration>
    decreases list
  {
    if list == [] then []
    else if list[0].version in seen then Firsts(list[1..], seen)
    else [list[0]] + Firsts(list[1..], seen + {list[0].version})
  }

  /** What one migration does to the versions when it is not misread. */
  lemma OneMigration<U(!new)>(e: Engine<U>, base: set<string>, db: Db<U>, m: Migration)
    requires KeepsVersions(e, base, m.Body()) && base <= db.versions && !Misread(e, db, m)
    ensures var (d, r) := e.Transaction(db, m.Batch());
            && (m.version in db.versions ==> d == db && Classify(r).TakenByOther?)
            && (m.version !in db.versions ==> !Classify(r).TakenByOther?)
            && (Classify(r).Applied? ==> d.versions == db.versions + {m.version})
            && (Classify(r).InPlace? ==> Repaired(e, d, m).1.Done? ==>
                 Repaired(e, d, m).0.versions == db.versions + {m.version})
  {
    hide Migration.Batch, IsVersionTaken, IsIdempotentError, Engine.Transaction, Repaired;
    var (d, r) := e.Transaction(db, m.Batch());
    BatchVersions(e, base, db, m);
    RepairedVersions(e, base, d, m);
    if m.version in db.versions {
      Protocol.Setup(e, [], db, 0).ReapplyChangesNothing(db, m);
    }
  }

  lemma OwnTail<U(!new)>(e: Engine<U>, base: set<string>, list: seq<Migration>)
    requires OwnVersionsOnly(e, base, list) && list != []
    ensures KeepsVersions(e, base, list[0].Body()) && OwnVersionsOnly(e, base, list[1..])
  {
    hide KeepsVersions;
    assert list == [list[0]] + list[1..];
  }

  /** A walk on which nothing is misread runs the first migration of each version not
      yet recorded, and passes over every later one of that version. */
  lemma {:induction false} RunsTheFirsts<U(!new)>(e: Engine<U>, base: set<string>, db: Db<U>, applied: set<string>,
                                                  list: seq<Migration>)
    requires OwnVersionsOnly(e, base, list) && base <= db.versions && applied <= db.versions
    requires !MisreadOnWalk(e, db, applied, list)
    requires Walk(e, db, applied, list).1.Done?
    ensures Ran(e, db, applied, list) == Firsts(list, db.versions)
    decreases list
  {
    hide OwnVersionsOnly, KeepsVersions, Migration.Batch, Engine.Transaction, Repaired, Misread, Classify;
    if list != [] {
      var m, rest := list[0], list[1..];
      OwnTail(e, base, list);
      var (d, r) := e.Transaction(db, m.Batch());
      if m.version in applied {
        RunsTheFirsts(e, base, db, applied, rest);
      } else {
        OneMigration(e, base, db, m);
        match Classify(r)
        case Applied => RunsTheFirsts(e, base, d, applied, rest);
        case TakenByOther => RunsTheFirsts(e, base, d, applied, rest);
        case InPlace => RunsTheFirsts(e, base, Repaired(e, d, m).0, applied, rest);
        case Fatal(_) =>
      }
    }
  }

  /** Leaving the later ones out changes nothing: same database, same answer. */
  lemma {:induction false} RepeatsDoNothing<U(!new)>(e: Engine<U>, base: set<string>, db: Db<U>,
                                                     applied: set<string>, list: seq<Migration>)
    requires OwnVersionsOnly(e, base, list) && base <= db.versions && applied <= db.versions
    requires !MisreadOnWalk(e, db, applied, list)
    ensures Walk(e, db, applied, list) == Walk(e, db, applied, Firsts(list, db.versions))
    decreases list
  {
    hide OwnVersionsOnly, KeepsVersions, Migration.Batch, Engine.Transaction, Repaired, Misread, Classify;
    if list != [] {
      var m, rest := list[0], list[1..];
      OwnTail(e, base, list);
      var (d, r) := e.Transaction(db, m.Batch());
      if m.version in applied {
        RepeatsDoNothing(e, base, db, applied, rest);
      } else {
        OneMigration(e, base, db, m);
        var others := Firsts(rest, db.versions + {m.version});
        assert ([m] + others)[1..] == others;
        match Classify(r)
        case Applied => RepeatsDoNothing(e, base, d, applied, rest);
        case TakenByOther => RepeatsDoNothing(e, base, d, applied, rest);
        case InPlace =>
          if Repaired(e, d, m).1.Done? { RepeatsDoNothing(e, base, Repaired(e, d, m).0, applied, rest); }
        case Fatal(_) =>
      }
    }
  }

  lemma {:induction false} FirstsOfDistinct(list: seq<Migration>, seen: set<string>)
    ensures |Firsts(list, seen)| <= |list|
    ensures Firsts(list, seen) == list <==> Distinct(list) && forall m | m in list :: m.version !in seen
    decreases list
  {
    if list != [] {
      var v, rest := list[0].version, list[1..];
      assert list == [list[0]] + rest;
      if v in seen {
        FirstsOfDistinct(rest, seen);
        assert list[0] in list;
      } else {
        FirstsOfDistinct(rest, seen + {v});
        DistinctTail(list);
        assert Firsts(list, seen) == list <==> Firsts(rest, seen + {v}) == rest by {
          assert ([list[0]] + Firsts(rest, seen + {v}))[1..] == Firsts(rest, seen + {v});
        }
      }
    }
  }

  lemma DistinctTail(list: seq<Migration>)
    requires list != []
    ensures Distinct(list) <==> Distinct(list[1..]) && forall m | m in list[1..] :: m.version != list[0].version
  {
    assert list == [list[0]] + list[1..];
  }

  /** Loading does not check that versions are distinct. Of a list with nothing recorded
      yet, a Run that ends without error has run every migration exactly when they are:
      the later ones of a repeated version never run. */
  lemma AllRunExactlyWhenDistinct<U(!new)>(e: Engine<U>, db: Db<U>, list: seq<Migration>)
    requires OwnVersionsOnly(e, db.versions, list) && (forall m | m in list :: m.version !in db.versions)
    requires !MisreadOnWalk(e, db, db.versions, list) && Walk(e, db, db.versions, list).1.Done?
    ensures Ran(e, db, db.versions, list) == list <==> Distinct(list)
  {
    hide *;
    RunsTheFirsts(e, db.versions, db, db.versions, list);
    FirstsOfDistinct(list, db.versions);
  }
}
