/** Applying migrations, stopping anywhere, and starting again. */
module Migrations {
  import opened Domain
  import opened Text
  import opened Statements

  datatype File = File(name: string, contents: string)

  ghost predicate Ascending(files: seq<File>) {
    forall i, j :: 0 <= i < j < |files| ==> LexLess(files[i].name, files[j].name)
  }

  ghost predicate DistinctNames(files: seq<File>) {
    forall i, j :: 0 <= i < j < |files| ==> files[i].name != files[j].name
  }

  function InsertFile(f: File, files: seq<File>): seq<File> {
    if files == [] then [f]
    else if LexLess(files[0].name, f.name) then [files[0]] + InsertFile(f, files[1..])
    else [f] + files
  }

  function SortFiles(files: seq<File>): seq<File> {
    if files == [] then [] else InsertFile(files[0], SortFiles(files[1..]))
  }

  lemma {:induction false} InsertFileAscends(f: File, files: seq<File>)
    requires Ascending(files) && forall g :: g in files ==> g.name != f.name
    ensures Ascending(InsertFile(f, files))
    ensures forall g :: g in InsertFile(f, files) <==> g == f || g in files
  {
    if files != [] {
      assert files == [files[0]] + files[1..];
      LexTotal(files[0].name, f.name);
      if LexLess(files[0].name, f.name) {
        InsertFileAscends(f, files[1..]);
        var rest := InsertFile(f, files[1..]);
        forall j | 0 <= j < |rest|
          ensures LexLess(files[0].name, rest[j].name)
        {
          assert rest[j] in rest;
        }
      } else {
        forall j | 0 < j < |files|
          ensures LexLess(f.name, files[j].name)
        {
          LexTransitive(f.name, files[0].name, files[j].name);
        }
      }
    }
  }

  /** Distinct names sort into the one ascending order of the same files. */
  lemma {:induction false} SortFilesAscends(files: seq<File>)
    requires DistinctNames(files)
    ensures Ascending(SortFiles(files))
    ensures forall f :: f in SortFiles(files) <==> f in files
  {
    if files != [] {
      SortFilesAscends(files[1..]);
      assert files == [files[0]] + files[1..];
      InsertFileAscends(files[0], SortFiles(files[1..]));
    }
  }

  lemma AscendingTail(t: seq<File>)
    requires Ascending(t) && t != [] && !LexLess(t[0].name, t[0].name)
    ensures forall f :: f in t[1..] <==> f in t && f != t[0]
  {
    assert t == [t[0]] + t[1..];
  }

  /** Ascending lists of the same files are the same list. */
  lemma {:induction false} AscendingUnique(t: seq<File>, u: seq<File>)
    requires Ascending(t) && Ascending(u) && forall f :: f in t <==> f in u
    ensures t == u
  {
    assert u == [] || u[0] in u;
    if t != [] {
      assert t[0] in u && u[0] in t;
      LexTotal(t[0].name, u[0].name);
      assert t[0] == u[0];
      LexTotal(t[0].name, t[0].name);
      AscendingTail(t);
      AscendingTail(u);
      AscendingUnique(t[1..], u[1..]);
      assert t == [t[0]] + t[1..] && u == [u[0]] + u[1..];
    }
  }

  /** The order files are applied in is the only ascending one. */
  lemma SortFilesIsTheOrder(files: seq<File>, t: seq<File>)
    requires DistinctNames(files)
    ensures Ascending(t) && (forall f :: f in t <==> f in files) <==> t == SortFiles(files)
  {
    SortFilesAscends(files);
    if Ascending(t) && (forall f :: f in t <==> f in files) {
      AscendingUnique(t, SortFiles(files));
    }
  }

  // ---------------------------------------------------------------- what has been applied

  function AllStatements(files: seq<File>): seq<string> {
    if files == [] then []
    else AllStatements(files[..|files| - 1]) + StatementsOf(files[|files| - 1].contents)
  }

  function Names(files: seq<File>): (r: seq<string>)
    ensures |r| == |files| && forall k :: 0 <= k < |r| ==> r[k] == files[k].name
  {
    seq(|files|, k requires 0 <= k < |files| => files[k].name)
  }

  /** How far a run of `Migrate` gets that may issue `fuel` more database operations, looking at
      file i with the first k files applied. */
  function FilesFrom(files: seq<File>, i: nat, k: nat, fuel: nat): (nat, bool)
    requires i <= |files| && k <= |files|
    decreases |files| - i
  {
    if i == |files| then (k, true)
    else if i < k then if fuel == 0 then (k, false) else FilesFrom(files, i + 1, k, fuel - 1)
    else if fuel < FileCost(files[i]) then (k, false)
    else FilesFrom(files, i + 1, i + 1, fuel - FileCost(files[i]))
  }

  lemma FilesFromStep(files: seq<File>, i: nat, k: nat, fuel: nat)
    requires i < |files| && i <= k <= |files|
    ensures var cost := if i < k then 1 else FileCost(files[i]);
            FilesFrom(files, i, k, fuel)
            == if fuel < cost then (k, false) else FilesFrom(files, i + 1, if i < k then k else i + 1, fuel - cost)
  {
  }

  /** The check, the begin, each statement, the record and the commit. */
  function FileCost(f: File): nat {
    |StatementsOf(f.contents)| + 4
  }

  /** A whole run: creating the version table comes first. */
  function Resume(files: seq<File>, k: nat, fuel: nat): (nat, bool)
    requires k <= |files|
  {
    if fuel == 0 then (k, false) else FilesFrom(files, 0, k, fuel - 1)
  }

  class Schema {
    var recorded: seq<string>                       // schema_migrations, oldest first
    var applied: seq<string>                        // the statements whose effects are committed
    var pending: Option<(seq<string>, seq<string>)> // both, inside the open transaction
    var budget: nat                                 // operations left before the run is cut off

    /** Exactly the first k files are recorded, and exactly their statements applied. */
    ghost predicate AppliedPrefix(files: seq<File>, k: nat)
      reads this
    {
      && k <= |files| && pending.None?
      && recorded == Names(files[..k]) && applied == AllStatements(files[..k])
    }

    /** One database operation, unless the run is cut off before it. */
    method Operation() returns (ok: bool)
      modifies this`budget
      ensures ok <==> old(budget) > 0
      ensures budget == if ok then old(budget) - 1 else 0
    {
      ok := budget > 0;
      if ok {
        budget := budget - 1;
      }
    }

    /** Runs the statements inside the open transaction, one operation each. */
    method Execute(statements: seq<string>) returns (ok: bool)
      requires pending.Some?
      modifies this`pending, this`budget
      ensures pending.Some? && (ok <==> old(budget) >= |statements|)
      ensures ok ==> budget == old(budget) - |statements|
                     && pending.value.0 == old(pending).value.0
                     && pending.value.1 == old(pending).value.1 + statements
    {
      var i := 0;
      while i < |statements|
        invariant i <= |statements| && budget == old(budget) - i && pending.Some?
        invariant pending.value.0 == old(pending).value.0
        invariant pending.value.1 == old(pending).value.1 + statements[..i]
      {
        ok := Operation();
        if !ok {
          return;
        }
        assert statements[..i + 1] == statements[..i] + [statements[i]];
        pending := Some((pending.value.0, pending.value.1 + [statements[i]]));
        i := i + 1;
      }
      assert statements[..|statements|] == statements;
      return true;
    }

    /** One file in one transaction: its statements and its version commit together. */
    method ApplyFile(f: File) returns (ok: bool)
      requires pending.None? && budget > 0
      modifies this
      ensures pending.None?
      ensures ok <==> old(budget) >= FileCost(f) - 1
      ensures ok ==> budget == old(budget) - (FileCost(f) - 1)
                     && recorded == old(recorded) + [f.name]
                     && applied == old(applied) + StatementsOf(f.contents)
      ensures !ok ==> recorded == old(recorded) && applied == old(applied)
    {
      ok := Operation();
      pending := Some((recorded, applied));
      var statements := SplitStatements(f.contents);
      ok := Execute(statements);
      if !ok {
        pending := None;
        return;
      }
      ok := Operation();
      if !ok {
        pending := None;
        return;
      }
      pending := Some((pending.value.0 + [f.name], pending.value.1));
      ok := Operation();
      if ok {
        recorded, applied := pending.value.0, pending.value.1;
      }
      pending := None;
    }

    /** One round of the loop: nothing if the version is recorded, otherwise the file. */
    method MigrateEntry(ghost entries: seq<File>, ghost i: nat, ghost k: nat, entry: File) returns (ok: bool)
      requires Ascending(entries) && i < |entries| && entry == entries[i]
      requires AppliedPrefix(entries, k) && i <= k
      modifies this
      ensures ok ==> AppliedPrefix(entries, if i < k then k else i + 1)
      ensures !ok ==> AppliedPrefix(entries, k)
      ensures ok <==> old(budget) >= if i < k then 1 else FileCost(entry)
      ensures ok ==> budget == old(budget) - if i < k then 1 else FileCost(entry)
    {
      ok := Operation();
      if !ok {
        return;
      }
      RecordedIffApplied(entries, k, i);
      if entry.name in recorded {
        return;
      }
      if budget == 0 {
        return false;
      }
      ok := ApplyFile(entry);
      assert entries[..i + 1][..i] == entries[..i];
      assert Names(entries[..i + 1]) == Names(entries[..i]) + [entry.name];
    }

    /** Applies the files in name order, skipping the recorded ones. `k` is how many were applied
        when it started. */
    method Migrate(files: seq<File>, ghost k: nat) returns (ok: bool)
      requires DistinctNames(files) && AppliedPrefix(SortFiles(files), k)
      modifies this
      ensures ok == Resume(SortFiles(files), k, old(budget)).1
      ensures AppliedPrefix(SortFiles(files), Resume(SortFiles(files), k, old(budget)).0)
    {
      ok := Operation();
      if !ok {
        return;
      }
      var entries := SortFiles(files);
      SortFilesAscends(files);
      ghost var done, end := k, FilesFrom(entries, 0, k, budget);
      var i := 0;
      while i < |entries|
        invariant i <= done <= |entries| && AppliedPrefix(entries, done)
        invariant FilesFrom(entries, i, done, budget) == end
      {
        FilesFromStep(entries, i, done, budget);
        ok := MigrateEntry(entries, i, done, entries[i]);
        if !ok {
          return;
        }
        done := if i < done then done else i + 1;
        i := i + 1;
      }
      return true;
    }
  }

  lemma RecordedIffApplied(files: seq<File>, k: nat, i: nat)
    requires Ascending(files) && k <= |files| && i < |files|
    ensures files[i].name in Names(files[..k]) <==> i < k
  {
    if i < k {
      assert Names(files[..k])[i] == files[i].name;
    }
    if files[i].name in Names(files[..k]) {
      var j :| 0 <= j < k && Names(files[..k])[j] == files[i].name;
      LexTotal(files[i].name, files[j].name);
    }
  }

  // ---------------------------------------------------------------- crashing and resuming

  /** The operations a run needs that starts from nothing. */
  function TotalCost(files: seq<File>): nat {
    if files == [] then 1 else TotalCost(files[..|files| - 1]) + FileCost(files[|files| - 1])
  }

  function CostFrom(files: seq<File>, i: nat, k: nat): nat
    requires i <= |files|
    decreases |files| - i
  {
    if i == |files| then 0 else (if i < k then 1 else FileCost(files[i])) + CostFrom(files, i + 1, k)
  }

  lemma {:induction false} FilesFromGrows(files: seq<File>, i: nat, k: nat, fuel: nat)
    requires i <= |files| && k <= |files|
    ensures var (done, ok) := FilesFrom(files, i, k, fuel);
            && k <= done <= |files|
            && (ok <==> fuel >= CostFrom(files, i, k))
            && (ok && i <= k ==> done == |files|)
    decreases |files| - i
  {
    if i < |files| {
      if i < k {
        if fuel > 0 {
          FilesFromGrows(files, i + 1, k, fuel - 1);
        }
      } else {
        if fuel >= FileCost(files[i]) {
          FilesFromGrows(files, i + 1, i + 1, fuel - FileCost(files[i]));
          CostIgnoresApplied(files, i + 1, k, i + 1);
        }
      }
    }
  }

  lemma {:induction false} CostIgnoresApplied(files: seq<File>, i: nat, k: nat, k': nat)
    requires i <= |files| && k <= i && k' <= i
    ensures CostFrom(files, i, k) == CostFrom(files, i, k')
    decreases |files| - i
  {
    if i < |files| {
      CostIgnoresApplied(files, i + 1, k, k');
    }
  }

  /** Where a series of runs, each cut off somewhere, leaves the schema. */
  function RunsTo(files: seq<File>, k: nat, fuels: seq<nat>): (r: nat)
    requires k <= |files|
    ensures r <= |files|
  {
    if fuels == [] then k
    else
      FilesFromGrows(files, 0, RunsTo(files, k, fuels[..|fuels| - 1]), if fuels[|fuels| - 1] == 0 then 0 else fuels[|fuels| - 1] - 1);
      Resume(files, RunsTo(files, k, fuels[..|fuels| - 1]), fuels[|fuels| - 1]).0
  }

  /** However often and wherever earlier runs stopped, no file is ever unapplied, and a run that is
      not cut off finishes: every file's statements have been applied once, in name order. A run
      finishes exactly when it is not cut off. */
  lemma CrashesAreResumed(files: seq<File>, k: nat, fuels: seq<nat>, last: nat)
    requires k <= |files|
    ensures k <= RunsTo(files, k, fuels)
    ensures var reached := RunsTo(files, k, fuels);
            var (done, ok) := Resume(files, reached, last);
            && reached <= done <= |files|
            && (ok <==> last > CostFrom(files, 0, reached))
            && (ok ==> done == |files|)
  {
    RunsGrow(files, k, fuels);
    var reached := RunsTo(files, k, fuels);
    if last > 0 {
      FilesFromGrows(files, 0, reached, last - 1);
    }
  }

  lemma {:induction false} RunsGrow(files: seq<File>, k: nat, fuels: seq<nat>)
    requires k <= |files|
    ensures k <= RunsTo(files, k, fuels)
  {
    if fuels != [] {
      RunsGrow(files, k, fuels[..|fuels| - 1]);
      var before, fuel := RunsTo(files, k, fuels[..|fuels| - 1]), fuels[|fuels| - 1];
      if fuel > 0 {
        FilesFromGrows(files, 0, before, fuel - 1);
      }
    }
  }

  lemma RunsToStep(files: seq<File>, fuels: seq<nat>, i: nat)
    requires i < |fuels|
    ensures var reached := RunsTo(files, 0, fuels[..i]);
            RunsTo(files, 0, fuels[..i + 1]) == Resume(files, reached, fuels[i]).0
            && (Resume(files, reached, fuels[i]).1 ==> RunsTo(files, 0, fuels[..i + 1]) == |files|)
  {
    assert fuels[..i + 1][..i] == fuels[..i];
    CrashesAreResumed(files, 0, fuels[..i], fuels[i]);
  }

  /** A whole history of startups over one database: every run but the last is cut off by its budget,
      the last may finish. */
  method Startups(schema: Schema, files: seq<File>, budgets: seq<nat>) returns (ok: bool)
    requires DistinctNames(files) && schema.AppliedPrefix(SortFiles(files), 0)
    modifies schema
    ensures schema.AppliedPrefix(SortFiles(files), RunsTo(SortFiles(files), 0, budgets))
    ensures ok ==> schema.recorded == Names(SortFiles(files)) && schema.applied == AllStatements(SortFiles(files))
  {
    ok := false;
    var i := 0;
    ghost var entries := SortFiles(files);
    while i < |budgets|
      invariant i <= |budgets|
      invariant schema.AppliedPrefix(entries, RunsTo(entries, 0, budgets[..i]))
      invariant ok ==> RunsTo(entries, 0, budgets[..i]) == |entries|
    {
      schema.budget := budgets[i];
      RunsToStep(entries, budgets, i);
      ok := schema.Migrate(files, RunsTo(entries, 0, budgets[..i]));
      i := i + 1;
    }
    assert budgets[..|budgets|] == budgets;
    assert entries[..|entries|] == entries;
  }
}
