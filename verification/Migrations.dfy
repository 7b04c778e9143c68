/** The migration runner: ordered, one transaction per file, resumable after any interruption. */
module Migrations {
  import opened Wrappers
  import opened Connection
  import opened Sequences
  import opened Sorting

  datatype Entry = Entry(name: string, isDir: bool)

  predicate IsMigration(name: string) {
    |name| >= 4 && name[|name| - 4..] == ".sql"
  }

  /** strings.TrimSuffix(f, ".sql"). */
  function Version(file: string): string
    requires IsMigration(file)
  {
    file[..|file| - 4]
  }

  /** The migrations are the names that end in .sql, and what comes before that is the version. */
  lemma MigrationNames(name: string, version: string)
    ensures IsMigration(name) <==> exists v :: name == v + ".sql"
    ensures IsMigration(version + ".sql") && Version(version + ".sql") == version
  {
    if IsMigration(name) {
      assert name == name[..|name| - 4] + ".sql";
    }
    var file := version + ".sql";
    assert file[|file| - 4..] == ".sql" && file[..|file| - 4] == version;
  }

  /** A version names one file. */
  lemma VersionIsInjective(a: string, b: string)
    requires IsMigration(a) && IsMigration(b) && Version(a) == Version(b)
    ensures a == b
  {
    assert a == a[..|a| - 4] + a[|a| - 4..];
    assert b == b[..|b| - 4] + b[|b| - 4..];
  }

  /** The sorted file list of a run. */
  ghost predicate IsFileList(files: seq<string>) {
    Ascending(Before, files) && forall i :: 0 <= i < |files| ==> IsMigration(files[i])
  }

  lemma Inserted(files: seq<string>, i: nat, f: string)
    requires Ascending(Before, files) && i <= |files|
    requires forall k :: 0 <= k < i ==> Before(files[k], f)
    requires i < |files| ==> Before(f, files[i])
    ensures Ascending(Before, files[..i] + [f] + files[i..])
  {
    forall k | i < k < |files|
      ensures Before(f, files[k])
    {
      BeforeTransitive(f, files[i], files[k]);
    }
  }

  lemma InsertedMembers(files: seq<string>, i: nat, f: string)
    requires i <= |files|
    ensures forall x :: x in files[..i] + [f] + files[i..] <==> x in files || x == f
  {
    forall x
      ensures x in files <==> x in files[..i] || x in files[i..]
    {
      assert files == files[..i] + files[i..];
    }
  }

  /** Inserts into an ascending list, as sort.Strings would place it. */
  method InsertSorted(files: seq<string>, f: string) returns (r: seq<string>)
    requires Ascending(Before, files) && f !in files
    ensures Ascending(Before, r)
    ensures forall x :: x in r <==> x in files || x == f
  {
    var i := 0;
    while i < |files| && Before(files[i], f)
      invariant i <= |files| && forall k :: 0 <= k < i ==> Before(files[k], f)
    {
      i := i + 1;
    }
    if i < |files| {
      BeforeTotal(files[i], f);
    }
    Inserted(files, i, f);
    InsertedMembers(files, i, f);
    r := files[..i] + [f] + files[i..];
  }

  /** The directory's .sql files in name order. */
  method ListFiles(entries: seq<Entry>) returns (files: seq<string>)
    requires forall i, j :: 0 <= i < j < |entries| ==> entries[i].name != entries[j].name
    ensures IsFileList(files)
    ensures forall f :: f in files <==>
            exists i :: 0 <= i < |entries| && entries[i] == Entry(f, false) && IsMigration(f)
  {
    files := [];
    for n := 0 to |entries|
      invariant Ascending(Before, files)
      invariant forall f :: f in files <==> exists i :: 0 <= i < n && entries[i] == Entry(f, false) && IsMigration(f)
    {
      if !entries[n].isDir && IsMigration(entries[n].name) {
        assert entries[n] == Entry(entries[n].name, false);
        files := InsertSorted(files, entries[n].name);
      }
    }
    assert forall i :: 0 <= i < |files| ==> files[i] in files;
  }

  /** What a database holds of migrations: the recorded versions, and the scripts in effect, in order. */
  datatype Recorded = Recorded(versions: seq<string>, effects: seq<string>)

  const FRESH := Recorded([], [])

  function Versions(files: seq<string>): seq<string>
    requires forall i :: 0 <= i < |files| ==> IsMigration(files[i])
  {
    if files == [] then [] else Versions(files[..|files| - 1]) + [Version(files[|files| - 1])]
  }

  /** A run so far: what it left in the database, and the versions it reports. */
  datatype Progress = Progress(recorded: Recorded, applied: seq<string>)

  /** An uninterrupted pass over `files`: each one whose version is not recorded is applied. */
  function Pass(files: seq<string>, before: Recorded): Progress
    requires forall i :: 0 <= i < |files| ==> IsMigration(files[i])
  {
    if files == [] then Progress(before, [])
    else
      var p := Pass(files[..|files| - 1], before);
      var f := files[|files| - 1];
      if Version(f) in p.recorded.versions then p
      else Progress(Recorded(p.recorded.versions + [Version(f)], p.recorded.effects + [f]), p.applied + [Version(f)])
  }

  /** A run stopped after `n` files; when the connection broke on a commit that had taken effect, one
      more file is in the database than the run reports. */
  ghost predicate StoppedAt(files: seq<string>, before: Recorded, after: Recorded, applied: seq<string>, n: nat)
    requires forall i :: 0 <= i < |files| ==> IsMigration(files[i])
  {
    && n <= |files|
    && applied == Pass(files[..n], before).applied
    && (after == Pass(files[..n], before).recorded || (n < |files| && after == Pass(files[..n + 1], before).recorded))
  }

  class Database {
    var recorded: Recorded
    /** How many more statements the connection survives; None when it stays up. */
    var budget: Option<nat>
    /** Whether a commit on which the connection breaks has taken effect at the server. */
    const commitLands: bool

    constructor (budget: Option<nat>, commitLands: bool)
      ensures recorded == FRESH && this.budget == budget && this.commitLands == commitLands
    {
      this.recorded, this.budget, this.commitLands := FRESH, budget, commitLands;
    }

    /** One file: script and version row in one transaction. */
    method Apply(f: string) returns (ok: bool)
      requires IsMigration(f)
      modifies this`budget, this`recorded
      ensures old(budget) == None ==> ok && budget == None
      ensures recorded == old(recorded)
              || recorded == Recorded(old(recorded.versions) + [Version(f)], old(recorded.effects) + [f])
      ensures ok ==> recorded == Recorded(old(recorded.versions) + [Version(f)], old(recorded.effects) + [f])
    {
      var begin := recorded;
      ok, budget := Send(budget);
      if !ok { return; }
      ok, budget := Send(budget);
      if !ok { return; }
      recorded := recorded.(effects := recorded.effects + [f]);
      ok, budget := Send(budget);
      if !ok {
        recorded := begin;
        return;
      }
      recorded := recorded.(versions := recorded.versions + [Version(f)]);
      ok, budget := Send(budget);
      if !ok && !commitLands {
        recorded := begin;
      }
    }

    /** Applies what is pending, in order, and stops at the first failure; a healthy connection
        completes the pass. */
    method Migrate(files: seq<string>) returns (applied: seq<string>, ok: bool)
      requires IsFileList(files)
      modifies this`budget, this`recorded
      ensures exists n: nat :: StoppedAt(files, old(recorded), recorded, applied, n)
      ensures ok ==> Progress(recorded, applied) == Pass(files, old(recorded))
      ensures old(budget) == None ==> ok
    {
      applied := [];
      ghost var before := recorded;
      ok, budget := Send(budget);
      if !ok {
        assert StoppedAt(files, before, recorded, applied, 0);
        return;
      }
      for i := 0 to |files|
        invariant old(budget) == None ==> budget == None
        invariant Progress(recorded, applied) == Pass(files[..i], before)
      {
        assert files[..i + 1][..i] == files[..i];
        ok, budget := Send(budget);
        if !ok {
          assert StoppedAt(files, before, recorded, applied, i);
          return;
        }
        if Version(files[i]) in recorded.versions {
          continue;
        }
        var committed := Apply(files[i]);
        if !committed {
          assert StoppedAt(files, before, recorded, applied, i);
          ok := false;
          return;
        }
        applied := applied + [Version(files[i])];
      }
      assert files[..|files|] == files;
      assert StoppedAt(files, before, recorded, applied, |files|);
    }
  }

  // ---- Sequences of runs ----

  /** The first `k` files recorded and in effect. */
  function Prefix(files: seq<string>, k: nat): Recorded
    requires k <= |files| && forall i :: 0 <= i < |files| ==> IsMigration(files[i])
  {
    Recorded(Versions(files[..k]), files[..k])
  }

  lemma VersionsPrefix(files: seq<string>, k: nat)
    requires k < |files| && forall i :: 0 <= i < |files| ==> IsMigration(files[i])
    ensures Versions(files[..k + 1]) == Versions(files[..k]) + [Version(files[k])]
  {
    assert files[..k + 1][..k] == files[..k];
  }

  /** The version of file `i` is recorded exactly when `i` is below the prefix. */
  lemma {:induction false} RecordedIffBelow(files: seq<string>, k: nat, i: nat)
    requires IsFileList(files) && k <= |files| && i < |files|
    ensures Version(files[i]) in Versions(files[..k]) <==> i < k
  {
    if k > 0 {
      RecordedIffBelow(files, k - 1, i);
      VersionsPrefix(files, k - 1);
      DistinctVersions(files, k - 1, i);
    }
  }

  lemma DistinctVersions(files: seq<string>, i: nat, j: nat)
    requires IsFileList(files) && i < |files| && j < |files|
    ensures Version(files[i]) == Version(files[j]) <==> i == j
  {
    EffectsAreDistinct(files);
    if Version(files[i]) == Version(files[j]) {
      VersionIsInjective(files[i], files[j]);
    }
  }

  lemma PassNext(files: seq<string>, before: Recorded, i: nat)
    requires i < |files| && forall k :: 0 <= k < |files| ==> IsMigration(files[k])
    ensures var p := Pass(files[..i], before);
            var v := Version(files[i]);
            Pass(files[..i + 1], before) ==
              if v in p.recorded.versions then p
              else Progress(Recorded(p.recorded.versions + [v], p.recorded.effects + [files[i]]), p.applied + [v])
  {
    assert files[..i + 1][..i] == files[..i];
  }

  /** Files already in effect are passed over. */
  lemma {:induction false} PassOverPrefix(files: seq<string>, k: nat, i: nat)
    requires IsFileList(files) && i <= k <= |files|
    ensures Pass(files[..i], Prefix(files, k)) == Progress(Prefix(files, k), [])
  {
    if i > 0 {
      PassOverPrefix(files, k, i - 1);
      PassNext(files, Prefix(files, k), i - 1);
      RecordedIffBelow(files, k, i - 1);
    }
  }

  lemma PrefixNext(files: seq<string>, k: nat)
    requires k < |files| && forall i :: 0 <= i < |files| ==> IsMigration(files[i])
    ensures Prefix(files, k + 1) == Recorded(Prefix(files, k).versions + [Version(files[k])],
            Prefix(files, k).effects + [files[k]])
  {
    VersionsPrefix(files, k);
  }

  /** The others are applied one by one. */
  lemma {:induction false} PassBeyondPrefix(files: seq<string>, k: nat, i: nat)
    requires IsFileList(files) && k <= i <= |files|
    ensures Pass(files[..i], Prefix(files, k)).recorded == Prefix(files, i)
  {
    if i == k {
      PassOverPrefix(files, k, k);
    } else {
      PassBeyondPrefix(files, k, i - 1);
      PassNext(files, Prefix(files, k), i - 1);
      RecordedIffBelow(files, i - 1, i - 1);
      PrefixNext(files, i - 1);
    }
  }

  /** The next file beyond the prefix is applied and reported. */
  lemma AppliedNext(files: seq<string>, k: nat, i: nat)
    requires IsFileList(files) && k <= i < |files|
    ensures Pass(files[..i + 1], Prefix(files, k)).applied
            == Pass(files[..i], Prefix(files, k)).applied + [Version(files[i])]
  {
    PassBeyondPrefix(files, k, i);
    PassNext(files, Prefix(files, k), i);
    RecordedIffBelow(files, i, i);
  }

  lemma {:induction false} AppliedBeyondPrefix(files: seq<string>, k: nat, i: nat)
    requires IsFileList(files) && k <= i <= |files|
    ensures Versions(files[..k]) + Pass(files[..i], Prefix(files, k)).applied == Versions(files[..i])
  {
    if i == k {
      PassOverPrefix(files, k, k);
      Joined(Versions(files[..k]), [], []);
    } else {
      AppliedBeyondPrefix(files, k, i - 1);
      AppliedNext(files, k, i - 1);
      VersionsPrefix(files, i - 1);
      Joined(Versions(files[..k]), Pass(files[..i - 1], Prefix(files, k)).applied, [Version(files[i - 1])]);
    }
  }

  /** A pass over the first `i` files of a database with the first `k` in effect: it applies, and
      reports, exactly the files between. */
  lemma PassFromPrefix(files: seq<string>, k: nat, i: nat)
    requires IsFileList(files) && k <= |files| && i <= |files|
    ensures Pass(files[..i], Prefix(files, k)).recorded == Prefix(files, if i < k then k else i)
    ensures var applied := Pass(files[..i], Prefix(files, k)).applied;
            if i <= k then applied == [] else Versions(files[..k]) + applied == Versions(files[..i])
  {
    if i <= k {
      PassOverPrefix(files, k, i);
    } else {
      PassBeyondPrefix(files, k, i);
      AppliedBeyondPrefix(files, k, i);
    }
  }

  /** Any number of runs over one file list, each possibly interrupted; `runs` says where each stopped. */
  ghost predicate IsHistory(files: seq<string>, states: seq<Recorded>, runs: seq<(seq<string>, nat)>)
    requires forall i :: 0 <= i < |files| ==> IsMigration(files[i])
  {
    && |states| == |runs| + 1
    && states[0] == FRESH
    && forall i :: 0 <= i < |runs| ==> StoppedAt(files, states[i], states[i + 1], runs[i].0, runs[i].1)
  }

  /** After any sequence of runs, interrupted anywhere, the recorded versions and the scripts in effect
      are the same prefix of the sorted files: each took effect exactly once, in order. */
  lemma {:induction false} AlwaysAPrefix(
      files: seq<string>, states: seq<Recorded>, runs: seq<(seq<string>, nat)>, i: nat)
    returns (k: nat)
    requires IsFileList(files) && IsHistory(files, states, runs) && i <= |runs|
    ensures k <= |files| && states[i] == Prefix(files, k)
  {
    if i == 0 {
      k := 0;
    } else {
      var j := AlwaysAPrefix(files, states, runs, i - 1);
      var n := runs[i - 1].1;
      assert StoppedAt(files, states[i - 1], states[i], runs[i - 1].0, n);
      k := if states[i] == Pass(files[..n], states[i - 1]).recorded then n else n + 1;
      PassFromPrefix(files, j, k);
      k := if k < j then j else k;
    }
  }

  /** However often it was interrupted, a run that completes leaves the state of one clean run: every
      file in effect once, in order; and a further run applies nothing. */
  lemma CompletedRunsAgree(files: seq<string>, states: seq<Recorded>, runs: seq<(seq<string>, nat)>)
    requires IsFileList(files) && IsHistory(files, states, runs)
    ensures Pass(files, states[|runs|]).recorded == Pass(files, FRESH).recorded == Recorded(Versions(files), files)
    ensures Pass(files, Pass(files, states[|runs|]).recorded) == Progress(Recorded(Versions(files), files), [])
  {
    var k := AlwaysAPrefix(files, states, runs, |runs|);
    assert files[..|files|] == files;
    assert Prefix(files, 0) == FRESH;
    PassFromPrefix(files, k, |files|);
    PassFromPrefix(files, 0, |files|);
    PassFromPrefix(files, |files|, |files|);
  }

  /** The files in effect are pairwise different. */
  lemma EffectsAreDistinct(files: seq<string>)
    requires IsFileList(files)
    ensures NoDuplicates(files)
  {
    BeforeIsStrictTotalOrder();
  }
}
