/** The cleanup-files handler: unlink each requested path in turn, delete its
    row on success, and report one result per path, in order. */
module Cleanup {
  import opened Common
  import opened Records
  import Store

  /** One entry of the reply: the path, whether its file was removed, and the
      error message when it was not. */
  datatype CleanupResult = CleanupResult(path: Path, success: bool, error: Option<string>)

  /** The rejection of fs.unlink(p), if it is rejected: the path is not there,
      or the process may not remove it. */
  function UnlinkError(present: set<Path>, locked: set<Path>, p: Path): (e: Option<string>)
    ensures e.None? <==> p in present && p !in locked
    ensures e.Some? ==> |e.value| > 0
  {
    if p !in present then Some("ENOENT: no such file or directory, unlink '" + p + "'")
    else if p in locked then Some("EACCES: permission denied, unlink '" + p + "'")
    else None
  }

  /** The files on disk that unlink can see: `present` are the paths that name
      a file, `locked` those the process is not permitted to remove. */
  class FileSystem {
    var present: set<Path>
    const locked: set<Path>

    constructor (present: set<Path>, locked: set<Path>)
      ensures this.present == present && this.locked == locked
    {
      this.present := present;
      this.locked := locked;
    }

    method Unlink(p: Path) returns (err: Option<string>)
      modifies this
      ensures err == UnlinkError(old(present), locked, p)
      ensures present == if err.None? then old(present) - {p} else old(present)
    {
      err := UnlinkError(present, locked, p);
      if err.None? {
        present := present - {p};
      }
    }
  }

  /** The results so far, the files left on disk and the rows left in the store. */
  datatype State = State(results: seq<CleanupResult>, present: set<Path>, rows: map<Path, FileInfo>)

  /** One iteration: on success the file and its row go, on failure nothing changes. */
  function Step(st: State, locked: set<Path>, p: Path): State {
    match UnlinkError(st.present, locked, p)
    case None => State(st.results + [CleanupResult(p, true, None)], st.present - {p}, st.rows - {p})
    case Some(msg) => State(st.results + [CleanupResult(p, false, Some(msg))], st.present, st.rows)
  }

  /** The state after the loop has handled `ps`. */
  function Run(start: State, locked: set<Path>, ps: seq<Path>): State {
    if ps == [] then start else Step(Run(start, locked, ps[..|ps| - 1]), locked, ps[|ps| - 1])
  }

  method CleanupFiles(fs: FileSystem, db: Store.Database, filePaths: seq<Path>)
    returns (results: seq<CleanupResult>)
    modifies fs, db
    ensures Run(State([], old(fs.present), old(db.files)), fs.locked, filePaths) ==
      State(results, fs.present, db.files)
    ensures db.history == old(db.history)
  {
    results := [];
    var i := 0;
    while i < |filePaths|
      invariant 0 <= i <= |filePaths|
      invariant Run(State([], old(fs.present), old(db.files)), fs.locked, filePaths[..i]) ==
        State(results, fs.present, db.files)
      invariant db.history == old(db.history)
    {
      var filePath := filePaths[i];
      assert filePaths[..i + 1][..i] == filePaths[..i];
      var err := fs.Unlink(filePath);
      if err.None? {
        db.Delete(filePath);
        results := results + [CleanupResult(filePath, true, None)];
      } else {
        results := results + [CleanupResult(filePath, false, err)];
      }
      i := i + 1;
    }
    assert filePaths[..i] == filePaths;
  }

  /** The paths whose file is removed by cleaning up `ps`. */
  function Removed(present: set<Path>, locked: set<Path>, ps: seq<Path>): set<Path> {
    set p | p in ps && p in present && p !in locked
  }

  /** What the cleanup of `ps` leaves: one result per path in input order, a
      success exactly for the first request of a removable path (so a repeated
      path fails the second time), a non-empty message on each failure, and
      the removed paths gone both from disk and from the store. */
  ghost predicate Outcome(present: set<Path>, locked: set<Path>, rows: map<Path, FileInfo>, ps: seq<Path>, out: State) {
    && |out.results| == |ps|
    && (forall i :: 0 <= i < |ps| ==> out.results[i].path == ps[i])
    && (forall i :: 0 <= i < |ps| ==>
          (out.results[i].success <==> ps[i] in present && ps[i] !in locked && ps[i] !in ps[..i]))
    && (forall i :: 0 <= i < |ps| ==>
          (out.results[i].success <==> out.results[i].error.None?))
    && (forall i :: 0 <= i < |ps| && out.results[i].error.Some? ==> |out.results[i].error.value| > 0)
    && out.present == present - Removed(present, locked, ps)
    && out.rows == rows - Removed(present, locked, ps)
  }

  lemma {:induction false} CleanupOutcome(present: set<Path>, locked: set<Path>, rows: map<Path, FileInfo>, ps: seq<Path>)
    ensures Outcome(present, locked, rows, ps, Run(State([], present, rows), locked, ps))
  {
    if ps == [] {
      assert Removed(present, locked, ps) == {};
    } else {
      var init := ps[..|ps| - 1];
      CleanupOutcome(present, locked, rows, init);
      CleanupStep(present, locked, rows, ps, Run(State([], present, rows), locked, init));
    }
  }

  /** One path more preserves Outcome. */
  lemma CleanupStep(present: set<Path>, locked: set<Path>, rows: map<Path, FileInfo>, ps: seq<Path>, st: State)
    requires ps != []
    requires Outcome(present, locked, rows, ps[..|ps| - 1], st)
    ensures Outcome(present, locked, rows, ps, Step(st, locked, ps[|ps| - 1]))
  {
    var init, p := ps[..|ps| - 1], ps[|ps| - 1];
    assert ps == init + [p];
    var out := Step(st, locked, p);
    StepResults(present, locked, ps, init, p, st);
    StepRemoved(present, locked, ps, init, p, st.present);
    var before, after := Removed(present, locked, init), Removed(present, locked, ps);
    if UnlinkError(st.present, locked, p).None? {
      assert out.present == st.present - {p};
      assert out.rows == st.rows - {p};
      assert after == before + {p};
      assert out.rows == rows - after;
    } else {
      assert out.present == st.present && out.rows == st.rows;
    }
  }

  lemma StepResults(present: set<Path>, locked: set<Path>, ps: seq<Path>, init: seq<Path>, p: Path, st: State)
    requires ps == init + [p]
    requires st.present == present - Removed(present, locked, init)
    requires |st.results| == |init|
    requires forall i :: 0 <= i < |init| ==> st.results[i].path == init[i]
    requires forall i :: 0 <= i < |init| ==>
      (st.results[i].success <==> init[i] in present && init[i] !in locked && init[i] !in init[..i])
    requires forall i :: 0 <= i < |init| ==> (st.results[i].success <==> st.results[i].error.None?)
    requires forall i :: 0 <= i < |init| && st.results[i].error.Some? ==> |st.results[i].error.value| > 0
    ensures var out := Step(st, locked, p).results;
      && |out| == |ps|
      && (forall i :: 0 <= i < |ps| ==> out[i].path == ps[i])
      && (forall i :: 0 <= i < |ps| ==> (out[i].success <==> ps[i] in present && ps[i] !in locked && ps[i] !in ps[..i]))
      && (forall i :: 0 <= i < |ps| ==> (out[i].success <==> out[i].error.None?))
      && (forall i :: 0 <= i < |ps| && out[i].error.Some? ==> |out[i].error.value| > 0)
  {
    var n := |init|;
    assert ps[..n] == init;
    forall i | 0 <= i < n
      ensures ps[..i] == init[..i]
    {
    }
    assert (p in st.present && p !in locked) <==> (p in present && p !in locked && p !in init);
  }

  lemma StepRemoved(present: set<Path>, locked: set<Path>, ps: seq<Path>, init: seq<Path>, p: Path, cur: set<Path>)
    requires ps == init + [p]
    requires cur == present - Removed(present, locked, init)
    ensures UnlinkError(cur, locked, p).None? ==>
      Removed(present, locked, ps) == Removed(present, locked, init) + {p}
    ensures UnlinkError(cur, locked, p).Some? ==>
      Removed(present, locked, ps) == Removed(present, locked, init)
  {
  }

  /** The results that report a removed file. */
  predicate Succeeded(r: CleanupResult) {
    r.success
  }

  /** The number of successes is the number of files removed; a repeated path
      fails after its first request and adds nothing. */
  lemma {:induction false} SuccessCount(present: set<Path>, locked: set<Path>, rows: map<Path, FileInfo>, ps: seq<Path>)
    ensures |Keep(Run(State([], present, rows), locked, ps).results, Succeeded)| == |Removed(present, locked, ps)|
  {
    if ps == [] {
      assert Removed(present, locked, ps) == {};
    } else {
      var init, p := ps[..|ps| - 1], ps[|ps| - 1];
      assert ps == init + [p];
      SuccessCount(present, locked, rows, init);
      CleanupOutcome(present, locked, rows, init);
      var st := Run(State([], present, rows), locked, init);
      var next := Step(st, locked, p);
      var r := next.results[|next.results| - 1];
      assert next.results == st.results + [r];
      KeepSnoc(st.results, r, Succeeded);
      StepRemoved(present, locked, ps, init, p, st.present);
      if UnlinkError(st.present, locked, p).None? {
        assert p !in Removed(present, locked, init);
      }
    }
  }
}
