/** A call of `commit_paths` that nobody disturbs commits exactly what is on disk. */
module QuietCommit {
  import opened Text
  import opened GitTrees
  import opened CommitProtocol

  /** What a path is on disk: a file with its mode, or nothing. */
  function Found(disk: map<string, File>, path: string): Staged {
    Staged(path, if path in disk then Some(Blob(disk[path].bytes, disk[path].executable)) else None)
  }

  function AllFound(disk: map<string, File>, paths: seq<string>): (r: seq<Staged>)
    ensures |r| == |paths| && forall i :: 0 <= i < |paths| ==> r[i] == Found(disk, paths[i])
  {
    seq(|paths|, i requires 0 <= i < |paths| => Found(disk, paths[i]))
  }

  /** The steps one path takes. */
  function PathSteps(disk: map<string, File>, k: nat, path: string): seq<Action> {
    if path in disk then [By(k, Look), By(k, ReadBytes), By(k, ReadMode)] else [By(k, Look)]
  }

  function AllSteps(disk: map<string, File>, k: nat, paths: seq<string>): seq<Action> {
    if paths == [] then [] else AllSteps(disk, k, paths[..|paths| - 1]) + PathSteps(disk, k, paths[|paths| - 1])
  }

  function WholeCall(disk: map<string, File>, k: nat, paths: seq<string>, time: nat): seq<Action> {
    [By(k, Snapshot)] + AllSteps(disk, k, paths) + [By(k, WriteTree), By(k, Land(time)), By(k, RefreshIndex(true))]
  }

  // ----- runs

  lemma {:induction false} RunConcat(w: World, a: seq<Action>, b: seq<Action>)
    ensures Run(w, a + b) == Run(Run(w, a), b)
    decreases |b|
  {
    hide Do;
    if b == [] {
      assert a + b == a;
    } else {
      var n := |b| - 1;
      assert (a + b)[..|a + b| - 1] == a + b[..n] && (a + b)[|a + b| - 1] == b[n];
      RunConcat(w, a, b[..n]);
    }
  }

  lemma RunOne(w: World, a: Action)
    ensures Run(w, [a]) == Do(w, a)
  {
    hide Do;
    assert [a][..0] == [];
    assert Run(w, []) == w;
  }

  lemma RunTwo(w: World, a: Action, b: Action)
    ensures Run(w, [a, b]) == Do(Do(w, a), b)
  {
    hide Do, Run;
    assert [a, b] == [a] + [b];
    RunConcat(w, [a], [b]);
    RunOne(w, a);
    RunOne(Do(w, a), b);
  }

  lemma RunThree(w: World, a: Action, b: Action, c: Action)
    ensures Run(w, [a, b, c]) == Do(Do(Do(w, a), b), c)
  {
    hide Do, Run;
    assert [a, b, c] == [a, b] + [c];
    RunConcat(w, [a, b], [c]);
    RunTwo(w, a, b);
    RunOne(Do(Do(w, a), b), c);
  }

  // ----- one path

  /** The world with call `k` somewhere in its staging. */
  function StagingAt(w: World, k: nat, tree: Tree, staged: seq<Staged>, probe: Probe): World
    requires k < |w.jobs|
  {
    SetPhase(w, k, Staging(w.head, tree, staged, probe))
  }

  lemma LookOnce(w: World, k: nat, tree: Tree, staged: seq<Staged>)
    requires k < |w.jobs| && |staged| < |w.jobs[k].paths|
    ensures var path := w.jobs[k].paths[|staged|];
            Do(StagingAt(w, k, tree, staged, NotLooked), By(k, Look)) ==
            if path in w.disk then StagingAt(w, k, tree, staged, IsFile)
            else StagingAt(w, k, Edit(tree, Staged(path, None)), staged + [Staged(path, None)], NotLooked)
  {
    hide Edit;
  }

  lemma ReadOnce(w: World, k: nat, tree: Tree, staged: seq<Staged>)
    requires k < |w.jobs| && |staged| < |w.jobs[k].paths| && w.jobs[k].paths[|staged|] in w.disk
    ensures var file := w.disk[w.jobs[k].paths[|staged|]];
            Do(StagingAt(w, k, tree, staged, IsFile), By(k, ReadBytes)) == StagingAt(w, k, tree, staged, HaveBytes(file.bytes))
  {
    hide Edit;
  }

  lemma ModeOnce(w: World, k: nat, tree: Tree, staged: seq<Staged>)
    requires k < |w.jobs| && |staged| < |w.jobs[k].paths| && w.jobs[k].paths[|staged|] in w.disk
    ensures var path := w.jobs[k].paths[|staged|]; var found := Found(w.disk, path);
            Do(StagingAt(w, k, tree, staged, HaveBytes(w.disk[path].bytes)), By(k, ReadMode)) ==
            StagingAt(w, k, Edit(tree, found), staged + [found], NotLooked)
  {
    hide Edit;
  }

  lemma PathRuns(w: World, k: nat, tree: Tree, staged: seq<Staged>)
    requires k < |w.jobs| && |staged| < |w.jobs[k].paths|
    ensures var path := w.jobs[k].paths[|staged|]; var found := Found(w.disk, path);
            Run(StagingAt(w, k, tree, staged, NotLooked), PathSteps(w.disk, k, path)) ==
            StagingAt(w, k, Edit(tree, found), staged + [found], NotLooked)
  {
    var path, start := w.jobs[k].paths[|staged|], StagingAt(w, k, tree, staged, NotLooked);
    LookOnce(w, k, tree, staged);
    if path in w.disk {
      ReadOnce(w, k, tree, staged);
      ModeOnce(w, k, tree, staged);
      hide Run, Do, Edit, StagingAt;
      RunThree(start, By(k, Look), By(k, ReadBytes), By(k, ReadMode));
    } else {
      hide Run, Do, Edit, StagingAt;
      RunOne(start, By(k, Look));
    }
  }

  // ----- the whole call

  lemma {:induction false} PathsRun(w: World, k: nat, n: nat)
    requires k < |w.jobs| && n <= |w.jobs[k].paths|
    ensures var found := AllFound(w.disk, w.jobs[k].paths[..n]); var t := TreeOf(w.head);
            Run(StagingAt(w, k, t, [], NotLooked), AllSteps(w.disk, k, w.jobs[k].paths[..n])) ==
            StagingAt(w, k, Apply(t, found), found, NotLooked)
    decreases n
  {
    hide Edit, StagingAt, PathSteps;
    var t, paths := TreeOf(w.head), w.jobs[k].paths;
    var start := StagingAt(w, k, t, [], NotLooked);
    if n == 0 {
      assert AllFound(w.disk, paths[..0]) == [];
    } else {
      var before, found := AllFound(w.disk, paths[..n - 1]), Found(w.disk, paths[n - 1]);
      assert paths[..n][..n - 1] == paths[..n - 1] && paths[..n][n - 1] == paths[n - 1];
      assert AllFound(w.disk, paths[..n]) == before + [found];
      assert (before + [found])[..n - 1] == before;
      PathsRun(w, k, n - 1);
      RunConcat(start, AllSteps(w.disk, k, paths[..n - 1]), PathSteps(w.disk, k, paths[n - 1]));
      PathRuns(w, k, Apply(t, before), before);
    }
  }

  /** Where an undisturbed call ends. */
  function Ended(w: World, k: nat, time: nat): World
    requires k < |w.jobs|
  {
    var job := w.jobs[k];
    var found := AllFound(w.disk, job.paths);
    var tree := Apply(TreeOf(w.head), found);
    var c := Commit(w.head, tree, job.message, time);
    if tree == TreeOf(w.head) then SetPhase(w, k, NothingToDo(w.head, found))
    else SetPhase(w.(head := Some(c)), k, Committed(c, found))
  }

  lemma CallEnds(w: World, k: nat, time: nat)
    requires k < |w.jobs|
    ensures var found := AllFound(w.disk, w.jobs[k].paths);
            Run(StagingAt(w, k, Apply(TreeOf(w.head), found), found, NotLooked), [By(k, WriteTree), By(k, Land(time)), By(k, RefreshIndex(true))])
            == Ended(w, k, time)
  {
    var found := AllFound(w.disk, w.jobs[k].paths);
    var s0 := StagingAt(w, k, Apply(TreeOf(w.head), found), found, NotLooked);
    RunThree(s0, By(k, WriteTree), By(k, Land(time)), By(k, RefreshIndex(true)));
    hide Run, Apply, AllFound;
    var s1 := Do(s0, By(k, WriteTree));
    assert s0.jobs[k].phase == Staging(w.head, Apply(TreeOf(w.head), found), found, NotLooked) && !AtPath(s0.jobs[k]);
    if Apply(TreeOf(w.head), found) == TreeOf(w.head) {
      assert s1 == SetPhase(w, k, NothingToDo(w.head, found));
    } else {
      assert s1 == SetPhase(w, k, Written(w.head, Apply(TreeOf(w.head), found), found));
    }
  }

  /** Run on its own to its end, whatever its names: the commit on top of `HEAD` has `HEAD`'s tree
      with every named path as it is on disk, bytes and mode, in the order named, or nothing is
      committed if that changes nothing; nothing else in the world moves. */
  lemma QuietCall(w: World, k: nat, time: nat)
    requires k < |w.jobs| && w.jobs[k].phase == Begun
    ensures Run(w, WholeCall(w.disk, k, w.jobs[k].paths, time)) == Ended(w, k, time)
  {
    var paths := w.jobs[k].paths;
    var first, middle := [By(k, Snapshot)], AllSteps(w.disk, k, paths);
    var last := [By(k, WriteTree), By(k, Land(time)), By(k, RefreshIndex(true))];
    RunConcat(w, first + middle, last);
    RunConcat(w, first, middle);
    RunOne(w, By(k, Snapshot));
    Snapshots(w, k);
    hide Run, Do, StagingAt, AllSteps, Ended;
    PathsRun(w, k, |paths|);
    assert paths[..|paths|] == paths;
    CallEnds(w, k, time);
  }

  lemma Snapshots(w: World, k: nat)
    requires k < |w.jobs| && w.jobs[k].phase == Begun
    ensures Do(w, By(k, Snapshot)) == StagingAt(w, k, TreeOf(w.head), [], NotLooked)
  {
  }
}
