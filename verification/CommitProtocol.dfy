/** `commit_paths` as a protocol: any number of calls interleaved, step by step, with each other
    and with whatever else moves `HEAD` or writes files. */
module CommitProtocol {
  import opened Text
  import opened SlashPaths
  import opened GitTrees

  /** Commit ids are content addresses, so a commit is what it records. */
  datatype Commit = Commit(parent: Option<Commit>, tree: Tree, message: string, time: nat)

  datatype File = File(bytes: string, executable: bool)

  /** How far the call has got with the path it is at. */
  datatype Probe = NotLooked | IsFile | HaveBytes(bytes: string)

  /** Where a call is, with the snapshot and the staged paths it has worked from. */
  datatype Phase =
    | Begun
    | Staging(snapshot: Option<Commit>, tree: Tree, staged: seq<Staged>, probe: Probe)
    | Written(snapshot: Option<Commit>, tree: Tree, staged: seq<Staged>)
    | Landed(commit: Commit, staged: seq<Staged>)
    | Committed(commit: Commit, staged: seq<Staged>)
    | NothingToDo(snapshot: Option<Commit>, staged: seq<Staged>)
    | Failed
    | FailedAfterLanding(commit: Commit, staged: seq<Staged>)

  datatype Job = Job(message: string, paths: seq<string>, phase: Phase)

  datatype World = World(head: Option<Commit>, disk: map<string, File>, jobs: seq<Job>)

  /** A step of one call. It may break off at any point before it lands; after landing it still
      has the index to refresh, which may fail too. */
  datatype Step =
    | Snapshot | Look | ReadBytes | ReadMode | WriteTree | Land(time: nat) | RefreshIndex(ok: bool) | BreakOff

  datatype Action = By(k: nat, step: Step) | Foreign(head: Option<Commit>) | DiskWrite(path: string, file: Option<File>)

  function TreeOf(head: Option<Commit>): Tree {
    match head
    case None => map[]
    case Some(c) => c.tree
  }

  function SetPhase(w: World, k: nat, phase: Phase): World
    requires k < |w.jobs|
  {
    w.(jobs := w.jobs[k := w.jobs[k].(phase := phase)])
  }

  /** The path the call is at, if it has any left. */
  predicate AtPath(job: Job) {
    job.phase.Staging? && |job.phase.staged| < |job.paths|
  }

  function Stage(w: World, k: nat, blob: Option<Blob>): World
    requires k < |w.jobs| && AtPath(w.jobs[k])
  {
    var phase := w.jobs[k].phase;
    var entry := Staged(w.jobs[k].paths[|phase.staged|], blob);
    SetPhase(w, k, phase.(tree := Edit(phase.tree, entry), staged := phase.staged + [entry], probe := NotLooked))
  }

  /** Looking at the path, reading it and reading its mode are three separate moments. */
  function DoLook(w: World, k: nat): World
    requires k < |w.jobs|
  {
    var job := w.jobs[k];
    if !AtPath(job) || job.phase.probe != NotLooked then w
    else if job.paths[|job.phase.staged|] in w.disk then SetPhase(w, k, job.phase.(probe := IsFile))
    else Stage(w, k, None)
  }

  function DoRead(w: World, k: nat): World
    requires k < |w.jobs|
  {
    var job := w.jobs[k];
    if !AtPath(job) || job.phase.probe != IsFile then w
    else
      var path := job.paths[|job.phase.staged|];
      if path in w.disk then SetPhase(w, k, job.phase.(probe := HaveBytes(w.disk[path].bytes)))
      else SetPhase(w, k, Failed)
  }

  /** A file that has vanished by now has no executable bit. */
  function DoMode(w: World, k: nat): World
    requires k < |w.jobs|
  {
    var job := w.jobs[k];
    if !AtPath(job) || !job.phase.probe.HaveBytes? then w
    else
      var path := job.paths[|job.phase.staged|];
      Stage(w, k, Some(Blob(job.phase.probe.bytes, path in w.disk && w.disk[path].executable)))
  }

  function DoWrite(w: World, k: nat): World
    requires k < |w.jobs|
  {
    var job := w.jobs[k];
    if !job.phase.Staging? || AtPath(job) then w
    else if job.phase.tree == TreeOf(job.phase.snapshot) then SetPhase(w, k, NothingToDo(job.phase.snapshot, job.phase.staged))
    else SetPhase(w, k, Written(job.phase.snapshot, job.phase.tree, job.phase.staged))
  }

  /** The compare-and-swap: `HEAD` moves only if it still is the snapshot. */
  function DoLand(w: World, k: nat, time: nat): World
    requires k < |w.jobs|
  {
    var job := w.jobs[k];
    if !job.phase.Written? then w
    else if w.head != job.phase.snapshot then SetPhase(w, k, Failed)
    else
      var c := Commit(job.phase.snapshot, job.phase.tree, job.message, time);
      SetPhase(w.(head := Some(c)), k, Landed(c, job.phase.staged))
  }

  function DoStep(w: World, k: nat, step: Step): World
    requires k < |w.jobs|
  {
    var phase := w.jobs[k].phase;
    match step
    case Snapshot => if phase.Begun? then SetPhase(w, k, Staging(w.head, TreeOf(w.head), [], NotLooked)) else w
    case Look => DoLook(w, k)
    case ReadBytes => DoRead(w, k)
    case ReadMode => DoMode(w, k)
    case WriteTree => DoWrite(w, k)
    case Land(time) => DoLand(w, k, time)
    case RefreshIndex(ok) =>
      if !phase.Landed? then w
      else SetPhase(w, k, if ok then Committed(phase.commit, phase.staged) else FailedAfterLanding(phase.commit, phase.staged))
    case BreakOff => if phase.Begun? || phase.Staging? || phase.Written? then SetPhase(w, k, Failed) else w
  }

  function Do(w: World, a: Action): World {
    match a
    case By(k, step) => if k < |w.jobs| then DoStep(w, k, step) else w
    case Foreign(head) => w.(head := head)
    case DiskWrite(path, file) => w.(disk := if file.Some? then w.disk[path := file.value] else w.disk - {path})
  }

  function Run(w: World, actions: seq<Action>): World
    decreases |actions|
  {
    if actions == [] then w else Do(Run(w, actions[..|actions| - 1]), actions[|actions| - 1])
  }

  // ----- what every step keeps

  /** The staged paths are the call's paths in order. */
  predicate Names(staged: seq<Staged>, paths: seq<string>) {
    |staged| <= |paths| && forall i :: 0 <= i < |staged| ==> staged[i].path == paths[i]
  }

  ghost predicate LandedAs(job: Job, c: Commit, staged: seq<Staged>) {
    Names(staged, job.paths) && |staged| == |job.paths|
    && c.tree == Apply(TreeOf(c.parent), staged) && c.tree != TreeOf(c.parent) && c.message == job.message
  }

  /** A call's tree is its snapshot's with its staged paths edited in. */
  ghost predicate JobOk(job: Job) {
    match job.phase
    case Staging(snapshot, tree, staged, _) => Names(staged, job.paths) && tree == Apply(TreeOf(snapshot), staged)
    case Written(snapshot, tree, staged) =>
      Names(staged, job.paths) && |staged| == |job.paths| && tree == Apply(TreeOf(snapshot), staged) && tree != TreeOf(snapshot)
    case Landed(c, staged) => LandedAs(job, c, staged)
    case Committed(c, staged) => LandedAs(job, c, staged)
    case FailedAfterLanding(c, staged) => LandedAs(job, c, staged)
    case NothingToDo(snapshot, staged) =>
      Names(staged, job.paths) && |staged| == |job.paths| && Apply(TreeOf(snapshot), staged) == TreeOf(snapshot)
    case _ => true
  }

  ghost predicate Fresh(w: World) {
    forall k :: 0 <= k < |w.jobs| ==> w.jobs[k].phase == Begun
  }

  ghost predicate WorldOk(w: World) {
    forall k :: 0 <= k < |w.jobs| ==> JobOk(w.jobs[k])
  }

  lemma StageKeeps(w: World, k: nat, blob: Option<Blob>)
    requires WorldOk(w) && k < |w.jobs| && AtPath(w.jobs[k])
    ensures WorldOk(Stage(w, k, blob))
  {
    var staged := w.jobs[k].phase.staged;
    var entry := Staged(w.jobs[k].paths[|staged|], blob);
    assert (staged + [entry])[..|staged|] == staged;
  }

  lemma LookKeeps(w: World, k: nat)
    requires WorldOk(w) && k < |w.jobs|
    ensures WorldOk(DoLook(w, k)) && |DoLook(w, k).jobs| == |w.jobs|
    ensures WorldOk(DoMode(w, k)) && |DoMode(w, k).jobs| == |w.jobs|
  {
    hide Edit, Apply;
    var job := w.jobs[k];
    if AtPath(job) {
      StageKeeps(w, k, None);
      if job.phase.probe.HaveBytes? {
        var path := job.paths[|job.phase.staged|];
        StageKeeps(w, k, Some(Blob(job.phase.probe.bytes, path in w.disk && w.disk[path].executable)));
      }
    }
  }

  lemma StepKeeps(w: World, k: nat, step: Step)
    requires WorldOk(w) && k < |w.jobs|
    ensures WorldOk(DoStep(w, k, step)) && |DoStep(w, k, step).jobs| == |w.jobs|
  {
    if step.Look? || step.ReadMode? {
      LookKeeps(w, k);
      hide *;
    } else {
      hide Edit, Names;
      assert JobOk(w.jobs[k]);
    }
  }

  lemma DoKeeps(w: World, a: Action)
    requires WorldOk(w)
    ensures WorldOk(Do(w, a)) && |Do(w, a).jobs| == |w.jobs|
    ensures forall k :: 0 <= k < |w.jobs| ==>
              Do(w, a).jobs[k].paths == w.jobs[k].paths && Do(w, a).jobs[k].message == w.jobs[k].message
  {
    SameCalls(w, a);
    if a.By? && a.k < |w.jobs| { StepKeeps(w, a.k, a.step); }
    hide DoStep, JobOk;
  }

  lemma SameCalls(w: World, a: Action)
    ensures |Do(w, a).jobs| == |w.jobs|
    ensures forall k :: 0 <= k < |w.jobs| ==>
              Do(w, a).jobs[k].paths == w.jobs[k].paths && Do(w, a).jobs[k].message == w.jobs[k].message
  {
    hide Edit, TreeOf;
  }

  lemma {:induction false} RunKeeps(w: World, actions: seq<Action>)
    requires Fresh(w)
    ensures WorldOk(Run(w, actions)) && |Run(w, actions).jobs| == |w.jobs|
    ensures forall k :: 0 <= k < |w.jobs| ==>
              Run(w, actions).jobs[k].paths == w.jobs[k].paths && Run(w, actions).jobs[k].message == w.jobs[k].message
    decreases |actions|
  {
    hide Do, JobOk;
    if actions == [] {
      FreshOk(w);
    } else {
      RunKeeps(w, actions[..|actions| - 1]);
      DoKeeps(Run(w, actions[..|actions| - 1]), actions[|actions| - 1]);
    }
  }

  lemma FreshOk(w: World)
    requires Fresh(w)
    ensures WorldOk(w)
  {
  }

  // ----- what moves HEAD

  /** Call `k` lands at this step. */
  predicate Lands(w: World, a: Action, k: nat) {
    a.By? && a.step.Land? && a.k == k && k < |w.jobs| && w.jobs[k].phase.Written? && w.head == w.jobs[k].phase.snapshot
  }

  /** At any moment of any interleaving, `HEAD` moves only because somebody else moved it or
      because a call lands; a call that lands puts one commit on top of what `HEAD` was at that
      very moment, and that commit's tree is `HEAD`'s with the call's own paths edited in. */
  lemma HeadMovesOnlyByLanding(w: World, before: seq<Action>, a: Action)
    requires Fresh(w)
    ensures var was := Run(w, before); var now := Do(was, a);
            if a.Foreign? then now.head == a.head
            else if a.By? && Lands(was, a, a.k) then
              now.head.Some? && now.head.value.parent == was.head && now.head.value.time == a.step.time
              && now.jobs[a.k].phase == Landed(now.head.value, was.jobs[a.k].phase.staged)
              && LandedAs(now.jobs[a.k], now.head.value, was.jobs[a.k].phase.staged)
            else now.head == was.head
  {
    RunKeeps(w, before);
    var was := Run(w, before);
    DoKeeps(was, a);
    hide Run, Apply, Edit;
    if a.By? && a.k < |was.jobs| { assert JobOk(was.jobs[a.k]); }
  }

  /** How often call `k` has moved `HEAD`. */
  function Landings(w: World, actions: seq<Action>, k: nat): nat
    decreases |actions|
  {
    if actions == [] then 0
    else
      var before := actions[..|actions| - 1];
      Landings(w, before, k) + if Lands(Run(w, before), actions[|actions| - 1], k) then 1 else 0
  }

  predicate HasLanded(phase: Phase) {
    phase.Landed? || phase.Committed? || phase.FailedAfterLanding?
  }

  /** Over a whole run a call moves `HEAD` at most once, and it has done so exactly when it reports
      a commit or failed while refreshing the index afterwards. */
  lemma {:induction false} LandsAtMostOnce(w: World, actions: seq<Action>, k: nat)
    requires Fresh(w) && k < |w.jobs|
    ensures |Run(w, actions).jobs| == |w.jobs|
    ensures Landings(w, actions, k) == if HasLanded(Run(w, actions).jobs[k].phase) then 1 else 0
    decreases |actions|
  {
    RunKeeps(w, actions);
    if actions != [] {
      var before := actions[..|actions| - 1];
      LandsAtMostOnce(w, before, k);
      PhaseSteps(Run(w, before), actions[|actions| - 1], k);
    }
  }

  lemma PhaseSteps(w: World, a: Action, k: nat)
    requires k < |w.jobs|
    ensures |Do(w, a).jobs| == |w.jobs|
    ensures HasLanded(Do(w, a).jobs[k].phase) <==> HasLanded(w.jobs[k].phase) || Lands(w, a, k)
    ensures Lands(w, a, k) ==> !HasLanded(w.jobs[k].phase)
  {
    hide Edit;
  }

  /** The compare-and-swap of call `k` meets a `HEAD` that is no longer its snapshot. */
  predicate MeetsStale(w: World, actions: seq<Action>, i: nat, k: nat)
    requires i < |actions|
  {
    var was := Run(w, actions[..i]);
    actions[i].By? && actions[i].k == k && actions[i].step.Land?
    && k < |was.jobs| && was.jobs[k].phase.Written? && was.head != was.jobs[k].phase.snapshot
  }

  lemma FailedStays(w: World, a: Action, k: nat)
    requires k < |w.jobs| && w.jobs[k].phase == Failed
    ensures k < |Do(w, a).jobs| && Do(w, a).jobs[k].phase == Failed
  {
    hide Edit;
  }

  lemma StaleLandFails(w: World, a: Action, k: nat)
    requires a.By? && a.k == k && a.step.Land? && k < |w.jobs| && w.jobs[k].phase.Written? && w.head != w.jobs[k].phase.snapshot
    ensures k < |Do(w, a).jobs| && Do(w, a).jobs[k].phase == Failed
  {
    hide DoLook, DoRead, DoMode, DoWrite;
  }

  /** A call whose snapshot is stale when it comes to land has failed for good: in every later state
      of every run it reports the failure and none of its steps has ever moved `HEAD`. */
  lemma StaleFails(w: World, actions: seq<Action>, i: nat, k: nat)
    requires Fresh(w) && k < |w.jobs| && i < |actions| && MeetsStale(w, actions, i, k)
    ensures k < |Run(w, actions).jobs| && Run(w, actions).jobs[k].phase == Failed
    ensures Landings(w, actions, k) == 0
  {
    LandsAtMostOnce(w, actions, k);
    StaleStays(w, actions, i, k);
    hide Do, Fresh, Run, Landings, MeetsStale;
  }

  lemma {:induction false} StaleStays(w: World, actions: seq<Action>, i: nat, k: nat)
    requires i < |actions| && MeetsStale(w, actions, i, k)
    ensures k < |Run(w, actions).jobs| && Run(w, actions).jobs[k].phase == Failed
    decreases |actions|
  {
    var n := |actions| - 1;
    var before := actions[..n];
    RunLast(w, actions);
    if i == n {
      hide Run, Do;
      StaleLandFails(Run(w, before), actions[n], k);
    } else {
      StaleEarlier(w, actions, i, k);
      hide Run, Do, MeetsStale;
      StaleStays(w, before, i, k);
      FailedStays(Run(w, before), actions[n], k);
    }
  }

  lemma StaleEarlier(w: World, actions: seq<Action>, i: nat, k: nat)
    requires i < |actions| - 1 && MeetsStale(w, actions, i, k)
    ensures MeetsStale(w, actions[..|actions| - 1], i, k)
  {
    hide Run;
    assert actions[..|actions| - 1][..i] == actions[..i];
  }

  lemma RunLast(w: World, actions: seq<Action>)
    requires actions != []
    ensures Run(w, actions) == Do(Run(w, actions[..|actions| - 1]), actions[|actions| - 1])
  {
    hide Do;
  }

  /** Call `k` comes to read a file it has seen and that is gone by now. */
  predicate MeetsVanished(w: World, actions: seq<Action>, i: nat, k: nat)
    requires i < |actions|
  {
    var was := Run(w, actions[..i]);
    actions[i].By? && actions[i].k == k && actions[i].step.ReadBytes?
    && k < |was.jobs| && AtPath(was.jobs[k]) && was.jobs[k].phase.probe == IsFile
    && was.jobs[k].paths[|was.jobs[k].phase.staged|] !in was.disk
  }

  /** It has failed for good too: a file that vanishes while it is read is never taken for a
      removal. */
  lemma VanishedFails(w: World, actions: seq<Action>, i: nat, k: nat)
    requires Fresh(w) && k < |w.jobs| && i < |actions| && MeetsVanished(w, actions, i, k)
    ensures k < |Run(w, actions).jobs| && Run(w, actions).jobs[k].phase == Failed
    ensures Landings(w, actions, k) == 0
  {
    LandsAtMostOnce(w, actions, k);
    VanishedStays(w, actions, i, k);
    hide Do, Fresh, Run, Landings, MeetsVanished;
  }

  lemma VanishedReadFails(w: World, a: Action, k: nat)
    requires a.By? && a.k == k && a.step.ReadBytes? && k < |w.jobs| && AtPath(w.jobs[k]) && w.jobs[k].phase.probe == IsFile
    requires w.jobs[k].paths[|w.jobs[k].phase.staged|] !in w.disk
    ensures k < |Do(w, a).jobs| && Do(w, a).jobs[k].phase == Failed
  {
    hide DoLook, DoMode, DoWrite, DoLand;
  }

  lemma {:induction false} VanishedStays(w: World, actions: seq<Action>, i: nat, k: nat)
    requires i < |actions| && MeetsVanished(w, actions, i, k)
    ensures k < |Run(w, actions).jobs| && Run(w, actions).jobs[k].phase == Failed
    decreases |actions|
  {
    var n := |actions| - 1;
    var before := actions[..n];
    RunLast(w, actions);
    if i == n {
      hide Run, Do;
      VanishedReadFails(Run(w, before), actions[n], k);
    } else {
      assert before[..i] == actions[..i] && before[i] == actions[i];
      assert MeetsVanished(w, before, i, k);
      hide Run, Do, MeetsVanished;
      VanishedStays(w, before, i, k);
      FailedStays(Run(w, before), actions[n], k);
    }
  }

  // ----- nothing is reverted behind anybody's back

  /** The step is a landing whose named paths reach `q`. */
  predicate Answers(w: World, a: Action, q: string) {
    a.Foreign? ||
    (a.By? && Lands(w, a, a.k) && Names(w.jobs[a.k].phase.staged, w.jobs[a.k].paths)
     && exists i :: 0 <= i < |w.jobs[a.k].phase.staged| && Touches(w.jobs[a.k].phase.staged[i], q))
  }

  lemma StepAnswers(w: World, before: seq<Action>, a: Action, q: string)
    requires Fresh(w)
    requires Lookup(TreeOf(Do(Run(w, before), a).head), q) != Lookup(TreeOf(Run(w, before).head), q)
    ensures Answers(Run(w, before), a, q)
  {
    var was := Run(w, before);
    HeadMovesOnlyByLanding(w, before, a);
    hide Run, Do, Apply, Touches;
    if !a.Foreign? {
      assert a.By? && Lands(was, a, a.k);
      var staged := was.jobs[a.k].phase.staged;
      if !Touched(staged, q) { UntouchedKept(TreeOf(was.head), staged, q); }
      RunKeeps(w, before);
      assert JobOk(was.jobs[a.k]);
    }
  }

  /** Whenever `HEAD`'s content at a path changes between two moments of a run, in between either
      somebody else moved `HEAD`, or a call landed that named the path, something above it, or a
      file that now stands where the path had to go. No call reverts what it did not name. */
  lemma {:induction false} NothingRevertedSilently(w: World, actions: seq<Action>, from: nat, q: string) returns (i: nat)
    requires Fresh(w) && from <= |actions|
    requires Lookup(TreeOf(Run(w, actions).head), q) != Lookup(TreeOf(Run(w, actions[..from]).head), q)
    ensures from <= i < |actions| && Answers(Run(w, actions[..i]), actions[i], q)
    decreases |actions|
  {
    hide Do, Answers;
    var last := |actions| - 1;
    assert actions[..|actions|] == actions;
    assert from <= last;
    var before := actions[..last];
    assert Run(w, actions) == Do(Run(w, before), actions[last]);
    assert before[..from] == actions[..from];
    if Lookup(TreeOf(Run(w, actions).head), q) != Lookup(TreeOf(Run(w, before).head), q) {
      StepAnswers(w, before, actions[last], q);
      i := last;
    } else {
      i := NothingRevertedSilently(w, before, from, q);
      assert before[..i] == actions[..i];
    }
  }

  /** Without anybody else's moves no commit is lost: every earlier `HEAD` is an ancestor of every
      later one. */
  ghost predicate Ancestor(a: Option<Commit>, c: Option<Commit>)
    decreases c
  {
    a == c || (c.Some? && Ancestor(a, c.value.parent))
  }

  lemma {:induction false} NoCommitLost(w: World, actions: seq<Action>, from: nat)
    requires Fresh(w) && from <= |actions| && forall i :: from <= i < |actions| ==> !actions[i].Foreign?
    ensures Ancestor(Run(w, actions[..from]).head, Run(w, actions).head)
    decreases |actions|
  {
    hide Do, Lands, LandedAs;
    if from == |actions| {
      assert actions[..from] == actions;
    } else {
      var before := actions[..|actions| - 1];
      assert before[..from] == actions[..from];
      NoCommitLost(w, before, from);
      HeadMovesOnlyByLanding(w, before, actions[|actions| - 1]);
    }
  }

  // ----- what was read

  /** At some moment of the run the disk held these bytes at the path. */
  ghost predicate Held(w: World, actions: seq<Action>, path: string, bytes: string) {
    exists j :: 0 <= j <= |actions| && path in Run(w, actions[..j]).disk && Run(w, actions[..j]).disk[path].bytes == bytes
  }

  ghost predicate WasAbsent(w: World, actions: seq<Action>, path: string) {
    exists j :: 0 <= j <= |actions| && path !in Run(w, actions[..j]).disk
  }

  predicate IsExecutable(disk: map<string, File>, path: string) {
    path in disk && disk[path].executable
  }

  /** There was a moment by which the disk had held the blob's bytes at the path, and at which the
      path was executable or not as the blob is. */
  ghost predicate HeldAs(w: World, actions: seq<Action>, path: string, blob: Blob) {
    exists j :: 0 <= j <= |actions| && Held(w, actions[..j], path, blob.bytes)
                && (blob.executable <==> IsExecutable(Run(w, actions[..j]).disk, path))
  }

  ghost predicate ReadFrom(w: World, actions: seq<Action>, s: Staged) {
    if s.blob.Some? then HeldAs(w, actions, s.path, s.blob.value) else WasAbsent(w, actions, s.path)
  }

  function StagedOf(phase: Phase): seq<Staged> {
    if phase.Begun? || phase.Failed? then [] else phase.staged
  }

  ghost predicate AllRead(w: World, actions: seq<Action>, job: Job) {
    && (forall i :: 0 <= i < |StagedOf(job.phase)| ==> ReadFrom(w, actions, StagedOf(job.phase)[i]))
    && (AtPath(job) && job.phase.probe.HaveBytes? ==>
          Held(w, actions, job.paths[|job.phase.staged|], job.phase.probe.bytes))
  }

  lemma ReadStays(w: World, before: seq<Action>, a: Action, s: Staged)
    requires ReadFrom(w, before, s)
    ensures ReadFrom(w, before + [a], s)
  {
    hide Run, Held;
    var after := before + [a];
    if s.blob.Some? {
      var blob := s.blob.value;
      var j :| 0 <= j <= |before| && Held(w, before[..j], s.path, blob.bytes)
               && (blob.executable <==> IsExecutable(Run(w, before[..j]).disk, s.path));
      assert after[..j] == before[..j];
      assert Held(w, after[..j], s.path, blob.bytes);
    } else {
      var j :| 0 <= j <= |before| && s.path !in Run(w, before[..j]).disk;
      assert after[..j] == before[..j];
    }
  }

  lemma ReadNow(w: World, before: seq<Action>, a: Action, path: string)
    ensures path in Run(w, before).disk ==> Held(w, before + [a], path, Run(w, before).disk[path].bytes)
    ensures path !in Run(w, before).disk ==> WasAbsent(w, before + [a], path)
  {
    hide Run;
    assert (before + [a])[..|before|] == before;
  }

  /** What a step adds to a call's staged paths comes from its probe, or from the disk of that
      moment if the path is gone. */
  ghost predicate StagesWhatItKnows(w: World, job: Job, job': Job) {
    var staged, staged' := StagedOf(job.phase), StagedOf(job'.phase);
    || staged' == [] || staged' == staged
    || (AtPath(job) && |staged'| == |staged| + 1 && staged'[..|staged|] == staged
        && var s := staged'[|staged|];
           s.path == job.paths[|staged|] && (if s.blob.Some? then job.phase.probe == HaveBytes(s.blob.value.bytes) && (s.blob.value.executable <==> IsExecutable(w.disk, s.path))
               else s.path !in w.disk))
  }

  /** And what its probe holds it already held, or it comes from the disk of that moment. */
  ghost predicate ProbesWhatIsThere(w: World, job: Job, job': Job) {
    AtPath(job') && job'.phase.probe.HaveBytes? ==>
      AtPath(job) && job.phase.staged == job'.phase.staged
      && var path := job.paths[|job.phase.staged|];
         job.phase.probe == job'.phase.probe || (path in w.disk && w.disk[path].bytes == job'.phase.probe.bytes)
  }

  lemma StepReads(w: World, a: Action, k: nat)
    requires k < |w.jobs|
    ensures |Do(w, a).jobs| == |w.jobs| && Do(w, a).jobs[k].paths == w.jobs[k].paths
    ensures StagesWhatItKnows(w, w.jobs[k], Do(w, a).jobs[k]) && ProbesWhatIsThere(w, w.jobs[k], Do(w, a).jobs[k])
  {
    hide Edit;
  }

  /** Everything a call stages it read: the bytes of a staged file were on disk at that path at
      some moment of the run, its mode is the one it had there at that moment or a later one, and a
      path staged as gone was absent at some moment. */
  lemma {:induction false} StagedWasRead(w: World, actions: seq<Action>, k: nat)
    requires Fresh(w) && k < |w.jobs|
    ensures |Run(w, actions).jobs| == |w.jobs| && AllRead(w, actions, Run(w, actions).jobs[k])
    decreases |actions|
  {
    RunKeeps(w, actions);
    if actions != [] {
      var before, a := actions[..|actions| - 1], actions[|actions| - 1];
      assert actions == before + [a];
      StagedWasRead(w, before, k);
      ReadStep(w, before, a, k);
    }
  }

  lemma ReadStep(w: World, before: seq<Action>, a: Action, k: nat)
    requires k < |Run(w, before).jobs| && AllRead(w, before, Run(w, before).jobs[k])
    ensures k < |Do(Run(w, before), a).jobs| && AllRead(w, before + [a], Do(Run(w, before), a).jobs[k])
  {
    hide Run, Do, ReadFrom, Held;
    var was := Run(w, before);
    StepReads(was, a, k);
    StagedStep(w, before, a, was.jobs[k], Do(was, a).jobs[k]);
    hide StagesWhatItKnows;
    var job := was.jobs[k];
    if AtPath(job) { ReadNow(w, before, a, job.paths[|job.phase.staged|]); }
    if AtPath(job) && job.phase.probe.HaveBytes? {
      HeldStays(w, before, a, job.paths[|job.phase.staged|], job.phase.probe.bytes);
    }
  }

  lemma HeldStays(w: World, before: seq<Action>, a: Action, path: string, bytes: string)
    requires Held(w, before, path, bytes)
    ensures Held(w, before + [a], path, bytes)
  {
    hide Run;
    var j :| 0 <= j <= |before| && path in Run(w, before[..j]).disk && Run(w, before[..j]).disk[path].bytes == bytes;
    assert (before + [a])[..j] == before[..j];
  }

  lemma HeldNow(w: World, before: seq<Action>, a: Action, path: string, blob: Blob)
    requires Held(w, before, path, blob.bytes) && (blob.executable <==> IsExecutable(Run(w, before).disk, path))
    ensures HeldAs(w, before + [a], path, blob)
  {
    hide Run, Held;
    var n := |before|;
    assert (before + [a])[..n] == before;
    assert Held(w, (before + [a])[..n], path, blob.bytes);
  }

  lemma StagedStep(w: World, before: seq<Action>, a: Action, job: Job, job': Job)
    requires AllRead(w, before, job) && StagesWhatItKnows(Run(w, before), job, job')
    ensures forall i :: 0 <= i < |StagedOf(job'.phase)| ==> ReadFrom(w, before + [a], StagedOf(job'.phase)[i])
  {
    hide Run, Held, WasAbsent;
    var staged, staged' := StagedOf(job.phase), StagedOf(job'.phase);
    forall i | 0 <= i < |staged'| ensures ReadFrom(w, before + [a], staged'[i]) {
      if i < |staged| {
        assert staged'[i] == staged[i];
        ReadStays(w, before, a, staged[i]);
      } else {
        ReadNow(w, before, a, staged'[i].path);
        if staged'[i].blob.Some? { HeldNow(w, before, a, staged'[i].path, staged'[i].blob.value); }
      }
    }
  }

  /** The whole contract of a call that landed, whatever it goes on to report and whatever names
      it was given: everything it staged it read during the run; the commit agrees with its parent
      wherever no named path reaches, and everywhere else is what the last edit to reach there
      left; so it holds at each named path the bytes and the mode read there, or nothing where the
      path was gone, unless a later name reaches it too, as none does if the names are separate. */
  lemma CommittedMeans(w: World, actions: seq<Action>, k: nat)
    requires Fresh(w) && k < |w.jobs| && |Run(w, actions).jobs| == |w.jobs| && HasLanded(Run(w, actions).jobs[k].phase)
    ensures var job := Run(w, actions).jobs[k]; var c := job.phase.commit; var staged := job.phase.staged;
            Names(staged, w.jobs[k].paths) && |staged| == |w.jobs[k].paths|
            && (forall i :: 0 <= i < |staged| ==> ReadFrom(w, actions, staged[i]))
            && (forall i: nat, q :: LastTouches(staged, i, q) ==> Lookup(c.tree, q) == Puts(staged[i], q))
            && (forall q :: !Touched(staged, q) ==> Lookup(c.tree, q) == Lookup(TreeOf(c.parent), q))
            && (Separate(staged) ==> forall i :: 0 <= i < |staged| ==> Lookup(c.tree, w.jobs[k].paths[i]) == staged[i].blob)
  {
    hide Run, ReadFrom, HeldAs, Apply, Separate, Touched, LastTouches, Puts, Lookup, Fresh;
    RunKeeps(w, actions);
    StagedWasRead(w, actions, k);
    var job := Run(w, actions).jobs[k];
    assert LandedAs(job, job.phase.commit, job.phase.staged) by { assert JobOk(job); }
    hide WorldOk;
    TreeHolds(job.phase.commit, job.phase.staged);
    var staged := job.phase.staged;
    forall i | 0 <= i < |staged| ensures ReadFrom(w, actions, staged[i]) {
      assert StagedOf(job.phase)[i] == staged[i];
    }
  }

  lemma TreeHolds(c: Commit, staged: seq<Staged>)
    requires c.tree == Apply(TreeOf(c.parent), staged)
    ensures forall i: nat, q :: LastTouches(staged, i, q) ==> Lookup(c.tree, q) == Puts(staged[i], q)
    ensures forall q :: !Touched(staged, q) ==> Lookup(c.tree, q) == Lookup(TreeOf(c.parent), q)
    ensures Separate(staged) ==> forall i :: 0 <= i < |staged| ==> Lookup(c.tree, staged[i].path) == staged[i].blob
  {
    hide Apply, Separate, Touched, Touches, Lookup;
    forall i: nat, q | LastTouches(staged, i, q) ensures Lookup(c.tree, q) == Puts(staged[i], q) {
      LastEditDecides(TreeOf(c.parent), staged, i, q);
    }
    forall q | !Touched(staged, q) { UntouchedKept(TreeOf(c.parent), staged, q); }
    if Separate(staged) {
      forall i | 0 <= i < |staged| { SeparateHold(TreeOf(c.parent), staged, i); }
    }
  }

  /** A call reports that there was nothing to commit only if its snapshot already was, wherever
      its names reach, as its edits leave it; with separate names on a real tree, only if every
      named path was what it found on disk. */
  lemma NothingMeansMatching(w: World, actions: seq<Action>, k: nat)
    requires Fresh(w) && k < |w.jobs| && |Run(w, actions).jobs| == |w.jobs|
    requires Run(w, actions).jobs[k].phase.NothingToDo?
    ensures var phase := Run(w, actions).jobs[k].phase; var t := TreeOf(phase.snapshot);
            Names(phase.staged, w.jobs[k].paths) && |phase.staged| == |w.jobs[k].paths| && AlreadyThere(t, phase.staged)
            && (Separate(phase.staged) && PrefixFree(t) ==> forall i :: 0 <= i < |phase.staged| ==> Matches(t, phase.staged[i]))
  {
    RunKeeps(w, actions);
    hide Run, Apply, AlreadyThere, Matches, Separate, PrefixFree;
    var job := Run(w, actions).jobs[k];
    assert JobOk(job);
    var t, staged := TreeOf(job.phase.snapshot), job.phase.staged;
    NothingToCommit(t, staged);
    if Separate(staged) && PrefixFree(t) { SeparateNothing(t, staged); }
  }

  /** And it says so exactly then, whatever `HEAD` does meanwhile. */
  lemma MatchingCommitsNothing(w: World, k: nat)
    requires WorldOk(w) && k < |w.jobs| && w.jobs[k].phase.Staging? && !AtPath(w.jobs[k])
    ensures var phase := w.jobs[k].phase; var t := TreeOf(phase.snapshot);
            var nothing := Do(w, By(k, WriteTree)).jobs[k].phase.NothingToDo?;
            (nothing <==> AlreadyThere(t, phase.staged))
            && (Separate(phase.staged) && PrefixFree(t) ==>
                  (nothing <==> forall i :: 0 <= i < |phase.staged| ==> Matches(t, phase.staged[i])))
  {
    hide Apply, AlreadyThere, Matches, Separate, PrefixFree;
    assert JobOk(w.jobs[k]);
    var t, staged := TreeOf(w.jobs[k].phase.snapshot), w.jobs[k].phase.staged;
    NothingToCommit(t, staged);
    if Separate(staged) && PrefixFree(t) { SeparateNothing(t, staged); }
  }

  // ----- a name inside another

  const KEPT := Blob("x", false)
  const NESTED: seq<Staged> := [Staged("a/b", Some(KEPT)), Staged("a", None)]
  const NESTED_STEPS: seq<Action> :=
    [By(0, Snapshot), By(0, Look), By(0, ReadBytes), By(0, ReadMode), By(0, Look), By(0, WriteTree), By(0, Land(0))]

  function Emptied(head: Commit): Commit {
    Commit(Some(head), map[], "m", 0)
  }

  /** A file and its directory, both named by a call on a disk that nobody touches, step by step. */
  function NestedAt(head: Commit, n: nat): World {
    var phase :=
      if n == 0 then Begun
      else if n == 1 then Staging(Some(head), head.tree, [], NotLooked)
      else if n == 2 then Staging(Some(head), head.tree, [], IsFile)
      else if n == 3 then Staging(Some(head), head.tree, [], HaveBytes("x"))
      else if n == 4 then Staging(Some(head), head.tree, [NESTED[0]], NotLooked)
      else if n == 5 then Staging(Some(head), map[], NESTED, NotLooked)
      else if n == 6 then Written(Some(head), map[], NESTED)
      else Landed(Emptied(head), NESTED);
    World(Some(if n < 7 then head else Emptied(head)), map["a/b" := File("x", false)], [Job("m", ["a/b", "a"], phase)])
  }

  lemma NestedEdits(t: Tree)
    requires t == map["a/b" := KEPT]
    ensures Edit(t, NESTED[0]) == t && Edit(t, NESTED[1]) == map[]
  {
    assert AtOrUnder("a/b", "a") by { assert "a" <= "a/b"; }
  }

  lemma NestedLooks(head: Commit)
    requires head.tree == map["a/b" := KEPT]
    ensures DoLook(NestedAt(head, 1), 0) == NestedAt(head, 2) && DoRead(NestedAt(head, 2), 0) == NestedAt(head, 3)
  {
  }

  lemma NestedStages(head: Commit)
    requires head.tree == map["a/b" := KEPT]
    ensures DoMode(NestedAt(head, 3), 0) == NestedAt(head, 4) && DoLook(NestedAt(head, 4), 0) == NestedAt(head, 5)
  {
    NestedEdits(head.tree);
    hide Edit;
    assert "a" != "a/b" by { assert |"a"| != |"a/b"|; }
    assert [] + [NESTED[0]] == [NESTED[0]] && [NESTED[0]] + [NESTED[1]] == NESTED;
  }

  lemma NestedLands(head: Commit)
    requires head.tree == map["a/b" := KEPT]
    ensures DoWrite(NestedAt(head, 5), 0) == NestedAt(head, 6) && DoLand(NestedAt(head, 6), 0, 0) == NestedAt(head, 7)
  {
    assert "a/b" in head.tree;
  }

  lemma NestedStep(head: Commit, n: nat)
    requires head.tree == map["a/b" := KEPT] && n < 7
    ensures Do(NestedAt(head, n), NESTED_STEPS[n]) == NestedAt(head, n + 1)
  {
    NestedLooks(head);
    NestedStages(head);
    NestedLands(head);
    NestedBegins(head);
    NestedSteps(head, n);
    hide *;
    match n case 0 => case 1 => case 2 => case 3 => case 4 => case 5 => case _ => assert n == 6;
  }

  /** What each step does, by its kind. */
  lemma NestedSteps(head: Commit, n: nat)
    requires n < 7
    ensures var w := NestedAt(head, n);
            |w.jobs| == 1 &&
            Do(w, NESTED_STEPS[n]) ==
            if n == 0 then DoStep(w, 0, Snapshot)
            else if n == 1 || n == 4 then DoLook(w, 0)
            else if n == 2 then DoRead(w, 0)
            else if n == 3 then DoMode(w, 0)
            else if n == 5 then DoWrite(w, 0)
            else DoLand(w, 0, 0)
  {
    hide DoLook, DoRead, DoMode, DoWrite, DoLand, TreeOf, SetPhase;
  }

  lemma NestedBegins(head: Commit)
    ensures DoStep(NestedAt(head, 0), 0, Snapshot) == NestedAt(head, 1)
  {
  }

  lemma {:induction false} NestedRuns(head: Commit, n: nat)
    requires head.tree == map["a/b" := KEPT] && n <= 7
    ensures Run(NestedAt(head, 0), NESTED_STEPS[..n]) == NestedAt(head, n)
  {
    hide Do, NestedAt;
    if n > 0 {
      NestedRuns(head, n - 1);
      NestedStep(head, n - 1);
      assert NESTED_STEPS[..n][..n - 1] == NESTED_STEPS[..n - 1] && NESTED_STEPS[..n][n - 1] == NESTED_STEPS[n - 1];
    }
  }

  /** The file is read and staged, the directory counts as gone, and the commit that lands has
      lost the file, which is on disk as it was. */
  lemma DirectoryNamedLosesFile(head: Commit)
    requires head.tree == map["a/b" := KEPT]
    ensures var w := World(Some(head), map["a/b" := File("x", false)], [Job("m", ["a/b", "a"], Begun)]);
            var w' := Run(w, NESTED_STEPS);
            w' == w.(head := Some(Emptied(head)), jobs := [Job("m", ["a/b", "a"], Landed(Emptied(head), NESTED))])
            && NESTED[0].blob == Some(KEPT) && "a/b" !in Emptied(head).tree
  {
    hide Run, Do;
    NestedRuns(head, 7);
    assert NESTED_STEPS[..7] == NESTED_STEPS;
  }
}
