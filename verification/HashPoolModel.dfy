/**
 The worker pool that fills a release manifest. Workers share one next index
 and each suspends twice per file, so their steps interleave freely.
 */
module HashPoolModel {
  import opened Sequences
  import opened Text
  import opened ReleaseManifest

  /** What one worker holds: nothing, an index while waiting for its size or digest, or nothing any more. */
  datatype Worker =
    | Idle
    | Sizing(index: nat)
    | Hashing(index: nat, size: nat)
    | Failed(index: nat)
    | Done

  datatype State = State(nextIndex: nat, files: seq<Option<Asset>>, workers: seq<Worker>)

  datatype Step = Claim(worker: nat) | Sized(worker: nat) | Hashed(worker: nat)

  /** The work: the paths to describe and the files behind them. */
  datatype Job = Job(sha: Digest, tree: Tree, paths: seq<string>)

  ghost predicate JobOk(job: Job) {
    forall i :: 0 <= i < |job.paths| ==> job.paths[i] in job.tree
  }

  function Empty(n: nat, workers: nat): State {
    State(0, seq(n, _ => None), seq(workers, _ => Idle))
  }

  /** `isAbsolute(path) || path.split("/").includes("..")`. */
  predicate Escapes(path: string) {
    (path != "" && path[0] == '/') || ".." in Split(path, '/')
  }

  lemma EscapesMeans(path: string)
    ensures Escapes(path) <==> "/" <= path || HasComponent(path, "..")
  {
    ComponentIff(path, "..");
  }

  predicate Enabled(s: State, step: Step) {
    step.worker < |s.workers| &&
    match step
    case Claim(w) => s.workers[w].Idle?
    case Sized(w) => s.workers[w].Sizing?
    case Hashed(w) => s.workers[w].Hashing?
  }

  predicate Holds(worker: Worker, i: nat) {
    (worker.Sizing? || worker.Hashing? || worker.Failed?) && worker.index == i
  }

  function AfterClaim(job: Job, s: State, w: nat): State
    requires w < |s.workers|
  {
    if s.nextIndex >= |job.paths| then s.(workers := s.workers[w := Done])
    else
      s.(nextIndex := s.nextIndex + 1,
         workers := s.workers[w := if Escapes(job.paths[s.nextIndex]) then Failed(s.nextIndex) else Sizing(s.nextIndex)])
  }

  /** The asset for path `i`, given the size read before hashing. */
  function Described(job: Job, i: nat, size: nat): Asset
    requires i < |job.paths| && job.paths[i] in job.tree
  {
    Asset(job.paths[i], job.sha(job.tree[job.paths[i]].content), size)
  }

  /** Whether index `i` names a file and a slot; true of every claimed index. */
  predicate InRange(job: Job, s: State, i: nat) {
    i < |job.paths| && i < |s.files| && job.paths[i] in job.tree
  }

  function Apply(job: Job, s: State, step: Step): State
    requires Enabled(s, step)
  {
    match step
    case Claim(w) => AfterClaim(job, s, w)
    case Sized(w) =>
      var i := s.workers[w].index;
      if !InRange(job, s, i) then s
      else s.(workers := s.workers[w := Hashing(i, |job.tree[job.paths[i]].content|)])
    case Hashed(w) =>
      var Hashing(i, size) := s.workers[w];
      if !InRange(job, s, i) then s
      else s.(files := s.files[i := Some(Described(job, i, size))], workers := s.workers[w := Idle])
  }

  // ----- what every step keeps -----

  ghost function Expected(job: Job, i: nat): Asset
    requires JobOk(job) && i < |job.paths|
  {
    AssetAt(job.sha, job.tree, job.paths[i])
  }

  ghost predicate HeldByOne(s: State, i: nat) {
    && (exists w :: 0 <= w < |s.workers| && Holds(s.workers[w], i))
    && (forall v, w :: 0 <= v < |s.workers| && 0 <= w < |s.workers| && Holds(s.workers[v], i) && Holds(s.workers[w], i) ==> v == w)
  }

  ghost predicate HeldByNone(s: State, i: nat) {
    forall w :: 0 <= w < |s.workers| ==> !Holds(s.workers[w], i)
  }

  /** An index is unclaimed and empty, held by one worker and empty, or written as expected and held by none. */
  ghost predicate SlotFits(job: Job, s: State, i: nat)
    requires JobOk(job) && i < |job.paths| == |s.files|
  {
    if i >= s.nextIndex then s.files[i] == None && HeldByNone(s, i)
    else if s.files[i] == None then HeldByOne(s, i)
    else s.files[i] == Some(Expected(job, i)) && !Escapes(job.paths[i]) && HeldByNone(s, i)
  }

  /** A worker holds a claimed index with the right size, and stops only when all are claimed. */
  ghost predicate WorkerFits(job: Job, s: State, w: nat)
    requires JobOk(job) && w < |s.workers|
  {
    match s.workers[w]
    case Idle => true
    case Sizing(i) => i < s.nextIndex <= |job.paths| && !Escapes(job.paths[i])
    case Hashing(i, size) => i < s.nextIndex <= |job.paths| && !Escapes(job.paths[i]) && size == Expected(job, i).size
    case Failed(i) => i < s.nextIndex <= |job.paths| && Escapes(job.paths[i])
    case Done => s.nextIndex >= |job.paths|
  }

  ghost predicate Inv(job: Job, s: State) {
    && JobOk(job) && |s.files| == |job.paths| && s.nextIndex <= |job.paths|
    && (forall i :: 0 <= i < |s.files| ==> SlotFits(job, s, i))
    && (forall w :: 0 <= w < |s.workers| ==> WorkerFits(job, s, w))
  }

  lemma HeldInRange(job: Job, s: State, w: nat)
    requires Inv(job, s) && w < |s.workers| && (s.workers[w].Sizing? || s.workers[w].Hashing?)
    ensures s.workers[w].index < |job.paths| && job.paths[s.workers[w].index] in job.tree
    ensures s.files[s.workers[w].index] == None
  {
    assert WorkerFits(job, s, w);
    assert SlotFits(job, s, s.workers[w].index);
    assert Holds(s.workers[w], s.workers[w].index);
  }

  lemma EmptyFits(job: Job, workers: nat)
    requires JobOk(job)
    ensures Inv(job, Empty(|job.paths|, workers))
  {
  }

  lemma StepKeepsWorker(job: Job, s: State, step: Step, v: nat)
    requires Inv(job, s) && Enabled(s, step) && v < |s.workers|
    ensures WorkerFits(job, Apply(job, s, step), v)
  {
    assert WorkerFits(job, s, v) && WorkerFits(job, s, step.worker);
  }

  /** Moving one worker changes who holds an index only through that worker. */
  lemma HoldersAfter(s: State, t: State, w: nat, i: nat)
    requires w < |s.workers| == |t.workers| && t.workers == s.workers[w := t.workers[w]]
    ensures HeldByNone(s, i) && !Holds(t.workers[w], i) ==> HeldByNone(t, i)
    ensures HeldByNone(s, i) && Holds(t.workers[w], i) ==> HeldByOne(t, i)
    ensures HeldByOne(s, i) && (Holds(s.workers[w], i) <==> Holds(t.workers[w], i)) ==> HeldByOne(t, i)
    ensures HeldByOne(s, i) && Holds(s.workers[w], i) && !Holds(t.workers[w], i) ==> HeldByNone(t, i)
  {
    assert forall v :: 0 <= v < |s.workers| && v != w ==> t.workers[v] == s.workers[v];
    if HeldByNone(s, i) && Holds(t.workers[w], i) {
      assert 0 <= w < |t.workers| && Holds(t.workers[w], i);
    }
    if HeldByOne(s, i) && (Holds(s.workers[w], i) <==> Holds(t.workers[w], i)) {
      var v :| 0 <= v < |s.workers| && Holds(s.workers[v], i);
      assert Holds(t.workers[v], i);
    }
  }

  lemma StepKeepsSlot(job: Job, s: State, step: Step, i: nat)
    requires Inv(job, s) && Enabled(s, step) && i < |s.files|
    ensures |Apply(job, s, step).files| == |s.files| && SlotFits(job, Apply(job, s, step), i)
  {
    var t := Apply(job, s, step);
    assert SlotFits(job, s, i) && WorkerFits(job, s, step.worker);
    if !step.Claim? { HeldInRange(job, s, step.worker); }
    HoldersAfter(s, t, step.worker, i);
  }

  lemma StepKeepsInv(job: Job, s: State, step: Step)
    requires Inv(job, s) && Enabled(s, step)
    ensures Inv(job, Apply(job, s, step))
  {
    var t := Apply(job, s, step);
    assert |t.files| == |s.files| && |t.workers| == |s.workers|;
    assert WorkerFits(job, s, step.worker);
    forall i | 0 <= i < |t.files| ensures SlotFits(job, t, i) { StepKeepsSlot(job, s, step, i); }
    forall v | 0 <= v < |t.workers| ensures WorkerFits(job, t, v) { StepKeepsWorker(job, s, step, v); }
  }

  /** A file slot is written once: the write finds it empty and touches no other slot. */
  lemma WriteFindsEmptySlot(job: Job, s: State, step: Step)
    requires Inv(job, s) && Enabled(s, step) && step.Hashed?
    ensures var i := s.workers[step.worker].index;
            && i < |s.files| && s.files[i] == None && Apply(job, s, step).files[i] == Some(Expected(job, i))
            && (forall k :: 0 <= k < |s.files| && k != i ==> Apply(job, s, step).files[k] == s.files[k])
  {
    HeldInRange(job, s, step.worker);
    assert WorkerFits(job, s, step.worker);
  }

  // ----- whole runs -----

  ghost predicate Runs(job: Job, s: State, steps: seq<Step>)
    decreases |steps|
  {
    steps == [] || (Enabled(s, steps[0]) && Runs(job, Apply(job, s, steps[0]), steps[1..]))
  }

  ghost function After(job: Job, s: State, steps: seq<Step>): State
    requires Runs(job, s, steps)
    decreases |steps|
  {
    if steps == [] then s else After(job, Apply(job, s, steps[0]), steps[1..])
  }

  lemma {:induction false} RunKeepsInv(job: Job, s: State, steps: seq<Step>)
    requires Inv(job, s) && Runs(job, s, steps)
    ensures Inv(job, After(job, s, steps)) && |After(job, s, steps).workers| == |s.workers|
    decreases |steps|
  {
    if steps != [] {
      StepKeepsInv(job, s, steps[0]);
      RunKeepsInv(job, Apply(job, s, steps[0]), steps[1..]);
    }
  }

  ghost predicate AllDone(s: State) {
    forall w :: 0 <= w < |s.workers| ==> s.workers[w].Done?
  }

  /** The manifest entries a sequential pass would give. */
  function Sequential(job: Job): (r: seq<Asset>)
    requires forall i :: 0 <= i < |job.paths| ==> job.paths[i] in job.tree
    ensures |r| == |job.paths| && forall i :: 0 <= i < |r| ==> r[i] == AssetAt(job.sha, job.tree, job.paths[i])
  {
    seq(|job.paths|, i requires 0 <= i < |job.paths| => AssetAt(job.sha, job.tree, job.paths[i]))
  }

  /**
   For any number of workers and any interleaving, when all have finished the
   file list has no hole and equals the sequential pass over the paths.
   */
  lemma PoolMatchesSequential(job: Job, workers: nat, steps: seq<Step>)
    requires JobOk(job) && (workers > 0 || job.paths == [])
    requires Runs(job, Empty(|job.paths|, workers), steps)
    requires AllDone(After(job, Empty(|job.paths|, workers), steps))
    ensures var t := After(job, Empty(|job.paths|, workers), steps);
            && |t.files| == |job.paths|
            && (forall i :: 0 <= i < |job.paths| ==> t.files[i] == Some(Sequential(job)[i]))
    ensures forall i :: 0 <= i < |job.paths| ==> !Escapes(job.paths[i])
  {
    var t := After(job, Empty(|job.paths|, workers), steps);
    EmptyFits(job, workers);
    RunKeepsInv(job, Empty(|job.paths|, workers), steps);
    if job.paths != [] {
      assert WorkerFits(job, t, 0);
    }
    forall i | 0 <= i < |job.paths| ensures t.files[i] == Some(Sequential(job)[i]) && !Escapes(job.paths[i]) {
      assert SlotFits(job, t, i);
      assert forall w :: 0 <= w < |t.workers| ==> !Holds(t.workers[w], i);
    }
  }

  /** At every moment each claimed and unwritten index is held by exactly one worker, and no other index is held. */
  lemma ClaimsAreExclusive(job: Job, workers: nat, steps: seq<Step>, i: nat)
    requires JobOk(job) && i < |job.paths|
    requires Runs(job, Empty(|job.paths|, workers), steps)
    ensures var t := After(job, Empty(|job.paths|, workers), steps);
            |t.files| == |job.paths| &&
            if i < t.nextIndex && t.files[i] == None then HeldByOne(t, i) else HeldByNone(t, i)
  {
    EmptyFits(job, workers);
    RunKeepsInv(job, Empty(|job.paths|, workers), steps);
    assert SlotFits(job, After(job, Empty(|job.paths|, workers), steps), i);
  }

  /** A path that leaves the root is never written: whoever claims it fails. */
  lemma EscapingNeverWritten(job: Job, workers: nat, steps: seq<Step>, i: nat)
    requires JobOk(job) && i < |job.paths| && Escapes(job.paths[i])
    requires Runs(job, Empty(|job.paths|, workers), steps)
    ensures var t := After(job, Empty(|job.paths|, workers), steps);
            && |t.files| == |job.paths| && t.files[i] == None
            && (i < t.nextIndex ==> Failed(i) in t.workers)
  {
    var t := After(job, Empty(|job.paths|, workers), steps);
    EmptyFits(job, workers);
    RunKeepsInv(job, Empty(|job.paths|, workers), steps);
    assert SlotFits(job, t, i);
    if i < t.nextIndex {
      var w :| 0 <= w < |t.workers| && Holds(t.workers[w], i);
      assert WorkerFits(job, t, w);
    }
  }
}
