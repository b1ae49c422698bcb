/** `createReleaseAssetManifest`'s shared index and file array; `hashNext` is split at its awaits. */
module HashPool {
  import opened Sequences
  import opened ReleaseManifest
  import opened ReleaseAgreement
  import opened HashPoolModel

  class ManifestPool {
    const job: Job
    const files: array<Option<Asset>>
    var nextIndex: nat
    var workers: seq<Worker>

    ghost function Abs(): State
      reads this, files
    {
      State(nextIndex, files[..], workers)
    }

    ghost predicate Valid()
      reads this, files
    {
      Inv(job, Abs())
    }

    constructor (job: Job, workerCount: nat)
      requires JobOk(job)
      ensures Valid() && fresh(files) && this.job == job && Abs() == Empty(|job.paths|, workerCount)
    {
      this.job := job;
      files := new Option<Asset>[|job.paths|](_ => None);
      nextIndex := 0;
      workers := seq(workerCount, _ => Idle);
      new;
      EmptyFits(job, workerCount);
      assert files[..] == seq(|job.paths|, _ => None);
    }

    /** The loop head: take the next index, refuse an escaping path, or stop. */
    method ClaimNext(w: nat)
      requires Valid() && Enabled(Abs(), Claim(w))
      modifies this
      ensures Valid() && Abs() == Apply(job, old(Abs()), Claim(w))
    {
      StepKeepsInv(job, Abs(), Claim(w));
      if nextIndex < |job.paths| {
        var index := nextIndex;
        nextIndex := nextIndex + 1;
        var path := job.paths[index];
        workers := workers[w := if Escapes(path) then Failed(index) else Sizing(index)];
      } else {
        workers := workers[w := Done];
      }
    }

    /** `stat` resolved. */
    method SizeRead(w: nat)
      requires Valid() && Enabled(Abs(), Sized(w))
      modifies this
      ensures Valid() && Abs() == Apply(job, old(Abs()), Sized(w))
    {
      StepKeepsInv(job, Abs(), Sized(w));
      HeldInRange(job, Abs(), w);
      var index := workers[w].index;
      workers := workers[w := Hashing(index, |job.tree[job.paths[index]].content|)];
    }

    /** `sha256` resolved: write the asset and go round again. */
    method DigestRead(w: nat)
      requires Valid() && Enabled(Abs(), Hashed(w))
      modifies this, files
      ensures Valid() && Abs() == Apply(job, old(Abs()), Hashed(w))
    {
      StepKeepsInv(job, Abs(), Hashed(w));
      HeldInRange(job, Abs(), w);
      var Hashing(index, size) := workers[w];
      ghost var before := files[..];
      files[index] := Some(Asset(job.paths[index], job.sha(job.tree[job.paths[index]].content), size));
      assert files[..] == before[index := files[index]];
      workers := workers[w := Idle];
    }
  }

  lemma ShippedJobOk(sha: Digest, tree: Tree)
    ensures JobOk(Job(sha, tree, ShippedPaths(tree)))
  {
    forall i | 0 <= i < |ShippedPaths(tree)| ensures ShippedPaths(tree)[i] in tree {
      assert ShippedPaths(tree)[i] in ShippedPaths(tree);
    }
  }

  /** On a walked tree no worker refuses a path, whatever the interleaving. */
  lemma NoWorkerFails(sha: Digest, tree: Tree, workers: nat, steps: seq<Step>, w: nat)
    requires TreeOk(tree)
    requires var job := Job(sha, tree, ShippedPaths(tree)); Runs(job, Empty(|job.paths|, workers), steps)
    requires var job := Job(sha, tree, ShippedPaths(tree)); w < |After(job, Empty(|job.paths|, workers), steps).workers|
    ensures var job := Job(sha, tree, ShippedPaths(tree)); !After(job, Empty(|job.paths|, workers), steps).workers[w].Failed?
  {
    var job := Job(sha, tree, ShippedPaths(tree));
    ShippedJobOk(sha, tree);
    EmptyFits(job, workers);
    RunKeepsInv(job, Empty(|job.paths|, workers), steps);
    var t := After(job, Empty(|job.paths|, workers), steps);
    assert WorkerFits(job, t, w);
    forall i | 0 <= i < |job.paths| ensures !Escapes(job.paths[i]) {
      PathOkNormal(job.paths[i]);
    }
  }

  /**
   End to end: however the workers interleave, once all are done the wheel
   backend accepts the file list they filled exactly when the tree is releasable.
   */
  lemma PoolManifestAcceptedIff(sha: Digest, tree: Tree, workers: nat, steps: seq<Step>, assets: seq<Asset>)
    requires TreeOk(tree) && (workers > 0 || ShippedPaths(tree) == [])
    requires var job := Job(sha, tree, ShippedPaths(tree)); Runs(job, Empty(|job.paths|, workers), steps)
    requires var job := Job(sha, tree, ShippedPaths(tree));
             var t := After(job, Empty(|job.paths|, workers), steps);
             AllDone(t) && |assets| == |t.files| && forall i :: 0 <= i < |assets| ==> t.files[i] == Some(assets[i])
    ensures Consume(sha, tree, Files(ToEntries(assets))).Accepted? <==> Releasable(sha, tree)
  {
    var job := Job(sha, tree, ShippedPaths(tree));
    ShippedJobOk(sha, tree);
    PoolMatchesSequential(job, workers, steps);
    assert assets == Produce(sha, tree);
    ProducedAcceptedIff(sha, tree);
  }
}
