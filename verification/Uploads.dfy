/** What upload_to_s3 and wait_uploads of scripts/build.py promise together: uploads run as
    tasks of the thread pool, and a part that fails makes its upload be cancelled without
    raising anything. */
module Uploads {
  import opened Basics
  import opened ThreadPool
  import Multipart

  /** An upload: the file, and which of its part threads fail. */
  datatype Job = Job(file: seq<byte>, fails: nat -> bool)

  ghost predicate NoPartFails(job: Job) {
    forall k :: 1 <= k <= Multipart.ChunkCount(|job.file|, Multipart.CHUNK_SIZE) ==> !job.fails(k)
  }

  /** What the bucket holds for an upload that has run. */
  ghost function ObjectOf(job: Job): Option<seq<byte>> {
    if NoPartFails(job) then Some(job.file) else None
  }

  /** upload_multipart as the function of a task: a failure in a part thread stays there, so
      it returns in any case. */
  method RunJob(job: Job) returns (outcome: Outcome, stored: Option<seq<byte>>)
    ensures outcome == Value(0) && stored == ObjectOf(job)
  {
    var u := Multipart.UploadMultipart(job.file, job.fails);
    stored := match u case Complete(contents) => Some(contents) case Cancelled => None;
    outcome := Value(0);
  }

  /** Task t runs jobs[t], and every execution so far ended as RunJob ends. */
  ghost predicate RunsJobs(s: Pool, jobs: seq<Job>) {
    |jobs| == |s.tasks| && forall i :: 0 <= i < |s.log| ==> s.log[i].outcome == Value(0)
  }

  /** The bucket holds the file of an upload whose future has completed without an
      exception. */
  ghost predicate StoredIn(s: Pool, jobs: seq<Job>, t: TaskId)
    requires t < |s.futures| && t < |jobs|
  {
    Completed(s, t) && ObjectOf(jobs[t]) == Some(jobs[t].file)
  }

  /** wait_uploads goes through without an exception for every outcome of the parts; the
      objects are all there if and only if no part of any of them failed. */
  lemma {:induction false} ClearedIffStored(workers: nat, run: seq<Pool>, steps: seq<Step>, jobs: seq<Job>)
    requires IsRun(workers, run, steps) && steps != [] && steps[|steps| - 1] == WaitDone
    requires RunsJobs(run[|steps| - 1], jobs)
    ensures var s := run[|steps| - 1];
            && (forall i :: 0 <= i < |s.uploads| ==> s.uploads[i] < |s.futures| && s.uploads[i] < |jobs| && Completed(s, s.uploads[i]))
            && ((forall i :: 0 <= i < |s.uploads| ==> StoredIn(s, jobs, s.uploads[i]))
                <==> forall i :: 0 <= i < |s.uploads| ==> NoPartFails(jobs[s.uploads[i]]))
  {
    var n := |steps| - 1;
    RunFront(workers, run, steps);
    var place := ReachableInv(workers, run[..n + 1], steps[..n]);
    assert run[..n + 1][n] == run[n] && MainOk(run[n]);
  }

  /** A future whose event is set has completed without an exception, whatever became of the
      parts. */
  lemma {:induction false} SetMeansCompleted(workers: nat, run: seq<Pool>, steps: seq<Step>, jobs: seq<Job>, t: TaskId)
    requires IsRun(workers, run, steps) && RunsJobs(run[|steps|], jobs)
    requires t < |run[|steps|].futures| && run[|steps|].futures[t].event
    ensures Completed(run[|steps|], t)
  {
    RunTold(workers, run, steps);
    var i := SubmittedBy(steps, t);
    var k := SetEventMeansOwnResult(workers, run, steps, i);
  }

  /** A one-byte file whose only part fails: the future completes, and nothing is stored. */
  method CancelledCompletes(b: byte) returns (outcome: Outcome, stored: Option<seq<byte>>)
    ensures outcome == Value(0) && stored == None
  {
    var job := Job([b], _ => true);
    assert Multipart.ChunkCount(1, Multipart.CHUNK_SIZE) == 1;
    assert job.fails(1);
    outcome, stored := RunJob(job);
  }
}
