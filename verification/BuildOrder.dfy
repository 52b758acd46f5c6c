/** Builds that run their tasks in the order of the task graph (wlutil/build.py). */
module BuildOrder {
  import opened Common
  import opened LinuxOpts
  import opened Config
  import opened MakeBin
  import opened BuildGraph

  // The task that builds a workload's binary, or its diskless binary.
  function KindOf(job: Job): Kind { if job.nodisk then NoDisk else Binary }

  predicate IsTask(table: map<string, Cfg>, job: Job) {
    job.name in table && Has(table[job.name], KindOf(job))
  }

  function TaskOf(table: map<string, Cfg>, job: Job): string
    requires IsTask(table, job)
  {
    Name(table[job.name], KindOf(job))
  }

  ghost predicate AreTasks(table: map<string, Cfg>, jobs: seq<Job>) {
    forall k :: 0 <= k < |jobs| ==> IsTask(table, jobs[k])
  }

  // If the k-th task waits for a binary, that has been built before it.
  ghost predicate Behind(table: map<string, Cfg>, ws: seq<Cfg>, jobs: seq<Job>, k: nat, job: Job)
    requires k < |jobs| && IsTask(table, jobs[k]) && IsTask(table, job)
  {
    Waits(Graph(ws), TaskOf(table, jobs[k]), TaskOf(table, job)) ==> job in jobs[..k]
  }

  ghost predicate DepsFirst(table: map<string, Cfg>, ws: seq<Cfg>, jobs: seq<Job>)
    requires AreTasks(table, jobs)
  {
    forall k: nat, job {:trigger Behind(table, ws, jobs, k, job)} ::
      k < |jobs| && IsTask(table, job) ==> Behind(table, ws, jobs, k, job)
  }

  // All workloads of the table are in the graph.
  ghost predicate Covers(ws: seq<Cfg>, table: map<string, Cfg>) {
    forall n :: n in table ==> table[n] in ws
  }

  // What a workload that copies its base's binary has to do with that base.
  lemma Copier(table: map<string, Cfg>, n: string)
    requires Loaded(table) && n in table && table[n].useParentBin
    ensures table[n].base.Some? && table[n].base.value in table
    ensures var c, b := table[n], table[table[n].base.value];
            !c.isDistro && !b.isDistro && c.bin.Some? && b.bin.Some? && c.baseBin == b.bin
  {
    assert Finished(table, n);
    var b := table[n].base.value;
    DerivedFacts(table[n], table[b]);
    assert Finished(table, b);
    DerivedFacts(table[b], table[table[b].base.value]);
  }

  lemma CopierAfterBase(table: map<string, Cfg>, ws: seq<Cfg>, jobs: seq<Job>, k: nat)
    requires Loaded(table) && Covers(ws, table) && Distinct(ws)
    requires Jobs(table, jobs) && AreTasks(table, jobs) && DepsFirst(table, ws, jobs)
    requires k < |jobs| && table[jobs[k].name].useParentBin && !jobs[k].nodisk
    ensures AfterBase(table, jobs, k)
  {
    var n := jobs[k].name;
    Copier(table, n);
    var job := Job(table[n].base.value, false);
    assert IsTask(table, jobs[k]) && IsTask(table, job);
    assert Waits(Graph(ws), TaskOf(table, jobs[k]), TaskOf(table, job)) by { BinaryWaits(ws, table[n]); }
    assert Behind(table, ws, jobs, k, job);
    Earlier(table, jobs, k, job);
  }

  lemma Earlier(table: map<string, Cfg>, jobs: seq<Job>, k: nat, job: Job)
    requires Jobs(table, jobs) && k < |jobs| && job in jobs[..k] && table[jobs[k].name].base == Some(job.name) && !job.nodisk
    ensures AfterBase(table, jobs, k)
  {
    var j :| 0 <= j < k && jobs[j] == job;
  }

  /** Every order in which binaries are built after the binaries they wait for builds copies after
      what they are copied from. */
  lemma GraphOrderIsOrdered(table: map<string, Cfg>, ws: seq<Cfg>, jobs: seq<Job>)
    requires Loaded(table) && Covers(ws, table) && Distinct(ws)
    requires Jobs(table, jobs) && AreTasks(table, jobs) && DepsFirst(table, ws, jobs)
    ensures Ordered(table, jobs)
  {
    forall k | 0 <= k < |jobs| && Copies(table, jobs[k])
      ensures AfterBase(table, jobs, k)
    {
      CopierAfterBase(table, ws, jobs, k);
    }
  }

  /** So in any build of any loaded table that follows the task graph, from whatever stale files, every
      task succeeds if the kernel trees have a `.config`, and a Linux binary is the one that compiling
      its workload in the tree as first found would give if and only if no option left in the tree by
      tasks before its origin shows in its kernel. */
  lemma GraphBuildIsFaithful(frag: FragmentFiles, table: map<string, Cfg>, ws: seq<Cfg>, jobs: seq<Job>, d: Disk, k: nat)
    requires Loaded(table) && OwnOutputs(table) && Covers(ws, table) && Distinct(ws)
    requires Jobs(table, jobs) && AreTasks(table, jobs) && DepsFirst(table, ws, jobs)
    requires SourcesFound(table, jobs, |jobs|, d.trees)
    requires IsLinux(table, jobs, k) && LastRun(jobs, |jobs|, jobs[k]) == k
    ensures Faithful(frag, table, jobs, d, k, MadeUpTo(frag, table, jobs, |jobs|, d))
  {
    GraphOrderIsOrdered(table, ws, jobs);
    CopyPreservesMeaning(frag, table, jobs, d, k);
  }

  // ---------------------------------------------------------------- what tasks read and write

  predicate SameAt(files: Files, files': Files, p: Path) {
    (p in files <==> p in files') && (p in files && p in files' ==> files[p] == files'[p])
  }

  /** makeBin writes nothing but the targets that its task declares. */
  lemma WritesTargets(frag: FragmentFiles, c: Cfg, nodisk: bool, d: Disk, p: Path)
    requires Has(c, KindOf(Job(c.name, nodisk))) && Made(frag, c, nodisk, d).Ok?
    requires p !in Targets(c, KindOf(Job(c.name, nodisk)))
    ensures SameAt(d.files, Made(frag, c, nodisk, d).value.files, p)
  {
  }

  /** What it writes is decided by the kernel trees and by the generated files that its task is said to
      read: on disks that agree on these it leaves the same targets. */
  lemma ReadsInputs(frag: FragmentFiles, c: Cfg, nodisk: bool, d: Disk, d': Disk, p: Path)
    requires !ImageOnly(c) && c.linux.Some? && Has(c, KindOf(Job(c.name, nodisk))) && d.trees == d'.trees
    requires forall q :: q in Inputs(c, KindOf(Job(c.name, nodisk))) ==> SameAt(d.files, d'.files, q)
    ensures Made(frag, c, nodisk, d).Ok? <==> Made(frag, c, nodisk, d').Ok?
    ensures Made(frag, c, nodisk, d).Ok? && p in Targets(c, KindOf(Job(c.name, nodisk))) ==>
              SameAt(Made(frag, c, nodisk, d).value.files, Made(frag, c, nodisk, d').value.files, p)
  {
    if c.useParentBin && !nodisk {
      assert c.baseBin.Some? ==> c.baseBin.value in Inputs(c, Binary);
      assert c.baseDwarf.Some? ==> c.baseDwarf.value in Inputs(c, Binary);
    }
  }
}
