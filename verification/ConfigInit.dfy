/** Finishing all loaded configurations from their bases (ConfigManager in wlutil/config.py).

    The manager initialises recursively, with memoisation: a base before what is based on it, and
    the jobs of a workload right after the workload, since jobs refer back to their owner.  The
    reference definition is `Resolved`, which just follows the chain of bases.  What finishing a
    configuration does to it is a parameter, `apply`; `ApplyBase` is the one the source uses. */
module ConfigInit {
  import opened Common
  import opened LinuxOpts
  import opened Config
  import MakeBin

  class Workload {
    var cfg: Cfg
    var initialized: bool
    const jobs: seq<Workload>

    constructor (cfg: Cfg, initialized: bool, jobs: seq<Workload>)
      ensures this.cfg == cfg && this.initialized == initialized && this.jobs == jobs
    {
      this.cfg, this.initialized, this.jobs := cfg, initialized, jobs;
    }
  }

  // Some defaults apply even without a base.
  function WithoutBase(c: Cfg): Cfg {
    c.(launch := OrElse(c.launch, Some(true)))
  }

  /** One loaded workload: its options as parsed, whether it arrives finished (`pre`, as the
      distributions do), and the workload it belongs to: for a job the outermost owner, for any
      other workload itself.  `rank` and `height` witness that links form no cycle. */
  datatype Entry = Entry(raw: Cfg, pre: bool, root: Workload, rank: nat, height: nat)

  /** Everything that has been loaded, and the table in which bases are looked up. */
  datatype World = World(apply: (Cfg, Cfg) -> Result<Cfg>, table: map<string, Workload>, entries: map<Workload, Entry>)
  {
    ghost predicate IsJob(x: Workload)
      requires x in entries
    {
      entries[x].root != x
    }

    ghost predicate HasBase(x: Workload)
      requires x in entries
    {
      !entries[x].pre && entries[x].raw.base.Some? && entries[x].raw.base.value in table
    }

    ghost function Base(x: Workload): Workload
      requires x in entries && HasBase(x)
    {
      table[entries[x].raw.base.value]
    }

    // A base is no job, and ranks below what is based on it unless it is a job's own owner.
    ghost predicate BaseBelow(x: Workload)
      requires x in entries
    {
      HasBase(x) ==>
        && Base(x) in entries && !IsJob(Base(x))
        && (entries[Base(x)].rank < entries[x].rank || (IsJob(x) && Base(x) == entries[x].root))
    }

    // Jobs share the rank of the workload they belong to.
    ghost predicate JobsBelong(x: Workload)
      requires x in entries
    {
      && entries[x].root in entries && !IsJob(entries[x].root) && entries[entries[x].root].rank == entries[x].rank
      && forall j :: j in x.jobs ==>
           && j in entries && IsJob(j)
           && entries[j].root == entries[x].root && entries[j].rank == entries[x].rank
           && entries[j].height < entries[x].height
    }

    /** No workload is based on a job, and base links together with links from a workload to the
        bases of its jobs form no cycle, apart from jobs based on their own owner. */
    ghost predicate Acyclic() {
      forall x {:trigger BaseBelow(x)} {:trigger JobsBelong(x)} :: x in entries ==> BaseBelow(x) && JobsBelong(x)
    }

    /** The finished configuration of `x`: its own options applied over its finished base. */
    ghost function Resolved(x: Workload): Result<Cfg>
      requires Acyclic() && x in entries
      decreases entries[x].rank, IsJob(x)
    {
      var Entry(raw, pre, _, _, _) := entries[x];
      if pre then Ok(raw)
      else if raw.base.None? then Ok(WithoutBase(raw))
      else if !HasBase(x) then Err
      else
        assert BaseBelow(x);
        match Resolved(Base(x))
        case Err => Err
        case Ok(base) => apply(raw, base)
    }
  }

  /** With the source's `applyBase`, a finished workload is one that building can rely on. */
  lemma ResolvedDerived(w: World, x: Workload)
    requires w.Acyclic() && (forall c, b :: w.apply(c, b) == ApplyBase(c, b))
    requires x in w.entries && w.HasBase(x) && Raw(w.entries[x].raw) && w.Resolved(x).Ok?
    ensures w.BaseBelow(x) && w.Resolved(w.Base(x)).Ok?
    ensures Derived(w.Resolved(x).value, w.Resolved(w.Base(x)).value)
  {
    assert w.BaseBelow(x);
    assert ApplyBase(w.entries[x].raw, w.Resolved(w.Base(x)).value) == Ok(w.Resolved(x).value);
  }

  /** Why applying the base exactly once matters: a second time repeats the base's fragments. */
  lemma ApplyTwice(c: Cfg, b: Cfg)
    requires Raw(c) && b.linux.Some? && ApplyBase(c, b).Ok? && ApplyBase(ApplyBase(c, b).value, b).Ok?
    ensures var once := ApplyBase(c, b).value;
            Fragments(ApplyBase(once, b).value.linux) == Fragments(b.linux) + Fragments(once.linux)
  {
    ApplyBaseBinary(c, b);
    var once := ApplyBase(c, b).value;
    var linux := Inherit(once.linux, b.linux).value;
    assert ApplyBase(once, b).value.linux == linux;
    assert Fragments(linux) == Fragments(b.linux) + Fragments(once.linux);
  }

  ghost predicate NoRepeats(s: seq<Workload>) {
    forall i, j :: 0 <= i < j < |s| ==> s[i] != s[j]
  }

  class Manager {
    const apply: (Cfg, Cfg) -> Result<Cfg>
    var cfgs: map<string, Workload>
    ghost var applied: seq<Workload>  // the workloads applyBase has been called on, in order

    constructor (apply: (Cfg, Cfg) -> Result<Cfg>, cfgs: map<string, Workload>)
      ensures this.apply == apply && this.cfgs == cfgs && applied == []
    {
      this.apply, this.cfgs, applied := apply, cfgs, [];
    }

    // A workload is either untouched or finished.
    ghost predicate Status(w: World, x: Workload)
      requires w.Acyclic() && x in w.entries
      reads x
    {
      && (w.entries[x].pre ==> x.initialized)
      && if x.initialized then w.Resolved(x) == Ok(x.cfg) else x.cfg == w.entries[x].raw
    }

    /** Each workload is untouched or finished, and applyBase has been called exactly once on each
        finished workload that has a base. */
    ghost predicate Consistent(w: World)
      requires w.Acyclic()
      reads this, w.entries.Keys
    {
      && apply == w.apply && cfgs == w.table
      && (forall x :: x in w.entries ==> Status(w, x))
      && NoRepeats(applied)
      && (forall x :: x in w.entries ==> (x in applied <==> x.initialized && !w.entries[x].pre && w.entries[x].raw.base.Some?))
    }

    // What one call may do to the initialised flags.
    twostate predicate Grows(w: World, rank: nat)
      reads w.entries.Keys
    {
      forall x :: x in w.entries ==>
        && (old(x.initialized) ==> x.initialized)
        && (w.entries[x].rank > rank ==> x.initialized == old(x.initialized))
    }

    // Every workload initialised by the call has had its jobs initialised too.
    twostate predicate JobsDone(w: World)
      reads w.entries.Keys
    {
      forall x, j :: x in w.entries && j in x.jobs && j in w.entries && x.initialized && !old(x.initialized) ==>
        j.initialized
    }

    ghost predicate AllJobsDone(w: World)
      reads w.entries.Keys
    {
      forall x, j :: x in w.entries && j in x.jobs && j in w.entries && x.initialized ==> j.initialized
    }

    // Why initialisation can fail: some workload has no finished configuration.
    ghost predicate SomeBroken(w: World)
      requires w.Acyclic()
    {
      exists x :: x in w.entries && w.Resolved(x).Err?
    }

    method FinishFrom(x: Workload, base: Workload, ghost w: World) returns (ok: bool)
      requires w.Acyclic() && Consistent(w) && x in w.entries && !x.initialized
      requires w.HasBase(x) && base == w.Base(x) && base in w.entries && base.initialized
      modifies this`applied, x
      ensures ok <==> w.Resolved(x).Ok?
      ensures Consistent(w) && x.initialized == ok
      ensures forall y :: y in w.entries && y != x ==> y.initialized == old(y.initialized)
    {
      assert Status(w, x) && Status(w, base);
      match apply(x.cfg, base.cfg) {
        case Err =>
          return false;
        case Ok(cfg) =>
          x.cfg := cfg;
          x.initialized := true;
          applied := applied + [x];
          return true;
      }
    }

    /** _initializeFromBase.  A job may only be given after the workload it belongs to. */
    method InitializeFromBase(x: Workload, ghost w: World) returns (ok: bool)
      requires w.Acyclic() && Consistent(w) && x in w.entries
      requires w.IsJob(x) ==> w.entries[x].root in w.entries && w.entries[x].root.initialized
      modifies this`applied, w.entries.Keys
      ensures Consistent(w) && Grows(w, w.entries[x].rank)
      ensures if ok then x.initialized && JobsDone(w) else SomeBroken(w)
      decreases w.entries[x].rank, w.entries[x].height, 3
    {
      if x.initialized {
        return true;
      }
      ok := InitializeSelf(x, w);
      if ok {
        assert w.JobsBelong(x);
        ok := InitializeJobs(x, w);
      }
    }

    // Initialises the base if need be, then `x` itself.
    method InitializeSelf(x: Workload, ghost w: World) returns (ok: bool)
      requires w.Acyclic() && Consistent(w) && x in w.entries && !x.initialized
      requires w.IsJob(x) ==> w.entries[x].root in w.entries && w.entries[x].root.initialized
      modifies this`applied, w.entries.Keys
      ensures Consistent(w) && Grows(w, w.entries[x].rank)
      ensures if ok then x.initialized else SomeBroken(w)
      ensures ok ==> forall y, j :: y in w.entries && j in y.jobs && j in w.entries && y != x && y.initialized && !old(y.initialized) ==>
                j.initialized
      decreases w.entries[x].rank, w.entries[x].height, 2
    {
      assert Status(w, x);
      if x.cfg.base.Some? {
        if x.cfg.base.value !in cfgs {
          assert w.Resolved(x).Err?;
          return false;
        }
        var base := cfgs[x.cfg.base.value];
        assert w.BaseBelow(x);
        if !base.initialized {
          ok := InitializeFromBase(base, w);
          if !ok {
            return;
          }
        }
        ok := FinishFrom(x, base, w);
      } else {
        x.cfg := WithoutBase(x.cfg);
        x.initialized := true;
        return true;
      }
    }

    method InitializeJob(x: Workload, job: Workload, ghost w: World) returns (ok: bool)
      requires w.Acyclic() && Consistent(w) && x in w.entries && job in x.jobs
      requires w.entries[x].root in w.entries && w.entries[x].root.initialized
      modifies this`applied, w.entries.Keys
      ensures Consistent(w) && Grows(w, w.entries[x].rank)
      ensures if ok then job.initialized && JobsDone(w) else SomeBroken(w)
      decreases w.entries[x].rank, w.entries[x].height, 0
    {
      assert w.JobsBelong(x);
      ok := InitializeFromBase(job, w);
    }

    method InitializeJobs(x: Workload, ghost w: World) returns (ok: bool)
      requires w.Acyclic() && Consistent(w) && x in w.entries && x.initialized
      requires w.entries[x].root in w.entries && w.entries[x].root.initialized
      modifies this`applied, w.entries.Keys
      ensures Consistent(w) && Grows(w, w.entries[x].rank)
      ensures if ok then JobsDone(w) && (forall j :: j in x.jobs ==> j.initialized) else SomeBroken(w)
      decreases w.entries[x].rank, w.entries[x].height, 1
    {
      ghost var jobs := x.jobs;
      assert forall k :: 0 <= k < |jobs| ==> jobs[k] in w.entries by {
        assert w.JobsBelong(x);
      }
      for i := 0 to |x.jobs|
        invariant Consistent(w) && Grows(w, w.entries[x].rank) && JobsDone(w)
        invariant forall k :: 0 <= k < i ==> jobs[k].initialized
      {
        ok := InitializeJob(x, x.jobs[i], w);
        if !ok {
          return;
        }
      }
      return true;
    }

    // Initialising one more workload of the table keeps the jobs of finished workloads finished.
    method InitializeNext(x: Workload, ghost w: World) returns (ok: bool)
      requires w.Acyclic() && Consistent(w) && AllJobsDone(w) && x in w.entries
      requires w.IsJob(x) ==> w.entries[x].root in w.entries && w.entries[x].root.initialized
      modifies this`applied, w.entries.Keys
      ensures Consistent(w)
      ensures if ok then x.initialized && AllJobsDone(w) else SomeBroken(w)
      ensures forall y :: y in w.entries && old(y.initialized) ==> y.initialized
    {
      ok := InitializeFromBase(x, w);
    }

    // Workloads come before their jobs in the table.
    ghost predicate OwnersFirst(w: World, order: seq<Workload>) {
      forall k :: 0 <= k < |order| ==>
        && order[k] in w.entries
        && (w.IsJob(order[k]) ==> w.entries[order[k]].root in w.entries && w.entries[order[k]].root in order[..k])
    }

    /** Initialises the table, whose workloads are `order`.  On success every workload of the table,
        and every job of a finished workload, equals its reference definition; a failure means
        that some workload has no finished configuration. */
    method InitializeAll(order: seq<Workload>, ghost w: World) returns (ok: bool)
      requires w.Acyclic() && Consistent(w) && AllJobsDone(w) && OwnersFirst(w, order)
      modifies this`applied, w.entries.Keys
      ensures Consistent(w)
      ensures if ok then AllJobsDone(w) && (forall x :: x in order ==> x.initialized) else SomeBroken(w)
    {
      for k := 0 to |order|
        invariant Consistent(w) && AllJobsDone(w)
        invariant forall i :: 0 <= i < k ==> order[i].initialized
      {
        ok := InitializeNext(order[k], w);
        if !ok {
          return;
        }
      }
      return true;
    }

    /** The same with the source's `applyBase`, for a table of distributions and of workloads that have
        a base, as they are after forking: its finished configurations are what building relies on. */
    method LoadTable(order: seq<Workload>, ghost w: World) returns (ok: bool)
      requires w.Acyclic() && Consistent(w) && AllJobsDone(w) && OwnersFirst(w, order)
      requires Forked(w) && (forall n :: n in w.table ==> w.table[n] in order)
      modifies this`applied, w.entries.Keys
      ensures Consistent(w)
      ensures if ok then InTable(w) && MakeBin.Loaded(FinishedTable(w)) else SomeBroken(w)
    {
      ok := InitializeAll(order, w);
      if ok {
        TableLoaded(this, w);
      }
    }
  }

  ghost predicate InTable(w: World) {
    forall n :: n in w.table ==> w.table[n] in w.entries
  }

  // Distributions, and workloads with a base, as loading and forking leave them.
  ghost predicate Forked(w: World) {
    && (forall c, b :: w.apply(c, b) == ApplyBase(c, b))
    && forall x :: x in w.entries ==>
         if w.entries[x].pre then Distro(w.entries[x].raw) else Raw(w.entries[x].raw) && w.entries[x].raw.base.Some?
  }

  ghost function FinishedTable(w: World): map<string, Cfg>
    requires InTable(w)
    reads w.entries.Keys
  {
    map n | n in w.table :: w.table[n].cfg
  }

  lemma EntryFinished(m: Manager, w: World, n: string)
    requires w.Acyclic() && m.Consistent(w) && Forked(w) && InTable(w) && n in w.table
    requires forall n :: n in w.table ==> w.table[n].initialized
    ensures MakeBin.Finished(FinishedTable(w), n)
  {
    var x := w.table[n];
    assert m.Status(w, x);
    if !w.entries[x].pre {
      assert w.HasBase(x);
      var base := w.Base(x);
      ResolvedDerived(w, x);
      assert m.Status(w, base);
      ApplyBaseOutputs(w.entries[x].raw, base.cfg);
      assert MakeBin.HasBase(FinishedTable(w), n);
    }
  }

  lemma TableLoaded(m: Manager, w: World)
    requires w.Acyclic() && m.Consistent(w) && Forked(w) && InTable(w)
    requires forall n :: n in w.table ==> w.table[n].initialized
    ensures MakeBin.Loaded(FinishedTable(w))
  {
    forall n | n in w.table
      ensures MakeBin.Finished(FinishedTable(w), n)
    {
      EntryFinished(m, w, n);
    }
  }
}
