/** Builds in which workloads share a kernel tree (generateKConfig in wlutil/build.py): fragments of
    one end up in the kernel of another. */
module SharedTree {
  import opened Common
  import opened LinuxOpts
  import opened Config
  import opened MakeBin
  import opened Examples

  // Each fragment file sets the option it is named after.
  const EACH: FragmentFiles := (f: Path) => map[f := "y"]

  /** Workload `c` is based on `p` and copies its binary; `q` has a kernel of its own, in the same
      tree.  They are built in the order p, q, c. */
  datatype Family = Family(table: map<string, Cfg>, jobs: seq<Job>, p: string, q: string, c: string, fp: Path, fq: Path)

  ghost predicate Workloads(f: Family) {
    && Loaded(f.table) && OwnOutputs(f.table)
    && f.p in f.table && f.q in f.table && f.c in f.table && f.p != f.q && f.p != f.c && f.q != f.c
    && f.table[f.c].base == Some(f.p) && f.table[f.c].useParentBin && !f.table[f.p].useParentBin && !f.table[f.q].useParentBin
  }

  ghost predicate Kernels(f: Family)
    requires f.p in f.table && f.q in f.table && f.c in f.table
  {
    && Compilable(f.table[f.p], false) && Compilable(f.table[f.q], false) && Compilable(f.table[f.c], false)
    && Fragments(f.table[f.p].linux) == [f.fp] && Fragments(f.table[f.q].linux) == [f.fq]
    && f.table[f.c].linux == f.table[f.p].linux && f.table[f.q].linux.value.source == f.table[f.p].linux.value.source
    && f.fp != f.fq && f.fp !in GENERATED && f.fq !in GENERATED
  }

  ghost predicate Valid(f: Family) {
    Workloads(f) && Kernels(f) && f.jobs == [Job(f.p, false), Job(f.q, false), Job(f.c, false)]
  }

  function Source(f: Family): Path
    requires f.p in f.table && Compilable(f.table[f.p], false)
  {
    f.table[f.p].linux.value.source.value
  }

  lemma InOrder(f: Family, first: Options)
    requires Valid(f)
    ensures Jobs(f.table, f.jobs) && Ordered(f.table, f.jobs) && SourcesFound(f.table, f.jobs, 3, map[Source(f) := first])
    ensures Origin(f.table, f.jobs, 1) == 1 && Origin(f.table, f.jobs, 2) == 0
    ensures LastRun(f.jobs, 3, f.jobs[1]) == 1 && LastRun(f.jobs, 3, f.jobs[2]) == 2
  {
    assert f.jobs[0] == Job(f.table[f.jobs[2].name].base.value, false);
    assert AfterBase(f.table, f.jobs, 2);
    assert LastRun(f.jobs, 2, f.jobs[0]) == 0;
  }

  lemma OwnIs(c: Cfg, x: Path)
    requires Fragments(c.linux) == [x]
    ensures OwnOptions(EACH, c) == map[x := "y"]
  {
    assert [x][..0] == [];
    assert OptionsOf(EACH, []) == map[];
  }

  lemma Shows(c: Cfg, x: Path, tree: Options, y: string)
    requires Fragments(c.linux) == [x] && y !in GENERATED
    ensures y in Configured(EACH, c, tree) - GENERATED <==> y == x || y in tree
  {
    OwnIs(c, x);
  }

  // What p and then q leave in the tree.
  lemma LeftInTree(f: Family)
    requires Valid(f)
    ensures LeftBy(EACH, f.table, f.jobs, 0, Source(f)) == map[]
    ensures f.fp in LeftBy(EACH, f.table, f.jobs, 1, Source(f))
    ensures f.fq in LeftBy(EACH, f.table, f.jobs, 2, Source(f))
  {
    assert Compiles(f.table, f.jobs[0], Source(f)) && Compiles(f.table, f.jobs[1], Source(f));
    Shows(f.table[f.p], f.fp, map[], f.fp);
    Shows(f.table[f.q], f.fq, LeftBy(EACH, f.table, f.jobs, 1, Source(f)), f.fq);
  }

  /** The kernel of q has the fragment of p, which compiling it in the tree as found would not give. */
  lemma Mixed(f: Family, files: Files)
    requires Valid(f)
    ensures var trees: Trees := map[Source(f) := map[]];
            var r := MadeUpTo(EACH, f.table, f.jobs, 3, Disk(files, trees));
            r.Ok? && !AsCompiled(EACH, f.table[f.q], false, trees, r.value.files)
  {
    var d := Disk(files, map[Source(f) := map[]]);
    InOrder(f, map[]);
    CopyPreservesMeaning(EACH, f.table, f.jobs, d, 1);
    LeftInTree(f);
    OwnIs(f.table[f.q], f.fq);
    assert !Hidden(LeftBy(EACH, f.table, f.jobs, 1, Source(f)), OwnOptions(EACH, f.table[f.q]), map[]);
  }

  /** The copy has the kernel of p, which compiling in the tree as found would give, but compiling in
      the tree as it is at the turn of c would not. */
  lemma Copied(f: Family, files: Files)
    requires Valid(f)
    ensures var trees: Trees := map[Source(f) := map[]];
            var r := MadeUpTo(EACH, f.table, f.jobs, 3, Disk(files, trees));
            && r.Ok? && Source(f) in r.value.trees
            && AsCompiled(EACH, f.table[f.c], false, trees, r.value.files)
            && !AsCompiled(EACH, f.table[f.c], false, r.value.trees, r.value.files)
  {
    var d := Disk(files, map[Source(f) := map[]]);
    InOrder(f, map[]);
    LeftInTree(f);
    assert Hidden(map[], OwnOptions(EACH, f.table[f.p]), map[]);
    CopyPreservesMeaning(EACH, f.table, f.jobs, d, 2);
    var tree := TreeAfter(f, d);
    Shows(f.table[f.c], f.fp, map[], f.fq);
    Shows(f.table[f.c], f.fp, tree, f.fq);
    var r := MadeUpTo(EACH, f.table, f.jobs, 3, d).value;
    KernelUnique(f.table[f.c], false, BuiltKernel(EACH, f.table[f.c], false, map[]), BuiltKernel(EACH, f.table[f.c], false, tree), r.files);
  }

  lemma TreeAfter(f: Family, d: Disk) returns (tree: Options)
    requires Valid(f) && d.trees == map[Source(f) := map[]]
    ensures var r := MadeUpTo(EACH, f.table, f.jobs, 3, d);
            r.Ok? && Source(f) in r.value.trees && r.value.trees[Source(f)] == tree && f.fq in tree
  {
    InOrder(f, map[]);
    BuildLeaves(EACH, f.table, f.jobs, 3, d);
    var r := MadeUpTo(EACH, f.table, f.jobs, 3, d).value;
    tree := r.trees[Source(f)];
    assert TreesAre(EACH, f.table, f.jobs, 3, d.trees, r.trees);
    assert !Compiles(f.table, f.jobs[2], Source(f));
    LeftInTree(f);
  }

  // ---------------------------------------------------------------- such workloads exist

  // A table with exactly these four workloads.
  predicate Holds4(table: map<string, Cfg>, d: Cfg, p: Cfg, q: Cfg, c: Cfg) {
    && table.Keys == {d.name, p.name, q.name, c.name}
    && table[d.name] == d && table[p.name] == p && table[q.name] == q && table[c.name] == c
  }

  lemma TableFor(d: Cfg, p: Cfg, q: Cfg, c: Cfg) returns (table: map<string, Cfg>)
    requires d.name == "d" && p.name == "p" && q.name == "q" && c.name == "c"
    ensures Holds4(table, d, p, q, c)
  {
    table := map["d" := d, "p" := p, "q" := q, "c" := c];
  }

  lemma FinishedBy(table: map<string, Cfg>, c: Cfg, b: Cfg)
    requires c.name in table && table[c.name] == c && c.base == Some(b.name) && b.name in table && table[b.name] == b
    requires Derived(c, b)
    ensures Finished(table, c.name)
  {
    assert HasBase(table, c.name);
  }

  lemma DistroFinished(table: map<string, Cfg>, d: Cfg)
    requires d.name in table && table[d.name] == d && Distro(d)
    ensures Finished(table, d.name)
  {
  }

  lemma FourLoaded(table: map<string, Cfg>, d: string, p: string, q: string, c: string)
    requires table.Keys == {d, p, q, c}
    requires Finished(table, d) && Finished(table, p) && Finished(table, q) && Finished(table, c)
    ensures Loaded(table)
  {
    forall n | n in table
      ensures Finished(table, n)
    {
      assert n == d || n == p || n == q || n == c;
    }
  }

  lemma FourOutputs(table: map<string, Cfg>, d: Cfg, p: Cfg, q: Cfg, c: Cfg)
    requires Holds4(table, d, p, q, c) && d.outDir == p.outDir == q.outDir == c.outDir == ""
    ensures OwnOutputs(table)
  {
    forall m, n | m in table && n in table && m != n
      ensures Stem(table[m]) != Stem(table[n])
    {
      assert table[m].name == m && table[n].name == n && table[m].outDir == table[n].outDir == "";
      assert Stem(table[m])[1..] == m && Stem(table[n])[1..] == n;
    }
  }

  lemma ShortNotGenerated(x: string)
    requires |x| == 1
    ensures x !in GENERATED
  {
    assert |INITRD| > 1 && |INITRAMFS| > 1;
  }

  lemma Three() returns (p: Cfg, q: Cfg, c: Cfg)
    ensures Imageless(p, "p") && Imageless(q, "q") && Imageless(c, "c")
    ensures p.base == Some("d") && q.base == Some("d") && c.base == Some("p")
    ensures !p.useParentBin && !q.useParentBin && c.useParentBin
    ensures Derived(p, BARE) && Derived(q, BARE) && Derived(c, p)
    ensures Fragments(p.linux) == ["P"] && Fragments(q.linux) == ["Q"] && c.linux == p.linux
  {
    p := Derive(WithFragment("p", "d", "P"), BARE, "P");
    q := Derive(WithFragment("q", "d", "Q"), BARE, "Q");
    c := DeriveCopy(Plain("c", "p"), p);
    assert Fragments(BARE.linux) + ["P"] == ["P"] && Fragments(BARE.linux) + ["Q"] == ["Q"];
  }

  lemma FamilyExists() returns (f: Family)
    ensures Valid(f)
  {
    var p, q, c := Three();
    var table := TableFor(BARE, p, q, c);
    f := Family(table, [Job("p", false), Job("q", false), Job("c", false)], "p", "q", "c", "P", "Q");
    assert Loaded(table) by {
      DistroFinished(table, BARE);
      FinishedBy(table, p, BARE);
      FinishedBy(table, q, BARE);
      FinishedBy(table, c, p);
      FourLoaded(table, "d", "p", "q", "c");
    }
    assert OwnOutputs(table) by { FourOutputs(table, BARE, p, q, c); }
    ShortNotGenerated("P");
    ShortNotGenerated("Q");
    assert Workloads(f);
    assert Kernels(f);
  }

  /** The input: whatever files there are, built from an empty `.config` in the order p, q, c, the binary
      of q is not what compiling q in the tree as found gives, and that of c is not what compiling c
      at its turn gives. */
  lemma FragmentsLeak(files: Files) returns (f: Family)
    ensures Valid(f)
    ensures var trees: Trees := map[Source(f) := map[]];
            var r := MadeUpTo(EACH, f.table, f.jobs, 3, Disk(files, trees));
            && r.Ok? && Source(f) in r.value.trees
            && !AsCompiled(EACH, f.table[f.q], false, trees, r.value.files)
            && !AsCompiled(EACH, f.table[f.c], false, r.value.trees, r.value.files)
  {
    f := FamilyExists();
    Mixed(f, files);
    Copied(f, files);
  }
}
