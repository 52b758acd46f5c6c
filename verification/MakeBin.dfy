/** Building binaries (makeBin in wlutil/build.py): a Linux workload whose kernel and firmware
    options equal its parent's copies the parent's binary instead of compiling its own.

    A kernel is configured by merging the workload's fragments into the `.config` that is found in
    the kernel's source tree, and the result is left there.  Compiling is taken to be a function of
    the merged options, the kernel modules, the firmware and, for the diskless variant, the image. */
module MakeBin {
  import opened Common
  import opened LinuxOpts
  import opened Config

  type Options = map<string, string>

  // What the fragment files say.
  type FragmentFiles = Path -> Options

  // The `.config` of each kernel source tree.
  type Trees = map<Path, Options>

  /** `options` are those a kernel is configured with, except for the two that name the archive with
      its initial file system; that is given by the modules and, without a disk, the image in it. */
  datatype Kernel = Kernel(source: Path, options: Options, modules: map<string, Option<Path>>, img: Option<Path>)

  datatype Output =
    | Payload(kernel: Kernel, firmware: Firmware)  // firmware around a kernel
    | Vmlinux(kernel: Kernel)                      // the kernel's debugging symbols

  type Files = map<Path, Output>

  datatype Disk = Disk(files: Files, trees: Trees)

  function NoDiskPath(p: Path): Path { p + "-nodisk" }

  // Can the kernel of `c` be compiled?  Otherwise the source raises KeyError.
  predicate Compilable(c: Cfg, nodisk: bool) {
    && c.linux.Some? && c.linux.value.source.Some? && c.linux.value.config.Some?
    && c.firmware.Some? && c.bin.Some? && c.dwarf.Some?
    && (nodisk ==> c.img.Some?)
  }

  // ---------------------------------------------------------------- configuring a kernel

  lemma PlusAssociates(a: Options, b: Options, c: Options)
    ensures a + b + c == a + (b + c)
  {
  }

  // Later fragments override earlier ones.
  function OptionsOf(frag: FragmentFiles, config: seq<Path>): Options {
    if config == [] then map[] else OptionsOf(frag, config[..|config| - 1]) + frag(config[|config| - 1])
  }

  // The options of a workload's own fragments.
  function OwnOptions(frag: FragmentFiles, c: Cfg): Options { OptionsOf(frag, Fragments(c.linux)) }

  const INITRD := "CONFIG_BLK_DEV_INITRD"
  const INITRAMFS := "CONFIG_INITRAMFS_SOURCE"
  const GENERATED := {INITRD, INITRAMFS}

  // makeInitramfsKfrag
  function InitramfsOptions(c: Cfg): Options {
    map[INITRD := "y", INITRAMFS := c.outDir + "/initramfs.cpio"]
  }

  /** The `.config` that compiling `c` leaves in a tree. */
  function Configured(frag: FragmentFiles, c: Cfg, tree: Options): Options {
    tree + OwnOptions(frag, c) + InitramfsOptions(c)
  }

  /** The kernel of `c`, compiled in a tree. */
  function BuiltKernel(frag: FragmentFiles, c: Cfg, nodisk: bool, tree: Options): Kernel
    requires Compilable(c, nodisk)
  {
    Kernel(c.linux.value.source.value, Configured(frag, c, tree) - GENERATED, Modules(c.linux), if nodisk then c.img else None)
  }

  function BinDest(c: Cfg, nodisk: bool): Path
    requires Compilable(c, nodisk)
  {
    if nodisk then NoDiskPath(c.bin.value) else c.bin.value
  }

  function DwarfDest(c: Cfg, nodisk: bool): Path
    requires Compilable(c, nodisk)
  {
    if nodisk then NoDiskPath(c.dwarf.value) else c.dwarf.value
  }

  function Compiled(frag: FragmentFiles, c: Cfg, nodisk: bool, d: Disk): Disk
    requires Compilable(c, nodisk) && c.linux.value.source.value in d.trees
  {
    var source := c.linux.value.source.value;
    var kernel := BuiltKernel(frag, c, nodisk, d.trees[source]);
    Disk(d.files[BinDest(c, nodisk) := Payload(kernel, c.firmware.value)][DwarfDest(c, nodisk) := Vmlinux(kernel)],
         d.trees[source := Configured(frag, c, d.trees[source])])
  }

  // ---------------------------------------------------------------- makeBin, in place

  /** The output directories and kernel trees, as the build leaves them. */
  class Machine {
    const frag: FragmentFiles
    var files: Files
    var trees: Trees

    constructor (frag: FragmentFiles, files: Files, trees: Trees)
      ensures this.frag == frag && this.files == files && this.trees == trees
    {
      this.frag, this.files, this.trees := frag, files, trees;
    }

    ghost function Contents(): Disk
      reads this
    {
      Disk(files, trees)
    }

    method Copy(src: Option<Path>, dst: Option<Path>) returns (ok: bool)
      modifies this`files
      ensures ok <==> src.Some? && dst.Some? && src.value in old(files)
      ensures files == if ok then old(files)[dst.value := old(files)[src.value]] else old(files)
    {
      ok := src.Some? && dst.Some? && src.value in files;
      if ok {
        files := files[dst.value := files[src.value]];
      }
    }

    /** generateKConfig: merges fragments, last the generated one if any, into the tree's `.config`,
        which must be there. */
    method GenerateKConfig(source: Path, config: seq<Path>, generated: Options) returns (ok: bool)
      modifies this`trees
      ensures ok <==> source in old(trees)
      ensures trees == if ok then old(trees)[source := old(trees)[source] + OptionsOf(frag, config) + generated] else old(trees)
    {
      if source !in trees {
        return false;
      }
      var merged := MergeConfig(trees[source], config);
      trees := trees[source := merged + generated];
      return true;
    }

    // merge_config.sh
    method MergeConfig(tree: Options, config: seq<Path>) returns (merged: Options)
      ensures merged == tree + OptionsOf(frag, config)
    {
      merged := tree;
      for i := 0 to |config|
        invariant merged == tree + OptionsOf(frag, config[..i])
      {
        assert config[..i + 1][..i] == config[..i];
        PlusAssociates(tree, OptionsOf(frag, config[..i]), frag(config[i]));
        merged := merged + frag(config[i]);
      }
      assert config[..|config|] == config;
    }

    /** makeBin.  A workload without a kernel is left alone: its binary is prebuilt. */
    method Make(c: Cfg, nodisk: bool) returns (ok: bool)
      modifies this
      ensures Made(frag, c, nodisk, old(Contents())) == if ok then Ok(Contents()) else Err
    {
      if c.useParentBin && !nodisk {
        ok := Copy(c.baseBin, c.bin);
        if ok && c.dwarf.Some? {
          ok := Copy(c.baseDwarf, c.dwarf);
        }
        return;
      }
      if c.linux.Some? {
        if !Compilable(c, nodisk) {
          return false;
        }
        ok := Compile(c, nodisk);
        return;
      }
      return true;
    }

    // The tree is configured twice: for the modules, and for the kernel with its initial file system.
    method Compile(c: Cfg, nodisk: bool) returns (ok: bool)
      requires Compilable(c, nodisk)
      modifies this
      ensures ok <==> c.linux.value.source.value in old(trees)
      ensures ok ==> Contents() == Compiled(frag, c, nodisk, old(Contents()))
    {
      var linux := c.linux.value;
      ok := GenerateKConfig(linux.source.value, linux.config.value, map[]);
      if !ok {
        return;
      }
      ok := GenerateKConfig(linux.source.value, linux.config.value, InitramfsOptions(c));
      MergeTwice(old(trees)[linux.source.value], OwnOptions(frag, c), InitramfsOptions(c));
      assert trees == old(trees)[linux.source.value := Configured(frag, c, old(trees)[linux.source.value])];
      var kernel := Kernel(linux.source.value, trees[linux.source.value] - GENERATED, Modules(c.linux), if nodisk then c.img else None);
      files := files[BinDest(c, nodisk) := Payload(kernel, c.firmware.value)];
      files := files[DwarfDest(c, nodisk) := Vmlinux(kernel)];
    }
  }

  lemma MergeTwice(tree: Options, own: Options, generated: Options)
    ensures tree + own + map[] + own + generated == tree + own + generated
  {
  }

  // What one call of makeBin does.
  function Made(frag: FragmentFiles, c: Cfg, nodisk: bool, d: Disk): Result<Disk> {
    if c.useParentBin && !nodisk then
      if c.baseBin.None? || c.bin.None? || c.baseBin.value !in d.files then Err
      else
        var files := d.files[c.bin.value := d.files[c.baseBin.value]];
        if c.dwarf.None? then Ok(d.(files := files))
        else if c.baseDwarf.None? || c.baseDwarf.value !in files then Err
        else Ok(d.(files := files[c.dwarf.value := files[c.baseDwarf.value]]))
    else if c.linux.None? then Ok(d)
    else if !Compilable(c, nodisk) || c.linux.value.source.value !in d.trees then Err
    else Ok(Compiled(frag, c, nodisk, d))
  }

  // ---------------------------------------------------------------- no output overwrites another

  predicate Apart(c: Cfg, nodiskC: bool, d: Cfg, nodiskD: bool)
    requires Compilable(c, nodiskC) && Compilable(d, nodiskD)
  {
    {BinDest(c, nodiskC), DwarfDest(c, nodiskC)} !! {BinDest(d, nodiskD), DwarfDest(d, nodiskD)}
  }

  lemma SamePrefix(a: string, b: string, s: string)
    requires a + s == b + s
    ensures a == b
  {
    assert |a| == |b|;
    assert a == (a + s)[..|a|] && b == (b + s)[..|b|];
  }

  lemma EndsDiffer(a: string, b: string, s: string, t: string, k: nat)
    requires k < |s| && k < |t| && s[|s| - 1 - k] != t[|t| - 1 - k]
    ensures a + s != b + t
  {
    assert (a + s)[|a + s| - 1 - k] == s[|s| - 1 - k];
    assert (b + t)[|b + t| - 1 - k] == t[|t| - 1 - k];
  }

  // The suffixes of the four files that are ever written for a Linux workload.
  function Suffix(dwarf: bool, nodisk: bool): string {
    (if dwarf then "-bin-dwarf" else "-bin") + (if nodisk then "-nodisk" else "")
  }

  lemma SuffixesDiffer(a: string, b: string, dwarfA: bool, nodiskA: bool, dwarfB: bool, nodiskB: bool)
    requires dwarfA != dwarfB || nodiskA != nodiskB
    ensures a + Suffix(dwarfA, nodiskA) != b + Suffix(dwarfB, nodiskB)
  {
    EndsDiffer(a, b, Suffix(dwarfA, nodiskA), Suffix(dwarfB, nodiskB), if nodiskA && nodiskB then 7 else 0);
  }

  function Stem(c: Cfg): string { c.outDir + "/" + c.name }

  lemma DestIs(c: Cfg, nodisk: bool)
    requires Compilable(c, nodisk) && c.bin.value == BinPath(c) && c.dwarf.value == DwarfPath(c)
    ensures BinDest(c, nodisk) == Stem(c) + Suffix(false, nodisk)
    ensures DwarfDest(c, nodisk) == Stem(c) + Suffix(true, nodisk)
  {
  }

  lemma StemsKeepApart(c: Cfg, nodiskC: bool, d: Cfg, nodiskD: bool)
    requires Compilable(c, nodiskC) && c.bin.value == BinPath(c) && c.dwarf.value == DwarfPath(c)
    requires Compilable(d, nodiskD) && d.bin.value == BinPath(d) && d.dwarf.value == DwarfPath(d)
    requires Stem(c) != Stem(d) || nodiskC != nodiskD
    ensures Apart(c, nodiskC, d, nodiskD)
  {
    DestIs(c, nodiskC);
    DestIs(d, nodiskD);
    forall dwarfC, dwarfD
      ensures Stem(c) + Suffix(dwarfC, nodiskC) != Stem(d) + Suffix(dwarfD, nodiskD)
    {
      if dwarfC != dwarfD || nodiskC != nodiskD {
        SuffixesDiffer(Stem(c), Stem(d), dwarfC, nodiskC, dwarfD, nodiskD);
      } else if Stem(c) + Suffix(dwarfC, nodiskC) == Stem(d) + Suffix(dwarfC, nodiskC) {
        SamePrefix(Stem(c), Stem(d), Suffix(dwarfC, nodiskC));
      }
    }
  }

  lemma BinIsNotDwarf(c: Cfg, nodisk: bool)
    requires Compilable(c, nodisk) && c.bin.value == BinPath(c) && c.dwarf.value == DwarfPath(c)
    ensures BinDest(c, nodisk) != DwarfDest(c, nodisk)
  {
    DestIs(c, nodisk);
    SuffixesDiffer(Stem(c), Stem(c), false, nodisk, true, nodisk);
  }

  // ---------------------------------------------------------------- one task

  predicate Holds(files: Files, p: Path, out: Output) {
    p in files && files[p] == out
  }

  /** The files of `c` are those that come with a kernel. */
  predicate HasKernel(c: Cfg, nodisk: bool, kernel: Kernel, files: Files)
    requires Compilable(c, nodisk)
  {
    Holds(files, BinDest(c, nodisk), Payload(kernel, c.firmware.value)) && Holds(files, DwarfDest(c, nodisk), Vmlinux(kernel))
  }

  // The files say which kernel it is.
  lemma KernelUnique(c: Cfg, nodisk: bool, k: Kernel, l: Kernel, files: Files)
    requires Compilable(c, nodisk) && HasKernel(c, nodisk, k, files)
    ensures HasKernel(c, nodisk, l, files) <==> k == l
  {
  }

  // A task writes only its own two files.
  lemma MadeKeeps(frag: FragmentFiles, c: Cfg, nodiskC: bool, kernel: Kernel, d: Cfg, nodiskD: bool, disk: Disk)
    requires Compilable(c, nodiskC) && Compilable(d, nodiskD) && Apart(c, nodiskC, d, nodiskD)
    requires HasKernel(c, nodiskC, kernel, disk.files) && Made(frag, d, nodiskD, disk).Ok?
    ensures HasKernel(c, nodiskC, kernel, Made(frag, d, nodiskD, disk).value.files)
  {
  }

  lemma CompileGives(frag: FragmentFiles, c: Cfg, nodisk: bool, d: Disk)
    requires Compilable(c, nodisk) && (nodisk || !c.useParentBin) && BinDest(c, nodisk) != DwarfDest(c, nodisk)
    ensures var source := c.linux.value.source.value;
            if source in d.trees then
              && Made(frag, c, nodisk, d).Ok?
              && HasKernel(c, nodisk, BuiltKernel(frag, c, nodisk, d.trees[source]), Made(frag, c, nodisk, d).value.files)
              && Made(frag, c, nodisk, d).value.trees == d.trees[source := Configured(frag, c, d.trees[source])]
            else Made(frag, c, nodisk, d).Err?
  {
  }

  /** Copying gives the child its parent's kernel. */
  lemma CopyGives(frag: FragmentFiles, c: Cfg, b: Cfg, kernel: Kernel, d: Disk)
    requires Compilable(c, false) && Compilable(b, false) && c.useParentBin
    requires c.firmware == b.firmware && c.baseBin == b.bin && c.baseDwarf == b.dwarf
    requires c == b || Apart(c, false, b, false)
    requires BinDest(c, false) != DwarfDest(c, false) && BinDest(b, false) != DwarfDest(b, false)
    requires HasKernel(b, false, kernel, d.files)
    ensures Made(frag, c, false, d).Ok? && Made(frag, c, false, d).value.trees == d.trees
    ensures HasKernel(c, false, kernel, Made(frag, c, false, d).value.files)
  {
  }

  // ---------------------------------------------------------------- whole builds

  /** A loaded table of workloads: each is a distribution or finished from its base. */
  ghost predicate Loaded(table: map<string, Cfg>) {
    forall n {:trigger Finished(table, n)} :: n in table ==> Finished(table, n)
  }

  ghost predicate Finished(table: map<string, Cfg>, n: string)
    requires n in table
  {
    Distro(table[n]) || HasBase(table, n)
  }

  ghost predicate HasBase(table: map<string, Cfg>, n: string)
    requires n in table
  {
    table[n].base.Some? && table[n].base.value in table && Derived(table[n], table[table[n].base.value])
  }

  // Linux workloads have output paths of their own.
  ghost predicate OwnOutputs(table: map<string, Cfg>) {
    forall m, n :: m in table && n in table && m != n && table[m].linux.Some? && table[n].linux.Some? ==>
      Stem(table[m]) != Stem(table[n])
  }

  // One task that a build runs: the binary of a workload, or its diskless binary.
  datatype Job = Job(name: string, nodisk: bool)

  ghost predicate Jobs(table: map<string, Cfg>, jobs: seq<Job>) {
    forall k :: 0 <= k < |jobs| ==>
      jobs[k].name in table && (table[jobs[k].name].linux.Some? ==> Compilable(table[jobs[k].name], jobs[k].nodisk))
  }

  predicate Copies(table: map<string, Cfg>, job: Job)
    requires job.name in table
  {
    table[job.name].useParentBin && !job.nodisk
  }

  // A copying task runs after the task of its base, on which it depends.
  ghost predicate Ordered(table: map<string, Cfg>, jobs: seq<Job>)
    requires Jobs(table, jobs)
  {
    forall k :: 0 <= k < |jobs| && Copies(table, jobs[k]) ==> AfterBase(table, jobs, k)
  }

  ghost predicate AfterBase(table: map<string, Cfg>, jobs: seq<Job>, k: nat)
    requires Jobs(table, jobs) && k < |jobs|
  {
    var base := table[jobs[k].name].base;
    base.Some? && exists j :: 0 <= j < k && jobs[j] == Job(base.value, false)
  }

  // What the first n tasks do.
  function MadeUpTo(frag: FragmentFiles, table: map<string, Cfg>, jobs: seq<Job>, n: nat, d: Disk): Result<Disk>
    requires n <= |jobs| && forall k :: 0 <= k < |jobs| ==> jobs[k].name in table
  {
    if n == 0 then Ok(d) else Then(frag, table, jobs[n - 1], MadeUpTo(frag, table, jobs, n - 1, d))
  }

  function Then(frag: FragmentFiles, table: map<string, Cfg>, job: Job, r: Result<Disk>): Result<Disk>
    requires job.name in table
  {
    if r.Err? then Err else MadeNext(frag, table, job, r.value)
  }

  function MadeNext(frag: FragmentFiles, table: map<string, Cfg>, job: Job, d: Disk): Result<Disk>
    requires job.name in table
  {
    Made(frag, table[job.name], job.nodisk, d)
  }

  lemma LinuxIsDerived(table: map<string, Cfg>, n: string)
    requires Loaded(table) && n in table && table[n].linux.Some?
    ensures HasBase(table, n)
    ensures var c, b := table[n], table[table[n].base.value];
            && c.bin == Some(BinPath(c)) && c.dwarf == Some(DwarfPath(c))
            && c.baseBin == b.bin && c.baseDwarf == b.dwarf
            && (c.useParentBin ==> c.linux == b.linux && c.firmware == b.firmware)
  {
    assert Finished(table, n);
    DerivedFacts(table[n], table[table[n].base.value]);
  }

  lemma TasksApart(table: map<string, Cfg>, job: Job, next: Job)
    requires Loaded(table) && OwnOutputs(table) && job.name in table && next.name in table && job != next
    requires Compilable(table[job.name], job.nodisk) && Compilable(table[next.name], next.nodisk)
    ensures Apart(table[job.name], job.nodisk, table[next.name], next.nodisk)
  {
    LinuxIsDerived(table, job.name);
    LinuxIsDerived(table, next.name);
    StemsKeepApart(table[job.name], job.nodisk, table[next.name], next.nodisk);
  }

  lemma PrebuiltUntouched(frag: FragmentFiles, table: map<string, Cfg>, job: Job, d: Disk)
    requires Loaded(table) && job.name in table && table[job.name].linux.None?
    ensures MadeNext(frag, table, job, d) == Ok(d) && !Copies(table, job)
  {
    assert Finished(table, job.name);
    if HasBase(table, job.name) {
      DerivedFacts(table[job.name], table[table[job.name].base.value]);
    }
  }

  // ---------------------------------------------------------------- what builds leave in the trees

  predicate Compiles(table: map<string, Cfg>, job: Job, source: Path)
    requires job.name in table
  {
    table[job.name].linux.Some? && table[job.name].linux.value.source == Some(source) && !Copies(table, job)
  }

  /** The options that the first n tasks set in a kernel tree. */
  function LeftBy(frag: FragmentFiles, table: map<string, Cfg>, jobs: seq<Job>, n: nat, source: Path): Options
    requires n <= |jobs| && forall k :: 0 <= k < |jobs| ==> jobs[k].name in table
  {
    if n == 0 then map[]
    else
      var before := LeftBy(frag, table, jobs, n - 1, source);
      if Compiles(table, jobs[n - 1], source) then Configured(frag, table[jobs[n - 1].name], before) else before
  }

  function TreeAt(frag: FragmentFiles, table: map<string, Cfg>, jobs: seq<Job>, n: nat, source: Path, first: Options): Options
    requires n <= |jobs| && forall k :: 0 <= k < |jobs| ==> jobs[k].name in table
  {
    first + LeftBy(frag, table, jobs, n, source)
  }

  lemma ConfiguredOver(frag: FragmentFiles, c: Cfg, first: Options, left: Options)
    ensures Configured(frag, c, first + left) == first + Configured(frag, c, left)
  {
    PlusAssociates(first, left, OwnOptions(frag, c));
    PlusAssociates(first, left + OwnOptions(frag, c), InitramfsOptions(c));
  }

  // ---------------------------------------------------------------- where binaries come from

  // The last of the first n tasks that is `job`, or n if there is none.
  function LastRun(jobs: seq<Job>, n: nat, job: Job): (j: nat)
    requires n <= |jobs|
    ensures j <= n && (j < n ==> jobs[j] == job)
    ensures forall k :: 0 <= k < n && jobs[k] == job ==> k <= j < n
  {
    if n == 0 then 0
    else if jobs[n - 1] == job then n - 1
    else
      var j := LastRun(jobs, n - 1, job);
      if j == n - 1 then n else j
  }

  /** The task that compiled what the k-th task leaves: itself, unless it copies. */
  function Origin(table: map<string, Cfg>, jobs: seq<Job>, k: nat): (o: nat)
    requires k < |jobs| && forall k :: 0 <= k < |jobs| ==> jobs[k].name in table
    ensures o <= k
  {
    if !Copies(table, jobs[k]) || table[jobs[k].name].base.None? then k
    else
      var j := LastRun(jobs, k, Job(table[jobs[k].name].base.value, false));
      if j < k then Origin(table, jobs, j) else k
  }

  // The origin builds the same kernel, with the same firmware, and is not a copy.
  lemma {:induction false} OriginIs(table: map<string, Cfg>, jobs: seq<Job>, k: nat)
    requires Loaded(table) && Jobs(table, jobs) && Ordered(table, jobs) && k < |jobs| && table[jobs[k].name].linux.Some?
    ensures var o := Origin(table, jobs, k);
            var c, b := table[jobs[k].name], table[jobs[o].name];
            && !Copies(table, jobs[o]) && b.linux == c.linux && b.firmware == c.firmware
            && (jobs[k].nodisk || Copies(table, jobs[k]) ==> jobs[k].nodisk == jobs[o].nodisk)
            && (o < k ==> !jobs[k].nodisk && !jobs[o].nodisk)
    decreases k
  {
    if Copies(table, jobs[k]) {
      assert AfterBase(table, jobs, k);
      LinuxIsDerived(table, jobs[k].name);
      OriginIs(table, jobs, LastRun(jobs, k, Job(table[jobs[k].name].base.value, false)));
    }
  }

  predicate IsLinux(table: map<string, Cfg>, jobs: seq<Job>, k: nat) {
    k < |jobs| && jobs[k].name in table && table[jobs[k].name].linux.Some?
  }

  function SourceOf(table: map<string, Cfg>, jobs: seq<Job>, k: nat): Path
    requires IsLinux(table, jobs, k) && Compilable(table[jobs[k].name], jobs[k].nodisk)
  {
    table[jobs[k].name].linux.value.source.value
  }

  /** The kernel of the k-th task, had it been compiled in the tree as its origin found it. */
  function KernelOf(frag: FragmentFiles, table: map<string, Cfg>, jobs: seq<Job>, k: nat, trees: Trees): Kernel
    requires IsLinux(table, jobs, k) && Compilable(table[jobs[k].name], jobs[k].nodisk)
    requires forall k :: 0 <= k < |jobs| ==> jobs[k].name in table
    requires SourceOf(table, jobs, k) in trees
  {
    var source := SourceOf(table, jobs, k);
    BuiltKernel(frag, table[jobs[k].name], jobs[k].nodisk,
                TreeAt(frag, table, jobs, Origin(table, jobs, k), source, trees[source]))
  }

  // ---------------------------------------------------------------- what a build leaves

  // The trees of the kernels among the first n tasks have a `.config`.
  ghost predicate SourcesFound(table: map<string, Cfg>, jobs: seq<Job>, n: nat, trees: Trees)
    requires Jobs(table, jobs) && n <= |jobs|
  {
    forall k: nat {:trigger IsLinux(table, jobs, k)} :: k < n && IsLinux(table, jobs, k) ==> SourceOf(table, jobs, k) in trees
  }

  ghost predicate TreesAre(frag: FragmentFiles, table: map<string, Cfg>, jobs: seq<Job>, n: nat, first: Trees, trees: Trees)
    requires Jobs(table, jobs) && n <= |jobs|
  {
    trees.Keys == first.Keys && forall s :: s in first ==> trees[s] == TreeAt(frag, table, jobs, n, s, first[s])
  }

  // Each Linux task among the first n that has not run again has left its kernel.
  ghost predicate KernelsAre(frag: FragmentFiles, table: map<string, Cfg>, jobs: seq<Job>, n: nat, first: Trees, files: Files)
    requires Jobs(table, jobs) && n <= |jobs| && SourcesFound(table, jobs, n, first)
  {
    forall k: nat {:trigger KernelIs(frag, table, jobs, k, first, files)} ::
      k < n && IsLinux(table, jobs, k) && LastRun(jobs, n, jobs[k]) == k ==> KernelIs(frag, table, jobs, k, first, files)
  }

  ghost predicate KernelIs(frag: FragmentFiles, table: map<string, Cfg>, jobs: seq<Job>, k: nat, first: Trees, files: Files)
    requires Jobs(table, jobs) && IsLinux(table, jobs, k)
  {
    SourceOf(table, jobs, k) in first &&
    HasKernel(table[jobs[k].name], jobs[k].nodisk, KernelOf(frag, table, jobs, k, first), files)
  }

  ghost predicate Built(frag: FragmentFiles, table: map<string, Cfg>, jobs: seq<Job>, n: nat, first: Trees, d: Disk)
    requires Jobs(table, jobs) && n <= |jobs|
  {
    && SourcesFound(table, jobs, n, first)
    && TreesAre(frag, table, jobs, n, first, d.trees) && KernelsAre(frag, table, jobs, n, first, d.files)
  }

  lemma TreesNext(frag: FragmentFiles, table: map<string, Cfg>, jobs: seq<Job>, n: nat, first: Trees, d: Disk, d': Disk)
    requires Jobs(table, jobs) && n < |jobs| && TreesAre(frag, table, jobs, n, first, d.trees)
    requires var c := table[jobs[n].name];
             if c.linux.Some? && !Copies(table, jobs[n]) then
               && SourceOf(table, jobs, n) in d.trees
               && d'.trees == d.trees[SourceOf(table, jobs, n) := Configured(frag, c, d.trees[SourceOf(table, jobs, n)])]
             else d'.trees == d.trees
    ensures TreesAre(frag, table, jobs, n + 1, first, d'.trees)
  {
    forall s | s in first
      ensures d'.trees[s] == TreeAt(frag, table, jobs, n + 1, s, first[s])
    {
      if Compiles(table, jobs[n], s) {
        ConfiguredOver(frag, table[jobs[n].name], first[s], LeftBy(frag, table, jobs, n, s));
      }
    }
  }

  // A task that compiles.
  lemma CompilesNext(frag: FragmentFiles, table: map<string, Cfg>, jobs: seq<Job>, n: nat, first: Trees, d: Disk)
    requires Loaded(table) && Jobs(table, jobs) && IsLinux(table, jobs, n) && !Copies(table, jobs[n])
    requires TreesAre(frag, table, jobs, n, first, d.trees)
    ensures MadeNext(frag, table, jobs[n], d).Ok? <==> SourceOf(table, jobs, n) in first
    ensures MadeNext(frag, table, jobs[n], d).Ok? ==>
              && TreesAre(frag, table, jobs, n + 1, first, MadeNext(frag, table, jobs[n], d).value.trees)
              && KernelIs(frag, table, jobs, n, first, MadeNext(frag, table, jobs[n], d).value.files)
  {
    var job := jobs[n];
    LinuxIsDerived(table, job.name);
    BinIsNotDwarf(table[job.name], job.nodisk);
    CompileGives(frag, table[job.name], job.nodisk, d);
    if SourceOf(table, jobs, n) in first {
      TreesNext(frag, table, jobs, n, first, d, MadeNext(frag, table, job, d).value);
    }
  }

  // A task that copies.
  lemma CopiesNext(frag: FragmentFiles, table: map<string, Cfg>, jobs: seq<Job>, n: nat, first: Trees, d: Disk)
    requires Loaded(table) && OwnOutputs(table) && Jobs(table, jobs) && Ordered(table, jobs)
    requires IsLinux(table, jobs, n) && Copies(table, jobs[n]) && Built(frag, table, jobs, n, first, d)
    ensures MadeNext(frag, table, jobs[n], d).Ok? && SourceOf(table, jobs, n) in first
    ensures MadeNext(frag, table, jobs[n], d).value.trees == d.trees
    ensures KernelIs(frag, table, jobs, n, first, MadeNext(frag, table, jobs[n], d).value.files)
  {
    var c := table[jobs[n].name];
    assert AfterBase(table, jobs, n);
    LinuxIsDerived(table, jobs[n].name);
    var base := Job(c.base.value, false);
    var j := LastRun(jobs, n, base);
    LastRunAgain(jobs, n, j);
    assert IsLinux(table, jobs, j) && KernelIs(frag, table, jobs, j, first, d.files);
    var b := table[base.name];
    LinuxIsDerived(table, base.name);
    BinIsNotDwarf(c, false);
    BinIsNotDwarf(b, false);
    if base != jobs[n] {
      TasksApart(table, jobs[n], base);
    }
    SameKernel(frag, table, jobs, n, j, first);
    CopyGives(frag, c, b, KernelOf(frag, table, jobs, j, first), d);
  }

  lemma LastRunAgain(jobs: seq<Job>, n: nat, j: nat)
    requires j < n <= |jobs| && LastRun(jobs, n, jobs[j]) == j
    ensures forall k :: j < k < n ==> jobs[k] != jobs[j]
  {
  }

  // What is copied is what compiling the copying workload would have given, at its origin's time.
  lemma SameKernel(frag: FragmentFiles, table: map<string, Cfg>, jobs: seq<Job>, n: nat, j: nat, first: Trees)
    requires Jobs(table, jobs) && IsLinux(table, jobs, n) && IsLinux(table, jobs, j) && Copies(table, jobs[n]) && j < n
    requires table[jobs[n].name].base == Some(jobs[j].name) && !jobs[j].nodisk && j == LastRun(jobs, n, jobs[j])
    requires table[jobs[n].name].linux == table[jobs[j].name].linux && SourceOf(table, jobs, n) in first
    ensures KernelOf(frag, table, jobs, n, first) == KernelOf(frag, table, jobs, j, first)
  {
    var c, b := table[jobs[n].name], table[jobs[j].name];
    assert jobs[j] == Job(c.base.value, false);
    var source := SourceOf(table, jobs, n);
    var tree := TreeAt(frag, table, jobs, Origin(table, jobs, j), source, first[source]);
    SameOptions(frag, c, b, tree);
  }

  lemma SameOptions(frag: FragmentFiles, c: Cfg, b: Cfg, tree: Options)
    requires c.linux == b.linux
    ensures Configured(frag, c, tree) - GENERATED == Configured(frag, b, tree) - GENERATED
  {
  }

  lemma KernelsKept(frag: FragmentFiles, table: map<string, Cfg>, jobs: seq<Job>, n: nat, first: Trees, d: Disk, k: nat)
    requires Loaded(table) && OwnOutputs(table) && Jobs(table, jobs) && IsLinux(table, jobs, n)
    requires MadeNext(frag, table, jobs[n], d).Ok? && k < n && IsLinux(table, jobs, k) && jobs[k] != jobs[n]
    requires KernelIs(frag, table, jobs, k, first, d.files)
    ensures KernelIs(frag, table, jobs, k, first, MadeNext(frag, table, jobs[n], d).value.files)
  {
    TasksApart(table, jobs[k], jobs[n]);
    MadeKeeps(frag, table[jobs[k].name], jobs[k].nodisk, KernelOf(frag, table, jobs, k, first),
              table[jobs[n].name], jobs[n].nodisk, d);
  }

  lemma AllKept(frag: FragmentFiles, table: map<string, Cfg>, jobs: seq<Job>, n: nat, first: Trees, d: Disk)
    requires Loaded(table) && OwnOutputs(table) && Jobs(table, jobs) && IsLinux(table, jobs, n)
    requires SourcesFound(table, jobs, n, first) && KernelsAre(frag, table, jobs, n, first, d.files)
    requires MadeNext(frag, table, jobs[n], d).Ok? && SourceOf(table, jobs, n) in first
    requires KernelIs(frag, table, jobs, n, first, MadeNext(frag, table, jobs[n], d).value.files)
    ensures SourcesFound(table, jobs, n + 1, first)
    ensures KernelsAre(frag, table, jobs, n + 1, first, MadeNext(frag, table, jobs[n], d).value.files)
  {
    var files := MadeNext(frag, table, jobs[n], d).value.files;
    forall k: nat | k < n + 1 && IsLinux(table, jobs, k) && LastRun(jobs, n + 1, jobs[k]) == k
      ensures KernelIs(frag, table, jobs, k, first, files)
    {
      if k < n {
        assert KernelIs(frag, table, jobs, k, first, d.files);
        KernelsKept(frag, table, jobs, n, first, d, k);
      }
    }
  }

  // A task without a kernel.
  lemma PrebuiltNext(frag: FragmentFiles, table: map<string, Cfg>, jobs: seq<Job>, n: nat, first: Trees, d: Disk)
    requires Loaded(table) && Jobs(table, jobs) && n < |jobs| && !IsLinux(table, jobs, n) && Built(frag, table, jobs, n, first, d)
    ensures MadeNext(frag, table, jobs[n], d) == Ok(d) && Built(frag, table, jobs, n + 1, first, d)
  {
    PrebuiltUntouched(frag, table, jobs[n], d);
    TreesNext(frag, table, jobs, n, first, d, d);
    forall k: nat | k < n + 1 && IsLinux(table, jobs, k) && LastRun(jobs, n + 1, jobs[k]) == k
      ensures KernelIs(frag, table, jobs, k, first, d.files)
    {
      assert k < n;
    }
  }

  lemma LinuxNext(frag: FragmentFiles, table: map<string, Cfg>, jobs: seq<Job>, n: nat, first: Trees, d: Disk)
    requires Loaded(table) && OwnOutputs(table) && Jobs(table, jobs) && Ordered(table, jobs)
    requires IsLinux(table, jobs, n) && Built(frag, table, jobs, n, first, d)
    ensures MadeNext(frag, table, jobs[n], d).Ok? <==> SourceOf(table, jobs, n) in first
    ensures MadeNext(frag, table, jobs[n], d).Ok? ==> Built(frag, table, jobs, n + 1, first, MadeNext(frag, table, jobs[n], d).value)
  {
    if Copies(table, jobs[n]) {
      CopiesNext(frag, table, jobs, n, first, d);
      TreesNext(frag, table, jobs, n, first, d, MadeNext(frag, table, jobs[n], d).value);
    } else {
      CompilesNext(frag, table, jobs, n, first, d);
    }
    if MadeNext(frag, table, jobs[n], d).Ok? {
      AllKept(frag, table, jobs, n, first, d);
    }
  }

  ghost predicate Outcome(frag: FragmentFiles, table: map<string, Cfg>, jobs: seq<Job>, n: nat, first: Trees, r: Result<Disk>)
    requires Jobs(table, jobs) && n <= |jobs|
  {
    && (r.Ok? <==> SourcesFound(table, jobs, n, first))
    && (r.Ok? ==> Built(frag, table, jobs, n, first, r.value))
  }

  lemma OutcomeNext(frag: FragmentFiles, table: map<string, Cfg>, jobs: seq<Job>, n: nat, first: Trees, r: Result<Disk>)
    requires Loaded(table) && OwnOutputs(table) && Jobs(table, jobs) && Ordered(table, jobs)
    requires n < |jobs| && Outcome(frag, table, jobs, n, first, r)
    ensures Outcome(frag, table, jobs, n + 1, first, Then(frag, table, jobs[n], r))
  {
    FoundNext(table, jobs, n, first);
    if r.Ok? {
      BuiltNext(frag, table, jobs, n, first, r.value);
    }
  }

  /** A build of a loaded table that runs copying tasks after those of their bases, whatever stale files
      it starts from, succeeds exactly if the kernel trees have a `.config`, and leaves for each Linux
      workload the kernel it would have if it had been compiled when its origin was. */
  lemma {:induction false} BuildLeaves(frag: FragmentFiles, table: map<string, Cfg>, jobs: seq<Job>, n: nat, d: Disk)
    requires Loaded(table) && OwnOutputs(table) && Jobs(table, jobs) && Ordered(table, jobs) && n <= |jobs|
    ensures Outcome(frag, table, jobs, n, d.trees, MadeUpTo(frag, table, jobs, n, d))
    decreases n
  {
    if n == 0 {
      NothingBuilt(frag, table, jobs, d);
    } else {
      BuildLeaves(frag, table, jobs, n - 1, d);
      MadeOneMore(frag, table, jobs, n - 1, d);
      OutcomeNext(frag, table, jobs, n - 1, d.trees, MadeUpTo(frag, table, jobs, n - 1, d));
    }
  }

  lemma MadeOneMore(frag: FragmentFiles, table: map<string, Cfg>, jobs: seq<Job>, n: nat, d: Disk)
    requires n < |jobs| && forall k :: 0 <= k < |jobs| ==> jobs[k].name in table
    ensures MadeUpTo(frag, table, jobs, n + 1, d) == Then(frag, table, jobs[n], MadeUpTo(frag, table, jobs, n, d))
  {
  }

  lemma NothingBuilt(frag: FragmentFiles, table: map<string, Cfg>, jobs: seq<Job>, d: Disk)
    requires Jobs(table, jobs)
    ensures Outcome(frag, table, jobs, 0, d.trees, MadeUpTo(frag, table, jobs, 0, d))
  {
    assert forall s :: s in d.trees ==> d.trees[s] == d.trees[s] + map[];
  }

  lemma BuiltNext(frag: FragmentFiles, table: map<string, Cfg>, jobs: seq<Job>, n: nat, first: Trees, d: Disk)
    requires Loaded(table) && OwnOutputs(table) && Jobs(table, jobs) && Ordered(table, jobs)
    requires n < |jobs| && Built(frag, table, jobs, n, first, d)
    ensures MadeNext(frag, table, jobs[n], d).Ok? <==> (IsLinux(table, jobs, n) ==> SourceOf(table, jobs, n) in first)
    ensures MadeNext(frag, table, jobs[n], d).Ok? ==> Built(frag, table, jobs, n + 1, first, MadeNext(frag, table, jobs[n], d).value)
  {
    if IsLinux(table, jobs, n) {
      LinuxNext(frag, table, jobs, n, first, d);
    } else {
      PrebuiltNext(frag, table, jobs, n, first, d);
    }
  }

  lemma FoundNext(table: map<string, Cfg>, jobs: seq<Job>, n: nat, trees: Trees)
    requires Jobs(table, jobs) && n < |jobs|
    ensures SourcesFound(table, jobs, n + 1, trees) <==>
              SourcesFound(table, jobs, n, trees) && (IsLinux(table, jobs, n) ==> SourceOf(table, jobs, n) in trees)
  {
  }

  // ---------------------------------------------------------------- what it should leave

  /** The files of `c` hold the kernel compiled in the tree as the build first found it. */
  predicate AsCompiled(frag: FragmentFiles, c: Cfg, nodisk: bool, trees: Trees, files: Files)
    requires Compilable(c, nodisk) && c.linux.value.source.value in trees
  {
    HasKernel(c, nodisk, BuiltKernel(frag, c, nodisk, trees[c.linux.value.source.value]), files)
  }

  // Options that do not show in a kernel whose own fragments set `own`, compiled in a tree that
  // first held `first`.
  predicate Hidden(left: Options, own: Options, first: Options) {
    forall x :: x in left && x !in own && x !in GENERATED ==> x in first && first[x] == left[x]
  }

  lemma HiddenIff(frag: FragmentFiles, c: Cfg, first: Options, left: Options)
    ensures Configured(frag, c, first + left) - GENERATED == Configured(frag, c, first) - GENERATED <==>
            Hidden(left, OwnOptions(frag, c), first)
  {
    var own := OwnOptions(frag, c);
    if Hidden(left, own, first) {
      HiddenSame(left, own, first, InitramfsOptions(c));
    } else {
      var x :| x in left && x !in own && x !in GENERATED && !(x in first && first[x] == left[x]);
      ShownDiffers(left, own, first, InitramfsOptions(c), x);
    }
  }

  lemma HiddenSame(left: Options, own: Options, first: Options, generated: Options)
    requires Hidden(left, own, first)
    ensures (first + left + own + generated) - GENERATED == (first + own + generated) - GENERATED
  {
    var mixed, clean := (first + left + own + generated) - GENERATED, (first + own + generated) - GENERATED;
    assert forall x :: x in mixed <==> x in clean;
    assert forall x :: x in clean ==> mixed[x] == clean[x];
  }

  lemma ShownDiffers(left: Options, own: Options, first: Options, generated: Options, x: string)
    requires generated.Keys == GENERATED && x in left && x !in own && x !in GENERATED && !(x in first && first[x] == left[x])
    ensures (first + left + own + generated) - GENERATED != (first + own + generated) - GENERATED
  {
    var mixed, clean := (first + left + own + generated) - GENERATED, (first + own + generated) - GENERATED;
    assert x in mixed && mixed[x] == left[x];
    assert x in clean ==> clean[x] == first[x];
  }

  /** Every option that tasks before the k-th have set in its kernel tree is set by its own fragments
      or has the value it had at first. */
  predicate Unmixed(frag: FragmentFiles, table: map<string, Cfg>, jobs: seq<Job>, k: nat, first: Trees)
    requires IsLinux(table, jobs, k) && Compilable(table[jobs[k].name], jobs[k].nodisk)
    requires (forall k :: 0 <= k < |jobs| ==> jobs[k].name in table) && SourceOf(table, jobs, k) in first
  {
    var source := SourceOf(table, jobs, k);
    Hidden(LeftBy(frag, table, jobs, k, source), OwnOptions(frag, table[jobs[k].name]), first[source])
  }

  lemma KernelIff(frag: FragmentFiles, table: map<string, Cfg>, jobs: seq<Job>, k: nat, first: Trees)
    requires Loaded(table) && Jobs(table, jobs) && Ordered(table, jobs) && IsLinux(table, jobs, k)
    requires SourceOf(table, jobs, k) in first
    ensures IsLinux(table, jobs, Origin(table, jobs, k)) && SourceOf(table, jobs, Origin(table, jobs, k)) in first
    ensures KernelOf(frag, table, jobs, k, first) ==
              BuiltKernel(frag, table[jobs[k].name], jobs[k].nodisk, first[SourceOf(table, jobs, k)])
            <==> Unmixed(frag, table, jobs, Origin(table, jobs, k), first)
  {
    var o := Origin(table, jobs, k);
    var c, source := table[jobs[k].name], SourceOf(table, jobs, k);
    OriginIs(table, jobs, k);
    HiddenIff(frag, c, first[source], LeftBy(frag, table, jobs, o, source));
  }

  /** What copying and compiling preserve, exactly: after the build, the files of a Linux workload are
      those that compiling it in the tree as first found would give if and only if no option left in
      the tree by tasks before its origin shows in its kernel. */
  lemma CopyPreservesMeaning(frag: FragmentFiles, table: map<string, Cfg>, jobs: seq<Job>, d: Disk, k: nat)
    requires Loaded(table) && OwnOutputs(table) && Jobs(table, jobs) && Ordered(table, jobs)
    requires SourcesFound(table, jobs, |jobs|, d.trees)
    requires IsLinux(table, jobs, k) && LastRun(jobs, |jobs|, jobs[k]) == k
    ensures Faithful(frag, table, jobs, d, k, MadeUpTo(frag, table, jobs, |jobs|, d))
  {
    BuildLeaves(frag, table, jobs, |jobs|, d);
    var files := MadeUpTo(frag, table, jobs, |jobs|, d).value.files;
    assert KernelIs(frag, table, jobs, k, d.trees, files);
    KernelIff(frag, table, jobs, k, d.trees);
    KernelUnique(table[jobs[k].name], jobs[k].nodisk, KernelOf(frag, table, jobs, k, d.trees),
                 BuiltKernel(frag, table[jobs[k].name], jobs[k].nodisk, d.trees[SourceOf(table, jobs, k)]), files);
  }

  ghost predicate Faithful(frag: FragmentFiles, table: map<string, Cfg>, jobs: seq<Job>, d: Disk, k: nat, r: Result<Disk>)
    requires Jobs(table, jobs) && IsLinux(table, jobs, k) && SourceOf(table, jobs, k) in d.trees
  {
    var o := Origin(table, jobs, k);
    && r.Ok? && IsLinux(table, jobs, o) && SourceOf(table, jobs, o) in d.trees
    && (AsCompiled(frag, table[jobs[k].name], jobs[k].nodisk, d.trees, r.value.files) <==> Unmixed(frag, table, jobs, o, d.trees))
  }

  // ---------------------------------------------------------------- what is in a binary

  function Get(options: Options, x: string): Option<string> {
    if x in options then Some(options[x]) else None
  }

  // The value that the last fragment on a list that sets an option gives it.
  function LastFragment(frag: FragmentFiles, config: seq<Path>, x: string): Option<string> {
    if config == [] then None
    else
      var n := |config| - 1;
      if x in frag(config[n]) then Some(frag(config[n])[x]) else LastFragment(frag, config[..n], x)
  }

  lemma {:induction false} LastFragmentWins(frag: FragmentFiles, config: seq<Path>, x: string)
    ensures Get(OptionsOf(frag, config), x) == LastFragment(frag, config, x)
  {
    if config != [] {
      LastFragmentWins(frag, config[..|config| - 1], x);
    }
  }

  // The value of an option in a kernel tree after the first n tasks: the last of them that compiled
  // in the tree and has a fragment that sets it decides.
  function OptionAt(frag: FragmentFiles, table: map<string, Cfg>, jobs: seq<Job>, n: nat, source: Path, first: Options, x: string): Option<string>
    requires n <= |jobs| && forall k :: 0 <= k < |jobs| ==> jobs[k].name in table
  {
    if n == 0 then Get(first, x)
    else
      var own := LastFragment(frag, Fragments(table[jobs[n - 1].name].linux), x);
      if Compiles(table, jobs[n - 1], source) && own.Some? then own else OptionAt(frag, table, jobs, n - 1, source, first, x)
  }

  lemma ConfiguredOption(frag: FragmentFiles, c: Cfg, tree: Options, x: string)
    requires x !in GENERATED
    ensures Get(Configured(frag, c, tree), x) == OrElse(LastFragment(frag, Fragments(c.linux), x), Get(tree, x))
  {
    LastFragmentWins(frag, Fragments(c.linux), x);
  }

  lemma {:induction false} TreeOption(frag: FragmentFiles, table: map<string, Cfg>, jobs: seq<Job>, n: nat, source: Path, first: Options, x: string)
    requires n <= |jobs| && (forall k :: 0 <= k < |jobs| ==> jobs[k].name in table) && x !in GENERATED
    ensures Get(TreeAt(frag, table, jobs, n, source, first), x) == OptionAt(frag, table, jobs, n, source, first, x)
    decreases n
  {
    if n > 0 {
      TreeOption(frag, table, jobs, n - 1, source, first, x);
      if Compiles(table, jobs[n - 1], source) {
        ConfiguredOver(frag, table[jobs[n - 1].name], first, LeftBy(frag, table, jobs, n - 1, source));
        ConfiguredOption(frag, table[jobs[n - 1].name], TreeAt(frag, table, jobs, n - 1, source, first), x);
      }
    }
  }

  /** The kernel of the k-th task, by the workload's groups: its source and modules, the image exactly if
      there is no disk, and each option as the last own fragment that sets it says, or else as it was in
      the tree when the origin was compiled. */
  ghost predicate KernelSays(frag: FragmentFiles, table: map<string, Cfg>, jobs: seq<Job>, k: nat, first: Trees, kernel: Kernel)
    requires Jobs(table, jobs) && IsLinux(table, jobs, k) && SourceOf(table, jobs, k) in first
  {
    var c, source := table[jobs[k].name], SourceOf(table, jobs, k);
    && kernel.source == source && kernel.modules == Modules(c.linux)
    && kernel.img == (if jobs[k].nodisk then c.img else None)
    && forall x :: Get(kernel.options, x) ==
         if x in GENERATED then None
         else OrElse(LastFragment(frag, Fragments(c.linux), x),
                     OptionAt(frag, table, jobs, Origin(table, jobs, k), source, first[source], x))
  }

  lemma KernelOfSays(frag: FragmentFiles, table: map<string, Cfg>, jobs: seq<Job>, k: nat, first: Trees)
    requires Jobs(table, jobs) && IsLinux(table, jobs, k) && SourceOf(table, jobs, k) in first
    ensures KernelSays(frag, table, jobs, k, first, KernelOf(frag, table, jobs, k, first))
  {
    var c, source, o := table[jobs[k].name], SourceOf(table, jobs, k), Origin(table, jobs, k);
    var tree := TreeAt(frag, table, jobs, o, source, first[source]);
    forall x | x !in GENERATED
      ensures Get(Configured(frag, c, tree), x) ==
              OrElse(LastFragment(frag, Fragments(c.linux), x), OptionAt(frag, table, jobs, o, source, first[source], x))
    {
      TreeOption(frag, table, jobs, o, source, first[source], x);
      ConfiguredOption(frag, c, tree, x);
    }
  }

  function BinaryPath(c: Cfg, nodisk: bool): Path { c.outDir + "/" + c.name + "-bin" + (if nodisk then "-nodisk" else "") }

  // A binary on disk: a kernel with a given description, and the workload's firmware.
  ghost predicate BinaryHolds(frag: FragmentFiles, table: map<string, Cfg>, jobs: seq<Job>, k: nat, first: Trees, r: Result<Disk>)
    requires Jobs(table, jobs) && IsLinux(table, jobs, k) && SourceOf(table, jobs, k) in first
  {
    var c := table[jobs[k].name];
    var path := BinaryPath(c, jobs[k].nodisk);
    && r.Ok? && path in r.value.files && r.value.files[path].Payload?
    && r.value.files[path].firmware == c.firmware.value
    && KernelSays(frag, table, jobs, k, first, r.value.files[path].kernel)
  }

  /** What the binary of every Linux workload holds after a build, in terms of its options. */
  lemma BinaryIs(frag: FragmentFiles, table: map<string, Cfg>, jobs: seq<Job>, d: Disk, k: nat)
    requires Loaded(table) && OwnOutputs(table) && Jobs(table, jobs) && Ordered(table, jobs)
    requires SourcesFound(table, jobs, |jobs|, d.trees)
    requires IsLinux(table, jobs, k) && LastRun(jobs, |jobs|, jobs[k]) == k
    ensures BinaryHolds(frag, table, jobs, k, d.trees, MadeUpTo(frag, table, jobs, |jobs|, d))
  {
    BuildLeaves(frag, table, jobs, |jobs|, d);
    var files := MadeUpTo(frag, table, jobs, |jobs|, d).value.files;
    assert KernelIs(frag, table, jobs, k, d.trees, files);
    KernelOfSays(frag, table, jobs, k, d.trees);
    LinuxIsDerived(table, jobs[k].name);
    DestIs(table[jobs[k].name], jobs[k].nodisk);
    PathIs(table[jobs[k].name], jobs[k].nodisk);
  }

  lemma PathIs(c: Cfg, nodisk: bool)
    ensures Stem(c) + Suffix(false, nodisk) == BinaryPath(c, nodisk)
  {
  }

  /** And in terms of the whole chain of workloads that it inherits from: source and modules are those
      last mentioned on the chain, and the fragments that decide an option are those of the chain, the
      most derived last. */
  lemma ChainBinary(frag: FragmentFiles, table: map<string, Cfg>, jobs: seq<Job>, d: Disk, k: nat, distro: Cfg, raws: seq<Cfg>,
                    m: string, p: Path, x: string)
    requires Loaded(table) && OwnOutputs(table) && Jobs(table, jobs) && Ordered(table, jobs)
    requires SourcesFound(table, jobs, |jobs|, d.trees)
    requires IsLinux(table, jobs, k) && LastRun(jobs, |jobs|, jobs[k]) == k
    requires Distro(distro) && Finish(distro, raws) == Ok(table[jobs[k].name])
    ensures var c, r := table[jobs[k].name], MadeUpTo(frag, table, jobs, |jobs|, d);
            var path, chain := BinaryPath(c, jobs[k].nodisk), LinuxChain(raws);
            && r.Ok? && path in r.value.files && r.value.files[path].Payload?
            && var kernel, firmware := r.value.files[path].kernel, r.value.files[path].firmware;
            && LastSource(chain) == Some(kernel.source) && kernel.source in d.trees
            && (m in kernel.modules && kernel.modules[m] == Some(p) <==> LastMention(chain, m) == Some(Some(p)))
            && firmware.buildArgs == c.firmware.value.buildArgs && BuildArgs(c) == ArgsAlong(distro, raws)
            && firmware.source == LastSet(distro, raws, OpensbiSrc)
            && (x !in GENERATED ==>
                  Get(kernel.options, x) ==
                  OrElse(LastFragment(frag, FragmentsAlong(chain), x),
                         OptionAt(frag, table, jobs, Origin(table, jobs, k), kernel.source, d.trees[kernel.source], x)))
  {
    BinaryIs(frag, table, jobs, d, k);
    LinuxFinish(distro, raws);
    FirmwareFinish(distro, raws);
    SourceResolve(LinuxChain(raws));
    PathsResolve(LinuxChain(raws), m, p);
    FragmentsResolve(LinuxChain(raws));
  }
}
