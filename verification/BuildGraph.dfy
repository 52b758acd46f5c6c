/** The task graph of a build (addDep and buildDepGraph in wlutil/build.py).

    Each workload contributes tasks for its scripts, its binary, its diskless binary and its image.
    Tasks are identified by name, and name the tasks that must run before them. */
module BuildGraph {
  import opened Common
  import opened LinuxOpts
  import opened Config
  import opened MakeBin

  /** `deps` are the names of the tasks this one waits for, `targets` the files it produces and
      `inputs` the files its action takes from other tasks. */
  datatype Task = Task(name: string, deps: seq<string>, targets: set<Path>, inputs: set<Path>)

  datatype Kind = Busybox | HostInit | SubmoduleDeps | KmodDeps | Binary | NoDisk | PostBin | FileDeps | Image

  const BUSYBOX := "build_busybox"
  const BUSYBOX_DISK := "disk/bin/busybox"
  const BUSYBOX_NODISK := "nodisk/bin/busybox"

  // ---------------------------------------------------------------- the tasks of one workload

  // Distributions with an image contribute the task that builds it, and nothing else.
  predicate ImageOnly(c: Cfg) { c.isDistro && c.img.Some? }

  predicate Has(c: Cfg, k: Kind) {
    if ImageOnly(c) then k == Image
    else match k
      case Busybox => true
      case HostInit => c.hostInit.Some?
      case SubmoduleDeps => c.bin.Some?
      case KmodDeps => c.bin.Some? && c.linux.Some?
      case Binary => c.bin.Some?
      case NoDisk => c.bin.Some? && c.nodisk
      case PostBin => c.postBin.Some?
      case FileDeps => c.img.Some? && (c.files.Some? || c.overlay.Some?)
      case Image => c.img.Some?
  }

  function Name(c: Cfg, k: Kind): string
    requires Has(c, k)
  {
    match k
    case Busybox => BUSYBOX
    case HostInit => c.hostInit.value
    case SubmoduleDeps => "_submodule_deps_" + c.name
    case KmodDeps => "_kmod_deps_" + c.name
    case Binary => c.bin.value
    case NoDisk => NoDiskPath(c.bin.value)
    case PostBin => c.postBin.value
    case FileDeps => "calc_" + c.name + "_dep"
    case Image => c.img.value
  }

  function Present(c: Cfg, k: Kind): seq<string> {
    if Has(c, k) then [Name(c, k)] else []
  }

  // What the source needs of a workload; otherwise it raises KeyError or IndexError.
  predicate Addable(c: Cfg) {
    ImageOnly(c) ||
    (&& (c.linux.Some? ==> c.linux.value.config.Some? && c.dwarf.Some?)
     && (c.linux.Some? && c.bin.Some? ==> c.linux.value.source.Some?)
     && (c.firmware.Some? && c.bin.Some? ==> c.firmware.value.source.Some?)
     && (c.useParentBin ==> c.baseBin.Some?)
     && (c.postBin.Some? ==> c.bin.Some?)
     && (c.img.Some? && c.guestInit.Some? ==> c.bin.Some?))
  }

  function BinTaskDeps(c: Cfg): seq<string> {
    Present(c, HostInit) + c.baseDeps + (if c.linux.Some? then [BUSYBOX] else [])
    + (if c.useParentBin && c.baseBin.Some? then [c.baseBin.value] else [])
  }

  function ImgTaskDeps(c: Cfg): seq<string> {
    Present(c, HostInit) + Present(c, PostBin) + c.baseDeps + (if c.guestInit.Some? then Present(c, Binary) else [])
  }

  function Deps(c: Cfg, k: Kind): seq<string> {
    if ImageOnly(c) then []
    else match k
      case Binary => BinTaskDeps(c) + Present(c, SubmoduleDeps) + Present(c, KmodDeps)
      case NoDisk => BinTaskDeps(c) + Present(c, Image)
      case PostBin => Present(c, Binary) + Present(c, NoDisk)
      case FileDeps => ImgTaskDeps(c)
      case Image => ImgTaskDeps(c) + Present(c, FileDeps)
      case _ => []
  }

  function Optional(p: Option<Path>): set<Path> {
    if p.Some? then {p.value} else {}
  }

  function Targets(c: Cfg, k: Kind): set<Path>
    requires Has(c, k)
  {
    match k
    case Busybox => {BUSYBOX_DISK, BUSYBOX_NODISK}
    case Binary => Optional(c.bin) + Optional(c.dwarf)
    case NoDisk => {NoDiskPath(c.bin.value)} + (if c.dwarf.Some? then {NoDiskPath(c.dwarf.value)} else {})
    case Image => Optional(c.img)
    case _ => {}
  }

  /** The generated files an action uses: makeBin copies its parent's binary or packs busybox into
      the kernel, the diskless binary contains the image, the post-bin script is told the binary,
      and makeImage starts from the base's image and may boot the binary. */
  function Inputs(c: Cfg, k: Kind): set<Path> {
    if ImageOnly(c) then {}
    else match k
      case Binary => if c.useParentBin then Optional(c.baseBin) + Optional(c.baseDwarf)
                     else if c.linux.Some? then {BUSYBOX_DISK} else {}
      case NoDisk => if c.linux.Some? then {BUSYBOX_NODISK} + Optional(c.img) else {}
      case PostBin => Optional(c.bin)
      case Image => Optional(c.baseImg) + (if c.guestInit.Some? then Optional(c.bin) else {})
      case _ => {}
  }

  function TaskFor(c: Cfg, k: Kind): Task
    requires Has(c, k)
  {
    Task(Name(c, k), Deps(c, k), Targets(c, k), Inputs(c, k))
  }

  function Offer(c: Cfg, k: Kind): seq<Task> {
    if Has(c, k) then [TaskFor(c, k)] else []
  }

  // The tasks of a workload in the order in which they are added.
  function TasksOf(c: Cfg): seq<Task> {
    Offer(c, Busybox) + Offer(c, HostInit) + Offer(c, SubmoduleDeps) + Offer(c, KmodDeps) + Offer(c, Binary)
    + Offer(c, NoDisk) + Offer(c, PostBin) + Offer(c, FileDeps) + Offer(c, Image)
  }

  // ---------------------------------------------------------------- the loader

  predicate Named(ts: seq<Task>, n: string) {
    exists i :: 0 <= i < |ts| && ts[i].name == n
  }

  function Added(ts: seq<Task>, t: Task): seq<Task> {
    if Named(ts, t.name) then ts else ts + [t]
  }

  function AddedAll(ts: seq<Task>, us: seq<Task>): seq<Task> {
    if us == [] then ts else Added(AddedAll(ts, us[..|us| - 1]), us[|us| - 1])
  }

  lemma AddedOne(ts: seq<Task>, us: seq<Task>, t: Task)
    ensures AddedAll(ts, us + [t]) == Added(AddedAll(ts, us), t)
  {
    assert (us + [t])[..|us|] == us;
  }

  class Loader {
    var workloads: seq<Task>

    constructor ()
      ensures workloads == []
    {
      workloads := [];
    }

    /** addTask: a task whose name is taken is dropped. */
    method AddTask(t: Task)
      modifies this
      ensures workloads == Added(old(workloads), t)
    {
      var taken := false;
      for i := 0 to |workloads|
        invariant taken <==> exists j :: 0 <= j < i && workloads[j].name == t.name
      {
        if workloads[i].name == t.name {
          taken := true;
        }
      }
      if !taken {
        workloads := workloads + [t];
      }
    }

    // The same, keeping track of all tasks offered since the loader held `ts`.
    method Offered(t: Task, ghost ts: seq<Task>, ghost us: seq<Task>) returns (ghost us': seq<Task>)
      requires workloads == AddedAll(ts, us)
      modifies this
      ensures us' == us + [t] && workloads == AddedAll(ts, us')
    {
      AddTask(t);
      us' := us + [t];
      AddedOne(ts, us, t);
    }

    /** addDep: adds the tasks of one workload. */
    method AddDep(c: Cfg) returns (ok: bool)
      requires !ImageOnly(c)
      modifies this
      ensures ok <==> Addable(c)
      ensures ok ==> workloads == AddedAll(old(workloads), TasksOf(c))
    {
      if !Addable(c) {
        return false;
      }
      ghost var ts := workloads;
      ghost var us := AddScripts(c);
      var binTaskDeps := (if c.hostInit.Some? then [c.hostInit.value] else []) + c.baseDeps;
      if c.linux.Some? {
        binTaskDeps := binTaskDeps + [BUSYBOX];
      }
      if c.useParentBin {
        binTaskDeps := binTaskDeps + [c.baseBin.value];
      }
      assert binTaskDeps == BinTaskDeps(c);
      us := AddBinaries(c, binTaskDeps, ts, us);
      us := AddImage(c, ts, us);
      return true;
    }

    method AddScripts(c: Cfg) returns (ghost us: seq<Task>)
      requires !ImageOnly(c)
      modifies this
      ensures us == Offer(c, Busybox) + Offer(c, HostInit) && workloads == AddedAll(old(workloads), us)
    {
      ghost var ts := workloads;
      us := Offered(Task(BUSYBOX, [], {BUSYBOX_DISK, BUSYBOX_NODISK}, {}), ts, []);
      if c.hostInit.Some? {
        us := Offered(Task(c.hostInit.value, [], {}, {}), ts, us);
      }
    }

    // Adds the task of kind `k`, if the workload has one.
    method OfferedKind(c: Cfg, k: Kind, t: Task, ghost ts: seq<Task>, ghost us: seq<Task>) returns (ghost us': seq<Task>)
      requires workloads == AddedAll(ts, us) && (Has(c, k) ==> t == TaskFor(c, k))
      modifies this
      ensures us' == us + Offer(c, k) && workloads == AddedAll(ts, us')
    {
      us' := us;
      if Has(c, k) {
        us' := Offered(t, ts, us);
      }
    }

    // The tasks that find out on which files the binary depends.
    method AddCalc(c: Cfg, ghost ts: seq<Task>, ghost us: seq<Task>) returns (calcDeps: seq<string>, ghost us': seq<Task>)
      requires !ImageOnly(c) && workloads == AddedAll(ts, us)
      modifies this
      ensures us' == us + Offer(c, SubmoduleDeps) + Offer(c, KmodDeps) && workloads == AddedAll(ts, us')
      ensures c.bin.Some? ==> BinTaskDeps(c) + calcDeps == Deps(c, Binary)
    {
      calcDeps := ["_submodule_deps_" + c.name];
      us' := OfferedKind(c, SubmoduleDeps, Task("_submodule_deps_" + c.name, [], {}, {}), ts, us);
      if c.linux.Some? {
        calcDeps := calcDeps + ["_kmod_deps_" + c.name];
      }
      us' := OfferedKind(c, KmodDeps, Task("_kmod_deps_" + c.name, [], {}, {}), ts, us');
    }

    method AddBinaries(c: Cfg, binTaskDeps: seq<string>, ghost ts: seq<Task>, ghost us: seq<Task>) returns (ghost us': seq<Task>)
      requires !ImageOnly(c) && Addable(c) && workloads == AddedAll(ts, us) && binTaskDeps == BinTaskDeps(c)
      modifies this
      ensures us' == us + Offer(c, SubmoduleDeps) + Offer(c, KmodDeps) + Offer(c, Binary) + Offer(c, NoDisk) + Offer(c, PostBin)
      ensures workloads == AddedAll(ts, us')
    {
      var calcDeps;
      calcDeps, us' := AddCalc(c, ts, us);
      var bin := if c.bin.Some? then c.bin.value else "";
      us' := OfferedKind(c, Binary, Task(bin, binTaskDeps + calcDeps, Optional(c.bin) + Optional(c.dwarf), Inputs(c, Binary)), ts, us');
      us' := AddNoDisk(c, bin, binTaskDeps, ts, us');
      us' := AddPostBin(c, bin, ts, us');
    }

    method AddPostBin(c: Cfg, bin: Path, ghost ts: seq<Task>, ghost us: seq<Task>) returns (ghost us': seq<Task>)
      requires !ImageOnly(c) && Addable(c) && workloads == AddedAll(ts, us) && (c.bin.Some? ==> bin == c.bin.value)
      modifies this
      ensures us' == us + Offer(c, PostBin) && workloads == AddedAll(ts, us')
    {
      var postBinTaskDeps := [];
      if c.bin.Some? {
        postBinTaskDeps := [bin];
        if c.nodisk {
          postBinTaskDeps := postBinTaskDeps + [NoDiskPath(bin)];
        }
      }
      var postBin := if c.postBin.Some? then c.postBin.value else "";
      assert c.postBin.Some? ==> postBinTaskDeps == Deps(c, PostBin);
      us' := OfferedKind(c, PostBin, Task(postBin, postBinTaskDeps, {}, Inputs(c, PostBin)), ts, us);
    }

    method AddNoDisk(c: Cfg, bin: Path, binTaskDeps: seq<string>, ghost ts: seq<Task>, ghost us: seq<Task>) returns (ghost us': seq<Task>)
      requires !ImageOnly(c) && workloads == AddedAll(ts, us) && binTaskDeps == BinTaskDeps(c) && (c.bin.Some? ==> bin == c.bin.value)
      modifies this
      ensures us' == us + Offer(c, NoDisk) && workloads == AddedAll(ts, us')
    {
      var nodiskTaskDeps := binTaskDeps;
      if c.img.Some? {
        nodiskTaskDeps := nodiskTaskDeps + [c.img.value];
      }
      assert nodiskTaskDeps == Deps(c, NoDisk);
      var targets := {NoDiskPath(bin)} + (if c.dwarf.Some? then {NoDiskPath(c.dwarf.value)} else {});
      us' := OfferedKind(c, NoDisk, Task(NoDiskPath(bin), nodiskTaskDeps, targets, Inputs(c, NoDisk)), ts, us);
    }

    // The task that lists the input files shares its list of dependencies with the image task, so
    // it also waits for the binary that a guest-init script needs.
    method AddImage(c: Cfg, ghost ts: seq<Task>, ghost us: seq<Task>) returns (ghost us': seq<Task>)
      requires !ImageOnly(c) && Addable(c) && workloads == AddedAll(ts, us)
      modifies this
      ensures us' == us + Offer(c, FileDeps) + Offer(c, Image)
      ensures workloads == AddedAll(ts, us')
    {
      if c.img.None? {
        return us;
      }
      var imgTaskDeps := (if c.hostInit.Some? then [c.hostInit.value] else [])
                         + (if c.postBin.Some? then [c.postBin.value] else []) + c.baseDeps;
      if c.guestInit.Some? {
        imgTaskDeps := imgTaskDeps + [c.bin.value];
      }
      assert imgTaskDeps == ImgTaskDeps(c);
      var fileDeps := "calc_" + c.name + "_dep";
      us' := OfferedKind(c, FileDeps, Task(fileDeps, imgTaskDeps, {}, {}), ts, us);
      var calcDeps := if c.files.Some? || c.overlay.Some? then [fileDeps] else [];
      assert imgTaskDeps + calcDeps == Deps(c, Image);
      us' := OfferedKind(c, Image, Task(c.img.value, imgTaskDeps + calcDeps, {c.img.value}, Inputs(c, Image)), ts, us');
    }

    /** buildDepGraph over the table, with the jobs of a workload after the workload. */
    method BuildDepGraph(ws: seq<Cfg>) returns (ok: bool)
      requires workloads == []
      modifies this
      ensures ok <==> forall c :: c in ws ==> Addable(c)
      ensures ok ==> workloads == Graph(ws)
    {
      for i := 0 to |ws|
        invariant forall c :: c in ws[..i] ==> Addable(c)
        invariant workloads == Graph(ws[..i])
      {
        var c := ws[i];
        assert ws[..i + 1][..i] == ws[..i];
        if ImageOnly(c) {
          AddTask(Task(c.img.value, [], {c.img.value}, {}));
          assert TasksOf(c) == [TaskFor(c, Image)];
          AddedOne(Graph(ws[..i]), [], TaskFor(c, Image));
        } else {
          var added := AddDep(c);
          if !added {
            return false;
          }
        }
      }
      assert ws[..|ws|] == ws;
      return true;
    }
  }

  /** The graph: the tasks of all workloads, in order, without those whose name was taken. */
  function Graph(ws: seq<Cfg>): seq<Task> {
    if ws == [] then [] else AddedAll(Graph(ws[..|ws| - 1]), TasksOf(ws[|ws| - 1]))
  }

  // ---------------------------------------------------------------- which tasks the graph holds

  lemma {:induction false} AddedAllNames(ts: seq<Task>, us: seq<Task>, n: string)
    ensures Named(AddedAll(ts, us), n) <==> Named(ts, n) || Named(us, n)
  {
    if us != [] {
      var m := |us| - 1;
      AddedAllNames(ts, us[..m], n);
      NamedLast(us, n);
      AddedNames(AddedAll(ts, us[..m]), us[m], n);
    }
  }

  lemma AddedNames(ts: seq<Task>, t: Task, n: string)
    ensures Named(Added(ts, t), n) <==> Named(ts, n) || t.name == n
  {
    if !Named(ts, t.name) {
      NamedLast(ts + [t], n);
      assert (ts + [t])[..|ts|] == ts;
    }
  }

  lemma NamedLast(us: seq<Task>, n: string)
    requires us != []
    ensures Named(us, n) <==> Named(us[..|us| - 1], n) || us[|us| - 1].name == n
  {
    var m := |us| - 1;
    if Named(us, n) {
      var i :| 0 <= i < |us| && us[i].name == n;
      if i < m {
        assert us[..m][i].name == n;
      }
    }
  }

  lemma {:induction false} AddedAllFrom(ts: seq<Task>, us: seq<Task>, t: Task)
    requires t in AddedAll(ts, us)
    ensures t in ts || t in us
  {
    if us != [] {
      var m := |us| - 1;
      if t in AddedAll(ts, us[..m]) {
        AddedAllFrom(ts, us[..m], t);
      }
    }
  }

  lemma OfferNamed(c: Cfg, k: Kind)
    requires Has(c, k)
    ensures Named(TasksOf(c), Name(c, k))
  {
    assert TaskFor(c, k) in Offer(c, k);
    assert TaskFor(c, k) in TasksOf(c);
    var i :| 0 <= i < |TasksOf(c)| && TasksOf(c)[i] == TaskFor(c, k);
  }

  lemma OfferFrom(c: Cfg, t: Task) returns (k: Kind)
    requires t in TasksOf(c)
    ensures Has(c, k) && t == TaskFor(c, k)
  {
    k := if t in Offer(c, Busybox) then Busybox
         else if t in Offer(c, HostInit) then HostInit
         else if t in Offer(c, SubmoduleDeps) then SubmoduleDeps
         else if t in Offer(c, KmodDeps) then KmodDeps
         else if t in Offer(c, Binary) then Binary
         else if t in Offer(c, NoDisk) then NoDisk
         else if t in Offer(c, PostBin) then PostBin
         else if t in Offer(c, FileDeps) then FileDeps
         else Image;
  }

  /** Every task of every workload is in the graph, by name. */
  lemma {:induction false} GraphNames(ws: seq<Cfg>, c: Cfg, k: Kind)
    requires c in ws && Has(c, k)
    ensures Named(Graph(ws), Name(c, k))
  {
    var n := |ws| - 1;
    AddedAllNames(Graph(ws[..n]), TasksOf(ws[n]), Name(c, k));
    if c == ws[n] {
      OfferNamed(c, k);
    } else {
      GraphNames(ws[..n], c, k);
    }
  }

  lemma {:induction false} GraphFrom(ws: seq<Cfg>, t: Task) returns (c: Cfg, k: Kind)
    requires t in Graph(ws)
    ensures c in ws && Has(c, k) && t == TaskFor(c, k)
  {
    var n := |ws| - 1;
    AddedAllFrom(Graph(ws[..n]), TasksOf(ws[n]), t);
    if t in TasksOf(ws[n]) {
      c := ws[n];
      k := OfferFrom(c, t);
    } else {
      c, k := GraphFrom(ws[..n], t);
    }
  }

  // ---------------------------------------------------------------- dependencies

  /** A resolved set of workloads: bases are among them, and every chain ends in a distribution. */
  ghost predicate Grounded(ws: seq<Cfg>, base: map<Cfg, Cfg>, depth: map<Cfg, nat>, c: Cfg) {
    Addable(c) && c in depth && (Distro(c) || HasBaseIn(ws, base, depth, c))
  }

  ghost predicate HasBaseIn(ws: seq<Cfg>, base: map<Cfg, Cfg>, depth: map<Cfg, nat>, c: Cfg)
    requires c in depth
  {
    c in base && base[c] in ws && base[c] in depth && depth[base[c]] < depth[c] && Derived(c, base[c])
  }

  ghost predicate ResolvedSet(ws: seq<Cfg>, base: map<Cfg, Cfg>, depth: map<Cfg, nat>) {
    forall c {:trigger Grounded(ws, base, depth, c)} :: c in ws ==> Grounded(ws, base, depth, c)
  }

  // The tasks of its own that a task of kind `k` may wait for.
  predicate Own(c: Cfg, k: Kind, l: Kind) {
    match k
    case Binary => l in {HostInit, Busybox, SubmoduleDeps, KmodDeps}
    case NoDisk => l in {HostInit, Busybox, Image}
    case PostBin => l in {Binary, NoDisk}
    case FileDeps => l in {HostInit, PostBin} || (l == Binary && c.guestInit.Some?)
    case Image => l in {HostInit, PostBin, FileDeps} || (l == Binary && c.guestInit.Some?)
    case _ => false
  }

  // What a task of kind `k` waits for in the base.
  predicate FromBase(c: Cfg, k: Kind, n: string) {
    match k
    case Binary => n in c.baseDeps || (c.useParentBin && c.baseBin == Some(n))
    case NoDisk => n in c.baseDeps || (c.useParentBin && c.baseBin == Some(n))
    case FileDeps => n in c.baseDeps
    case Image => n in c.baseDeps
    case _ => false
  }

  // The tasks of its base that a task of kind `k` may wait for.
  predicate OfBase(c: Cfg, k: Kind, l: Kind) {
    && k in {Binary, NoDisk, FileDeps, Image}
    && (l in {Image, HostInit} || (l == Binary && c.useParentBin && k in {Binary, NoDisk}))
  }

  lemma BaseTask(ws: seq<Cfg>, base: map<Cfg, Cfg>, depth: map<Cfg, nat>, c: Cfg, k: Kind, n: string) returns (l: Kind)
    requires ResolvedSet(ws, base, depth) && c in ws && FromBase(c, k, n)
    ensures c in depth && HasBaseIn(ws, base, depth, c) && Has(base[c], l) && n == Name(base[c], l)
    ensures OfBase(c, k, l)
  {
    assert Grounded(ws, base, depth, c);
    var b := base[c];
    DerivedFacts(c, b);
    assert Grounded(ws, base, depth, b);
    if n in c.baseDeps {
      l := if b.img == Some(n) then Image else HostInit;
      if !Distro(b) {
        DerivedFacts(b, base[b]);
      }
    } else {
      l := Binary;
      DerivedFacts(b, base[b]);
    }
  }

  lemma OwnTask(c: Cfg, k: Kind, n: string) returns (l: Kind)
    requires Has(c, k) && n in Deps(c, k) && !FromBase(c, k, n)
    ensures Has(c, l) && n == Name(c, l) && Own(c, k, l)
  {
    l := if n in Present(c, HostInit) && Own(c, k, HostInit) then HostInit
         else if n == BUSYBOX && Own(c, k, Busybox) then Busybox
         else if n in Present(c, SubmoduleDeps) && Own(c, k, SubmoduleDeps) then SubmoduleDeps
         else if n in Present(c, KmodDeps) && Own(c, k, KmodDeps) then KmodDeps
         else if n in Present(c, Binary) && Own(c, k, Binary) then Binary
         else if n in Present(c, NoDisk) && Own(c, k, NoDisk) then NoDisk
         else if n in Present(c, PostBin) && Own(c, k, PostBin) then PostBin
         else if n in Present(c, FileDeps) && Own(c, k, FileDeps) then FileDeps
         else Image;
  }

  /** What a task waits for is a task of the same workload, or one of its base. */
  lemma DepTask(ws: seq<Cfg>, base: map<Cfg, Cfg>, depth: map<Cfg, nat>, c: Cfg, k: Kind, n: string) returns (d: Cfg, l: Kind)
    requires ResolvedSet(ws, base, depth) && c in ws && Has(c, k) && n in Deps(c, k)
    ensures d in ws && Has(d, l) && n == Name(d, l) && c in depth && d in depth
    ensures if d == c then Own(c, k, l) else depth[d] < depth[c] && c in base && d == base[c] && OfBase(c, k, l)
  {
    if FromBase(c, k, n) {
      l := BaseTask(ws, base, depth, c, k, n);
      d := base[c];
    } else {
      assert Grounded(ws, base, depth, c);
      l := OwnTask(c, k, n);
      d := c;
    }
  }

  /** Every dependency that a task names is a task of the graph. */
  lemma DepsAreTasks(ws: seq<Cfg>, base: map<Cfg, Cfg>, depth: map<Cfg, nat>, t: Task, n: string)
    requires ResolvedSet(ws, base, depth) && t in Graph(ws) && n in t.deps
    ensures Named(Graph(ws), n)
  {
    var c, k := GraphFrom(ws, t);
    var d, l := DepTask(ws, base, depth, c, k, n);
    GraphNames(ws, d, l);
  }

  // ---------------------------------------------------------------- producers

  // Tasks share a name only if they are the same task, or are equal and wait for nothing.
  predicate NoClash(c: Cfg, k: Kind, d: Cfg, l: Kind) {
    Has(c, k) && Has(d, l) && Name(c, k) == Name(d, l) ==>
      k == l && (c == d || (Deps(c, k) == Deps(d, l) == [] && TaskFor(c, k) == TaskFor(d, l)))
  }

  predicate Distinct(ws: seq<Cfg>) {
    forall c, k, d, l {:trigger NoClash(c, k, d, l)} :: c in ws && d in ws ==> NoClash(c, k, d, l)
  }

  lemma TaskInGraph(ws: seq<Cfg>, c: Cfg, k: Kind)
    requires Distinct(ws) && c in ws && Has(c, k)
    ensures TaskFor(c, k) in Graph(ws)
  {
    GraphNames(ws, c, k);
    var i :| 0 <= i < |Graph(ws)| && Graph(ws)[i].name == Name(c, k);
    var d, l := GraphFrom(ws, Graph(ws)[i]);
    assert NoClash(c, k, d, l);
  }

  lemma Producer(ws: seq<Cfg>, base: map<Cfg, Cfg>, depth: map<Cfg, nat>, c: Cfg, k: Kind, f: Path) returns (d: Cfg, l: Kind)
    requires ResolvedSet(ws, base, depth) && c in ws && Has(c, k) && f in Inputs(c, k)
    ensures d in ws && Has(d, l) && f in Targets(d, l) && Name(d, l) in Deps(c, k)
  {
    assert Grounded(ws, base, depth, c);
    d := c;
    match k {
      case Binary =>
        if c.useParentBin {
          l := BaseTask(ws, base, depth, c, Binary, c.baseBin.value);
          d, l := base[c], Binary;
          DerivedFacts(c, d);
          assert Grounded(ws, base, depth, d);
          DerivedFacts(d, base[d]);
        } else {
          l := Busybox;
        }
      case NoDisk =>
        l := if f == BUSYBOX_NODISK then Busybox else Image;
      case PostBin =>
        l := Binary;
      case Image =>
        if c.baseImg == Some(f) {
          DerivedFacts(c, base[c]);
          assert f in c.baseDeps;
          d, l := base[c], Image;
        } else {
          l := Binary;
        }
    }
  }

  /** Every generated file that a task reads is produced by a task it waits for. */
  lemma InputsAreProduced(ws: seq<Cfg>, base: map<Cfg, Cfg>, depth: map<Cfg, nat>, t: Task, f: Path) returns (p: Task)
    requires ResolvedSet(ws, base, depth) && Distinct(ws) && t in Graph(ws) && f in t.inputs
    ensures p in Graph(ws) && f in p.targets && p.name in t.deps
  {
    var c, k := GraphFrom(ws, t);
    var d, l := Producer(ws, base, depth, c, k, f);
    TaskInGraph(ws, d, l);
    p := TaskFor(d, l);
  }

  // ---------------------------------------------------------------- cycles

  predicate Waits(ts: seq<Task>, m: string, n: string) {
    exists i :: 0 <= i < |ts| && ts[i].name == m && n in ts[i].deps
  }

  // A way through the graph, from a task to something it waits for, and so on.
  predicate Route(ts: seq<Task>, ns: seq<string>) {
    0 < |ns| && forall i :: 0 <= i < |ns| - 1 ==> Waits(ts, ns[i], ns[i + 1])
  }

  ghost predicate Cyclic(ts: seq<Task>) {
    exists ns :: Route(ts, ns) && |ns| > 1 && ns[0] == ns[|ns| - 1]
  }

  /** The one combination of options that makes a workload's tasks wait for each other: the image
      for the post-bin script, the script for the diskless binary, and that one for the image. */
  predicate Combines(c: Cfg) {
    !ImageOnly(c) && c.bin.Some? && c.img.Some? && c.postBin.Some? && c.nodisk
  }

  // The order in which the tasks of one workload can run.
  function Level(c: Cfg, k: Kind): nat {
    if c.nodisk && c.postBin.Some? then
      match k case Binary => 1 case NoDisk => 2 case PostBin => 3 case FileDeps => 4 case Image => 5 case _ => 0
    else
      match k case Binary => 1 case PostBin => 2 case FileDeps => 3 case Image => 4 case NoDisk => 5 case _ => 0
  }

  lemma LevelDrops(c: Cfg, k: Kind, l: Kind)
    requires !Combines(c) && Has(c, k) && Has(c, l) && Own(c, k, l)
    ensures Level(c, l) < Level(c, k) <= 5
  {
  }

  ghost predicate Source(ws: seq<Cfg>, depth: map<Cfg, nat>, n: string, c: Cfg, k: Kind) {
    c in ws && c in depth && Has(c, k) && Name(c, k) == n && Deps(c, k) != []
  }

  // The position of a name in an order that puts every task after what it waits for.
  ghost function Rank(ws: seq<Cfg>, depth: map<Cfg, nat>, n: string): nat {
    if c, k :| Source(ws, depth, n, c, k) then 1 + 6 * depth[c] + Level(c, k) else 0
  }

  lemma RankIs(ws: seq<Cfg>, depth: map<Cfg, nat>, c: Cfg, k: Kind)
    requires Distinct(ws) && c in ws && c in depth && Has(c, k)
    ensures Rank(ws, depth, Name(c, k)) == if Deps(c, k) == [] then 0 else 1 + 6 * depth[c] + Level(c, k)
  {
    forall d, l | Source(ws, depth, Name(c, k), d, l)
      ensures d == c && l == k && Deps(c, k) != []
    {
      assert NoClash(c, k, d, l);
    }
    if Deps(c, k) != [] {
      assert Source(ws, depth, Name(c, k), c, k);
    }
  }

  lemma RankDrops(ws: seq<Cfg>, base: map<Cfg, Cfg>, depth: map<Cfg, nat>, m: string, n: string)
    requires ResolvedSet(ws, base, depth) && Distinct(ws) && (forall c :: c in ws ==> !Combines(c))
    requires Waits(Graph(ws), m, n)
    ensures Rank(ws, depth, n) < Rank(ws, depth, m)
  {
    var i :| 0 <= i < |Graph(ws)| && Graph(ws)[i].name == m && n in Graph(ws)[i].deps;
    var c, k := GraphFrom(ws, Graph(ws)[i]);
    var d, l := DepTask(ws, base, depth, c, k, n);
    RankIs(ws, depth, c, k);
    RankIs(ws, depth, d, l);
    if d == c {
      LevelDrops(c, k, l);
    }
  }

  lemma RouteTail(ts: seq<Task>, ns: seq<string>)
    requires Route(ts, ns) && |ns| > 1
    ensures Route(ts, ns[1..])
  {
    forall i | 0 <= i < |ns[1..]| - 1
      ensures Waits(ts, ns[1..][i], ns[1..][i + 1])
    {
      assert Waits(ts, ns[i + 1], ns[i + 1 + 1]);
    }
  }

  lemma {:induction false} RouteDescends(ws: seq<Cfg>, base: map<Cfg, Cfg>, depth: map<Cfg, nat>, ns: seq<string>)
    requires ResolvedSet(ws, base, depth) && Distinct(ws) && (forall c :: c in ws ==> !Combines(c))
    requires Route(Graph(ws), ns) && |ns| > 1
    ensures Rank(ws, depth, ns[|ns| - 1]) < Rank(ws, depth, ns[0])
  {
    assert Waits(Graph(ws), ns[0], ns[0 + 1]);
    RankDrops(ws, base, depth, ns[0], ns[1]);
    if |ns| > 2 {
      RouteTail(Graph(ws), ns);
      RouteDescends(ws, base, depth, ns[1..]);
    }
  }

  lemma OwnWaits(ws: seq<Cfg>, c: Cfg, k: Kind, l: Kind)
    requires Distinct(ws) && c in ws && Has(c, k) && Has(c, l) && Name(c, l) in Deps(c, k)
    ensures Waits(Graph(ws), Name(c, k), Name(c, l))
  {
    TaskInGraph(ws, c, k);
    var i :| 0 <= i < |Graph(ws)| && Graph(ws)[i] == TaskFor(c, k);
  }

  lemma CombinationIsCyclic(ws: seq<Cfg>, c: Cfg)
    requires Distinct(ws) && c in ws && Combines(c)
    ensures Cyclic(Graph(ws))
  {
    OwnWaits(ws, c, Image, PostBin);
    OwnWaits(ws, c, PostBin, NoDisk);
    OwnWaits(ws, c, NoDisk, Image);
    ThreeCycle(Graph(ws), Name(c, Image), Name(c, PostBin), Name(c, NoDisk));
  }

  lemma ThreeCycle(ts: seq<Task>, l: string, m: string, n: string)
    requires Waits(ts, l, m) && Waits(ts, m, n) && Waits(ts, n, l)
    ensures Cyclic(ts)
  {
    assert Route(ts, [l, m, n, l]);
  }

  /** The graph has a cycle exactly if some workload combines a binary, an image, a post-bin script
      and the diskless option. */
  lemma CyclicIff(ws: seq<Cfg>, base: map<Cfg, Cfg>, depth: map<Cfg, nat>)
    requires ResolvedSet(ws, base, depth) && Distinct(ws)
    ensures Cyclic(Graph(ws)) <==> exists c :: c in ws && Combines(c)
  {
    if c :| c in ws && Combines(c) {
      CombinationIsCyclic(ws, c);
    } else if Cyclic(Graph(ws)) {
      var ns :| Route(Graph(ws), ns) && |ns| > 1 && ns[0] == ns[|ns| - 1];
      RouteDescends(ws, base, depth, ns);
    }
  }

  // ---------------------------------------------------------------- edges

  /** A binary that is copied waits for the binary it is copied from. */
  lemma BinaryWaits(ws: seq<Cfg>, c: Cfg)
    requires Distinct(ws) && c in ws && Has(c, Binary) && c.useParentBin && c.baseBin.Some? && !ImageOnly(c)
    ensures Waits(Graph(ws), Name(c, Binary), c.baseBin.value)
  {
    TaskInGraph(ws, c, Binary);
    var i :| 0 <= i < |Graph(ws)| && Graph(ws)[i] == TaskFor(c, Binary);
  }

  // A task is identified by its name, if it waits for anything.
  lemma WaitsFor(ws: seq<Cfg>, c: Cfg, k: Kind, n: string)
    requires Distinct(ws) && c in ws && Has(c, k) && Waits(Graph(ws), Name(c, k), n)
    ensures n in Deps(c, k)
  {
    var i :| 0 <= i < |Graph(ws)| && Graph(ws)[i].name == Name(c, k) && n in Graph(ws)[i].deps;
    var d, l := GraphFrom(ws, Graph(ws)[i]);
    assert NoClash(c, k, d, l);
  }

  lemma WaitsIff(ws: seq<Cfg>, c: Cfg, k: Kind, n: string)
    requires Distinct(ws) && c in ws && Has(c, k)
    ensures Waits(Graph(ws), Name(c, k), n) <==> n in Deps(c, k)
  {
    TaskInGraph(ws, c, k);
    var i :| 0 <= i < |Graph(ws)| && Graph(ws)[i] == TaskFor(c, k);
    if Waits(Graph(ws), Name(c, k), n) {
      WaitsFor(ws, c, k, n);
    }
  }

  // What everything a workload builds waits for: its own script, and its base.
  predicate WaitsAnyway(c: Cfg, n: string) { c.hostInit == Some(n) || n in c.baseDeps }

  // What building its kernel or copying its binary needs.
  predicate KernelNeeds(c: Cfg, n: string) {
    (c.linux.Some? && n == "build_busybox") || (c.useParentBin && c.baseBin == Some(n))
  }

  /** The edges of the graph, by the options of a workload: its binary also waits for the two tasks that
      compute what it depends on, its diskless binary for its image, its post-bin script for both
      binaries, and its image for that script, for the binary that a guest-init script boots, and for
      the task that lists its files. */
  lemma EdgesAre(ws: seq<Cfg>, c: Cfg, n: string)
    requires Distinct(ws) && c in ws && !ImageOnly(c)
    ensures c.bin.Some? ==>
              (Waits(Graph(ws), c.bin.value, n) <==>
                 || WaitsAnyway(c, n) || KernelNeeds(c, n)
                 || n == "_submodule_deps_" + c.name || (c.linux.Some? && n == "_kmod_deps_" + c.name))
    ensures c.bin.Some? && c.nodisk ==>
              (Waits(Graph(ws), c.bin.value + "-nodisk", n) <==> WaitsAnyway(c, n) || KernelNeeds(c, n) || c.img == Some(n))
    ensures c.postBin.Some? ==>
              (Waits(Graph(ws), c.postBin.value, n) <==> c.bin.Some? && (n == c.bin.value || (c.nodisk && n == c.bin.value + "-nodisk")))
    ensures c.img.Some? ==>
              (Waits(Graph(ws), c.img.value, n) <==>
                 || WaitsAnyway(c, n) || c.postBin == Some(n) || (c.guestInit.Some? && c.bin == Some(n))
                 || ((c.files.Some? || c.overlay.Some?) && n == "calc_" + c.name + "_dep"))
  {
    if c.bin.Some? {
      assert Waits(Graph(ws), c.bin.value, n) <==> n in Deps(c, Binary) by { WaitsIff(ws, c, Binary, n); }
      BinaryNeeds(c, n);
    }
    if c.bin.Some? && c.nodisk {
      assert Waits(Graph(ws), c.bin.value + "-nodisk", n) <==> n in Deps(c, NoDisk) by { WaitsIff(ws, c, NoDisk, n); }
      NoDiskNeeds(c, n);
    }
    if c.postBin.Some? {
      assert Waits(Graph(ws), c.postBin.value, n) <==> n in Deps(c, PostBin) by { WaitsIff(ws, c, PostBin, n); }
      PostBinNeeds(c, n);
    }
    if c.img.Some? {
      assert Waits(Graph(ws), c.img.value, n) <==> n in Deps(c, Image) by { WaitsIff(ws, c, Image, n); }
      ImageNeeds(c, n);
    }
  }

  lemma BinaryNeeds(c: Cfg, n: string)
    requires !ImageOnly(c) && c.bin.Some?
    ensures n in Deps(c, Binary) <==>
              || WaitsAnyway(c, n) || KernelNeeds(c, n)
              || n == "_submodule_deps_" + c.name || (c.linux.Some? && n == "_kmod_deps_" + c.name)
  {
  }

  lemma NoDiskNeeds(c: Cfg, n: string)
    requires !ImageOnly(c) && c.bin.Some? && c.nodisk
    ensures n in Deps(c, NoDisk) <==> WaitsAnyway(c, n) || KernelNeeds(c, n) || c.img == Some(n)
  {
  }

  lemma PostBinNeeds(c: Cfg, n: string)
    requires !ImageOnly(c) && c.postBin.Some?
    ensures n in Deps(c, PostBin) <==> c.bin.Some? && (n == c.bin.value || (c.nodisk && n == c.bin.value + "-nodisk"))
  {
  }

  lemma ImageNeeds(c: Cfg, n: string)
    requires !ImageOnly(c) && c.img.Some?
    ensures n in Deps(c, Image) <==>
              || WaitsAnyway(c, n) || c.postBin == Some(n) || (c.guestInit.Some? && c.bin == Some(n))
              || ((c.files.Some? || c.overlay.Some?) && n == "calc_" + c.name + "_dep")
  {
  }

  /** The generated files that tasks read: a copied binary reads its base's binary and symbols, a compiled
      one busybox; the diskless binary busybox and its image; the post-bin script the binary; the image
      its base's image and, for a guest-init script, the binary. */
  lemma ReadsAre(c: Cfg, f: Path)
    requires !ImageOnly(c)
    ensures f in Inputs(c, Binary) <==>
              if c.useParentBin then c.baseBin == Some(f) || c.baseDwarf == Some(f) else c.linux.Some? && f == "disk/bin/busybox"
    ensures f in Inputs(c, NoDisk) <==> c.linux.Some? && (f == "nodisk/bin/busybox" || c.img == Some(f))
    ensures f in Inputs(c, PostBin) <==> c.bin == Some(f)
    ensures f in Inputs(c, Image) <==> c.baseImg == Some(f) || (c.guestInit.Some? && c.bin == Some(f))
  {
  }
}
