/** When host-init scripts run (addDep in wlutil/build.py, on the task graph).

    A host-init script may generate files that everything based on its workload inherits, so it should
    run before the binaries and images of those workloads. */
module HostInitOrder {
  import opened Common
  import opened Config
  import opened Examples
  import opened BuildGraph

  // ---------------------------------------------------------------- ways through the graph

  // A workload, its base, the base of that, and so on.
  predicate Bases(base: map<Cfg, Cfg>, cs: seq<Cfg>) {
    0 < |cs| && forall i :: 0 <= i < |cs| - 1 ==> cs[i] in base && base[cs[i]] == cs[i + 1]
  }

  ghost predicate LeadsTo(ts: seq<Task>, m: string, n: string) {
    exists ns :: Route(ts, ns) && |ns| > 1 && ns[0] == m && ns[|ns| - 1] == n
  }

  lemma WaitsLeads(ts: seq<Task>, m: string, n: string)
    requires Waits(ts, m, n)
    ensures LeadsTo(ts, m, n)
  {
    assert Route(ts, [m, n]);
  }

  lemma LeadsFurther(ts: seq<Task>, l: string, m: string, n: string)
    requires Waits(ts, l, m) && LeadsTo(ts, m, n)
    ensures LeadsTo(ts, l, n)
  {
    var ns :| Route(ts, ns) && |ns| > 1 && ns[0] == m && ns[|ns| - 1] == n;
    var ns' := [l] + ns;
    forall i | 0 <= i < |ns'| - 1
      ensures Waits(ts, ns'[i], ns'[i + 1])
    {
      if i > 0 {
        assert Waits(ts, ns[i - 1], ns[i - 1 + 1]);
      }
    }
    assert Route(ts, ns');
  }

  lemma BaseWaits(ws: seq<Cfg>, base: map<Cfg, Cfg>, depth: map<Cfg, nat>, c: Cfg, k: Kind, n: string)
    requires ResolvedSet(ws, base, depth) && Distinct(ws) && c in ws && !Distro(c) && Has(c, k) && (k == Binary || k == Image)
    requires c in base && n in BaseDeps(base[c])
    ensures Waits(Graph(ws), Name(c, k), n)
  {
    assert Grounded(ws, base, depth, c);
    DerivedFacts(c, base[c]);
    TaskInGraph(ws, c, k);
    var i :| 0 <= i < |Graph(ws)| && Graph(ws)[i] == TaskFor(c, k);
  }

  /** Does the task of kind `k` of cs[0] wait, directly or not, for the script `h` of a workload that
      it inherits from?  A workload waits for its own script, for its base's script and image, and, when
      it copies its base's binary, for that; and an image waits for its own binary if a post-bin or
      guest-init script needs it. */
  predicate Carries(cs: seq<Cfg>, k: Kind, h: string)
    requires cs != [] && (k == Binary || k == Image)
    decreases |cs|, k == Image
  {
    || cs[0].hostInit == Some(h)
    || (|cs| > 1 && cs[1].hostInit == Some(h))
    || (|cs| > 1 && cs[1].img.Some? && Carries(cs[1..], Image, h))
    || (|cs| > 1 && k == Binary && cs[0].useParentBin && Carries(cs[1..], Binary, h))
    || (k == Image && (cs[0].postBin.Some? || cs[0].guestInit.Some?) && Carries(cs, Binary, h))
  }

  // A chain of workloads of a resolved set.
  ghost predicate ChainIn(ws: seq<Cfg>, base: map<Cfg, Cfg>, depth: map<Cfg, nat>, cs: seq<Cfg>) {
    && ResolvedSet(ws, base, depth) && Distinct(ws) && Bases(base, cs)
    && forall c :: c in cs ==> c in ws && !Distro(c)
  }

  lemma ChainTail(ws: seq<Cfg>, base: map<Cfg, Cfg>, depth: map<Cfg, nat>, cs: seq<Cfg>)
    requires ChainIn(ws, base, depth, cs) && |cs| > 1
    ensures ChainIn(ws, base, depth, cs[1..]) && cs[0] in base && base[cs[0]] == cs[1] && Derived(cs[0], cs[1])
    ensures !cs[0].isDistro && !cs[1].isDistro && Addable(cs[0])
  {
    BasesTail(base, cs);
    assert base[cs[0]] == cs[0 + 1];
    assert cs[0] in cs && cs[1] in cs;
    assert Grounded(ws, base, depth, cs[0]) && Grounded(ws, base, depth, cs[1]);
    DerivedFacts(cs[0], cs[1]);
    DerivedFacts(cs[1], base[cs[1]]);
  }

  lemma ChainFirst(ws: seq<Cfg>, base: map<Cfg, Cfg>, depth: map<Cfg, nat>, cs: seq<Cfg>)
    requires ChainIn(ws, base, depth, cs)
    ensures cs[0] in ws && !cs[0].isDistro && Addable(cs[0])
  {
    assert cs[0] in cs;
    assert Grounded(ws, base, depth, cs[0]);
    DerivedFacts(cs[0], base[cs[0]]);
  }

  lemma CopiesBinary(c: Cfg, b: Cfg, b2: Cfg)
    requires Derived(c, b) && Derived(b, b2) && c.useParentBin
    ensures b.bin.Some? && c.baseBin == b.bin
  {
    DerivedFacts(c, b);
    DerivedFacts(b, b2);
  }

  // The task waits for the script if some base does, in one of the ways listed.
  lemma {:induction false} CarriesLeads(ws: seq<Cfg>, base: map<Cfg, Cfg>, depth: map<Cfg, nat>, cs: seq<Cfg>, k: Kind, h: string)
    requires ChainIn(ws, base, depth, cs) && (k == Binary || k == Image) && Has(cs[0], k) && Carries(cs, k, h)
    ensures LeadsTo(Graph(ws), Name(cs[0], k), h)
    decreases |cs|, if k == Image then 2 else 1
  {
    var c := cs[0];
    ChainFirst(ws, base, depth, cs);
    if c.hostInit == Some(h) {
      OwnWaits(ws, c, k, HostInit);
      WaitsLeads(Graph(ws), Name(c, k), h);
    } else if |cs| > 1 && BaseCarries(cs, k, h) {
      BaseCarriesLeads(ws, base, depth, cs, k, h);
    } else {
      CarriesLeads(ws, base, depth, cs, Binary, h);
      if c.guestInit.Some? {
        OwnWaits(ws, c, Image, Binary);
      } else {
        OwnWaits(ws, c, PostBin, Binary);
        LeadsFurther(Graph(ws), Name(c, PostBin), Name(c, Binary), h);
        OwnWaits(ws, c, Image, PostBin);
      }
      LeadsFurther(Graph(ws), Name(c, Image), if c.guestInit.Some? then Name(c, Binary) else Name(c, PostBin), h);
    }
  }

  predicate BaseCarries(cs: seq<Cfg>, k: Kind, h: string)
    requires |cs| > 1
  {
    || cs[1].hostInit == Some(h)
    || (cs[1].img.Some? && Carries(cs[1..], Image, h))
    || (k == Binary && cs[0].useParentBin && Carries(cs[1..], Binary, h))
  }

  lemma {:induction false} BaseCarriesLeads(ws: seq<Cfg>, base: map<Cfg, Cfg>, depth: map<Cfg, nat>, cs: seq<Cfg>, k: Kind, h: string)
    requires ChainIn(ws, base, depth, cs) && |cs| > 1 && (k == Binary || k == Image) && Has(cs[0], k) && BaseCarries(cs, k, h)
    ensures LeadsTo(Graph(ws), Name(cs[0], k), h)
    decreases |cs|, 0
  {
    var c, b := cs[0], cs[1];
    ChainTail(ws, base, depth, cs);
    ChainFirst(ws, base, depth, cs);
    if b.hostInit == Some(h) {
      BaseWaits(ws, base, depth, c, k, h);
      WaitsLeads(Graph(ws), Name(c, k), h);
    } else if b.img.Some? && Carries(cs[1..], Image, h) {
      CarriesLeads(ws, base, depth, cs[1..], Image, h);
      BaseWaits(ws, base, depth, c, k, b.img.value);
      LeadsFurther(Graph(ws), Name(c, k), b.img.value, h);
    } else {
      assert b in cs && Grounded(ws, base, depth, b);
      CopiesBinary(c, b, base[b]);
      CarriesLeads(ws, base, depth, cs[1..], Binary, h);
      BinaryWaits(ws, c);
      LeadsFurther(Graph(ws), Name(c, k), b.bin.value, h);
    }
  }

  // The same for tasks of every kind.
  predicate CarriesAny(cs: seq<Cfg>, l: Kind, h: string)
    requires cs != []
  {
    match l
    case Binary => Carries(cs, Binary, h)
    case Image => Carries(cs, Image, h)
    case FileDeps => Carries(cs, Image, h)
    case NoDisk => Carries(cs, Binary, h) || (cs[0].img.Some? && Carries(cs, Image, h))
    case PostBin => Carries(cs, Binary, h) || (cs[0].nodisk && cs[0].img.Some? && Carries(cs, Image, h))
    case _ => false
  }

  // The task of kind `l` leads to the script, or belongs to it.
  predicate Reaches(cs: seq<Cfg>, l: Kind, h: string)
    requires cs != []
  {
    CarriesAny(cs, l, h) || (l == HostInit && cs[0].hostInit == Some(h))
  }

  lemma OwnCarries(cs: seq<Cfg>, k: Kind, l: Kind, h: string)
    requires cs != [] && !cs[0].isDistro && Has(cs[0], k) && Has(cs[0], l) && Own(cs[0], k, l) && Reaches(cs, l, h)
    ensures CarriesAny(cs, k, h)
  {
  }

  lemma BaseOfCarries(cs: seq<Cfg>, k: Kind, l: Kind, h: string)
    requires |cs| > 1 && !cs[1].isDistro && Has(cs[1], l) && OfBase(cs[0], k, l) && Reaches(cs[1..], l, h)
    ensures CarriesAny(cs, k, h)
  {
  }

  // And the script is waited for in no other way.
  lemma {:induction false} RouteCarries(ws: seq<Cfg>, base: map<Cfg, Cfg>, depth: map<Cfg, nat>, cs: seq<Cfg>, k: Kind, h: string, ns: seq<string>)
    requires ChainIn(ws, base, depth, cs) && cs[|cs| - 1].hostInit == Some(h) && Has(cs[0], k)
    requires Route(Graph(ws), ns) && |ns| > 1 && ns[0] == Name(cs[0], k) && ns[|ns| - 1] == h
    ensures CarriesAny(cs, k, h)
    decreases |ns|, 1
  {
    ChainFirst(ws, base, depth, cs);
    assert Waits(Graph(ws), ns[0], ns[0 + 1]);
    WaitsFor(ws, cs[0], k, ns[1]);
    if |cs| == 1 {
      OwnScriptCarries(cs, k, h, ns[1]);
    } else {
      ChainTail(ws, base, depth, cs);
      var d, l := DepTask(ws, base, depth, cs[0], k, ns[1]);
      if d == cs[0] {
        RouteReaches(ws, base, depth, cs, l, h, ns);
        OwnCarries(cs, k, l, h);
      } else {
        RouteReaches(ws, base, depth, cs[1..], l, h, ns);
        BaseOfCarries(cs, k, l, h);
      }
    }
  }

  lemma OwnScriptCarries(cs: seq<Cfg>, k: Kind, h: string, n: string)
    requires cs != [] && cs[0].hostInit == Some(h) && n in Deps(cs[0], k)
    ensures CarriesAny(cs, k, h)
  {
  }

  // From its second task on.
  lemma {:induction false} RouteReaches(ws: seq<Cfg>, base: map<Cfg, Cfg>, depth: map<Cfg, nat>, cs: seq<Cfg>, l: Kind, h: string, ns: seq<string>)
    requires ChainIn(ws, base, depth, cs) && cs[|cs| - 1].hostInit == Some(h) && Has(cs[0], l)
    requires Route(Graph(ws), ns) && |ns| > 1 && ns[1] == Name(cs[0], l) && ns[|ns| - 1] == h
    ensures Reaches(cs, l, h)
    decreases |ns|, 0
  {
    if |ns| == 2 {
      ScriptOnly(ws, base, depth, cs, l, h);
    } else {
      RouteTail(Graph(ws), ns);
      RouteCarries(ws, base, depth, cs, l, h, ns[1..]);
    }
  }

  // Only script tasks have the name of a script.
  lemma ScriptOnly(ws: seq<Cfg>, base: map<Cfg, Cfg>, depth: map<Cfg, nat>, cs: seq<Cfg>, l: Kind, h: string)
    requires ChainIn(ws, base, depth, cs) && cs[|cs| - 1].hostInit == Some(h) && Has(cs[0], l) && Name(cs[0], l) == h
    ensures l == HostInit && cs[0].hostInit == Some(h)
  {
    var x := cs[|cs| - 1];
    ChainFirst(ws, base, depth, cs);
    assert x in cs && Grounded(ws, base, depth, x);
    DerivedFacts(x, base[x]);
    assert NoClash(x, HostInit, cs[0], l);
  }

  /** The host-init script of a workload may generate files that everything based on it inherits.  It
      runs before the binary, or the image, of a workload based on it exactly if one of the ways that
      Carries lists leads there. */
  lemma HostInitFirst(ws: seq<Cfg>, base: map<Cfg, Cfg>, depth: map<Cfg, nat>, cs: seq<Cfg>, k: Kind)
    requires ChainIn(ws, base, depth, cs) && (k == Binary || k == Image) && Has(cs[0], k)
    requires cs[|cs| - 1].hostInit.Some?
    ensures var h := cs[|cs| - 1].hostInit.value; LeadsTo(Graph(ws), Name(cs[0], k), h) <==> Carries(cs, k, h)
  {
    var h := cs[|cs| - 1].hostInit.value;
    if Carries(cs, k, h) {
      CarriesLeads(ws, base, depth, cs, k, h);
    }
    if LeadsTo(Graph(ws), Name(cs[0], k), h) {
      var ns :| Route(Graph(ws), ns) && |ns| > 1 && ns[0] == Name(cs[0], k) && ns[|ns| - 1] == h;
      RouteCarries(ws, base, depth, cs, k, h, ns);
    }
  }

  /** Images always lead there: the script runs first if the workload after its owner has an image. */
  lemma {:induction false} ImagesCarry(ws: seq<Cfg>, base: map<Cfg, Cfg>, depth: map<Cfg, nat>, cs: seq<Cfg>, k: Kind)
    requires ChainIn(ws, base, depth, cs) && (k == Binary || k == Image) && cs[|cs| - 1].hostInit.Some?
    requires |cs| > 2 ==> cs[|cs| - 2].img.Some?
    ensures Carries(cs, k, cs[|cs| - 1].hostInit.value)
  {
    if |cs| > 2 {
      ChainTail(ws, base, depth, cs);
      MiddleImage(ws, base, depth, cs[1..]);
      ImagesCarry(ws, base, depth, cs[1..], Image);
    }
  }

  lemma MiddleImage(ws: seq<Cfg>, base: map<Cfg, Cfg>, depth: map<Cfg, nat>, cs: seq<Cfg>)
    requires ChainIn(ws, base, depth, cs) && |cs| > 1 && cs[|cs| - 2].img.Some?
    ensures cs[0].img.Some?
  {
    var ds := cs[..|cs| - 1];
    BasesInit(base, cs);
    assert forall c :: c in ds ==> c in cs;
    ImageInherited(ws, base, depth, ds);
  }

  lemma BasesInit(base: map<Cfg, Cfg>, cs: seq<Cfg>)
    requires Bases(base, cs) && |cs| > 1
    ensures Bases(base, cs[..|cs| - 1])
  {
    var ds := cs[..|cs| - 1];
    forall i | 0 <= i < |ds| - 1
      ensures ds[i] in base && base[ds[i]] == ds[i + 1]
    {
      assert base[cs[i]] == cs[i + 1];
    }
  }

  lemma BasesTail(base: map<Cfg, Cfg>, cs: seq<Cfg>)
    requires Bases(base, cs) && |cs| > 1
    ensures Bases(base, cs[1..])
  {
    var ds := cs[1..];
    forall i | 0 <= i < |ds| - 1
      ensures ds[i] in base && base[ds[i]] == ds[i + 1]
    {
      assert base[cs[i + 1]] == cs[i + 1 + 1];
    }
  }

  lemma {:induction false} ImageInherited(ws: seq<Cfg>, base: map<Cfg, Cfg>, depth: map<Cfg, nat>, cs: seq<Cfg>)
    requires ResolvedSet(ws, base, depth) && Bases(base, cs) && (forall c :: c in cs ==> c in ws && !Distro(c))
    requires cs[|cs| - 1].img.Some?
    ensures cs[0].img.Some? && Has(cs[0], Image)
  {
    if |cs| > 1 {
      BasesTail(base, cs);
      ImageInherited(ws, base, depth, cs[1..]);
      assert cs[0] in cs && base[cs[0]] == cs[0 + 1];
      assert Grounded(ws, base, depth, cs[0]);
      DerivedFacts(cs[0], cs[1]);
    }
  }

  // ---------------------------------------------------------------- a script that runs too late

  function NameLength(k: Kind): nat {
    match k case Busybox => 13 case HostInit => 1 case SubmoduleDeps => 17 case KmodDeps => 12 case Binary => 6 case _ => 0
  }

  lemma NamesDiffer(c: Cfg, k: Kind)
    requires c == BARE || Imageless(c, c.name)
    requires Has(c, k)
    ensures k in {Busybox, HostInit, SubmoduleDeps, KmodDeps, Binary} && |Name(c, k)| == NameLength(k)
    ensures k in {SubmoduleDeps, KmodDeps, Binary} ==> c.name == [Name(c, k)[if k == Binary then 1 else NameLength(k) - 1]]
  {
    if k in {SubmoduleDeps, KmodDeps, Binary} {
      assert c.name == [c.name[0]];
    }
  }

  lemma NoClashAmong(c: Cfg, k: Kind, d: Cfg, l: Kind)
    requires (c == BARE || Imageless(c, c.name)) && (d == BARE || Imageless(d, d.name))
    requires c.name == d.name ==> c == d
    requires c.hostInit.Some? && d.hostInit.Some? ==> c == d
    ensures NoClash(c, k, d, l)
  {
    if Has(c, k) && Has(d, l) && Name(c, k) == Name(d, l) {
      NamesDiffer(c, k);
      NamesDiffer(d, l);
    }
  }

  lemma FourDistinct(ws: seq<Cfg>, x: Cfg, y: Cfg, z: Cfg)
    requires ws == [BARE, x, y, z] && Imageless(x, "x") && Imageless(y, "y") && Imageless(z, "z")
    requires y.hostInit.None? && z.hostInit.None?
    ensures Distinct(ws)
  {
    forall c, k, d, l | c in ws && d in ws
      ensures NoClash(c, k, d, l)
    {
      NoClashAmong(c, k, d, l);
    }
  }

  lemma Resolves(ws: seq<Cfg>, base: map<Cfg, Cfg>, depth: map<Cfg, nat>, c: Cfg, b: Cfg, n: nat)
    requires Imageless(c, c.name) && !c.useParentBin && Derived(c, b) && c in base && base[c] == b && b in ws
    requires c in depth && b in depth && depth[c] == n + 1 && depth[b] == n
    ensures Grounded(ws, base, depth, c)
  {
  }

  lemma BareGrounded(ws: seq<Cfg>, base: map<Cfg, Cfg>, depth: map<Cfg, nat>)
    requires BARE in depth
    ensures Grounded(ws, base, depth, BARE)
  {
  }

  lemma AllGrounded(ws: seq<Cfg>, base: map<Cfg, Cfg>, depth: map<Cfg, nat>, d: Cfg, x: Cfg, y: Cfg, z: Cfg)
    requires ws == [d, x, y, z] && Grounded(ws, base, depth, d)
    requires Grounded(ws, base, depth, x) && Grounded(ws, base, depth, y) && Grounded(ws, base, depth, z)
    ensures ResolvedSet(ws, base, depth)
  {
    forall c | c in ws
      ensures Grounded(ws, base, depth, c)
    {
      assert c == d || c == x || c == y || c == z;
    }
  }

  lemma ThreeBases(base: map<Cfg, Cfg>, x: Cfg, y: Cfg, z: Cfg)
    requires z in base && y in base && base[z] == y && base[y] == x
    ensures Bases(base, [z, y, x])
  {
  }

  // The four workloads as a resolved set.
  lemma ResolvedFour(x: Cfg, y: Cfg, z: Cfg) returns (base: map<Cfg, Cfg>, depth: map<Cfg, nat>)
    requires Imageless(x, "x") && Imageless(y, "y") && Imageless(z, "z")
    requires !x.useParentBin && !y.useParentBin && !z.useParentBin
    requires Derived(x, BARE) && Derived(y, x) && Derived(z, y)
    ensures ResolvedSet([BARE, x, y, z], base, depth) && Bases(base, [z, y, x])
  {
    var ws := [BARE, x, y, z];
    base, depth := MapsFor(BARE, x, y, z);
    assert Grounded(ws, base, depth, x) by { Resolves(ws, base, depth, x, BARE, 0); }
    assert Grounded(ws, base, depth, y) by { Resolves(ws, base, depth, y, x, 1); }
    assert Grounded(ws, base, depth, z) by { Resolves(ws, base, depth, z, y, 2); }
    BareGrounded(ws, base, depth);
    AllGrounded(ws, base, depth, BARE, x, y, z);
    ThreeBases(base, x, y, z);
  }

  lemma MapsFor(d: Cfg, x: Cfg, y: Cfg, z: Cfg) returns (base: map<Cfg, Cfg>, depth: map<Cfg, nat>)
    requires d.name == "d" && x.name == "x" && y.name == "y" && z.name == "z"
    ensures x in base && y in base && z in base && base[x] == d && base[y] == x && base[z] == y
    ensures d in depth && x in depth && y in depth && z in depth
    ensures depth[d] == 0 && depth[x] == 1 && depth[y] == 2 && depth[z] == 3
  {
    base, depth := map[x := d, y := x, z := y], map[d := 0, x := 1, y := 2, z := 3];
  }

  lemma ThreeWorkloads() returns (x: Cfg, y: Cfg, z: Cfg)
    ensures Imageless(x, "x") && Imageless(y, "y") && Imageless(z, "z")
    ensures x.hostInit == Some("h") && y.hostInit.None? && z.hostInit.None?
    ensures !x.useParentBin && !y.useParentBin && !z.useParentBin
    ensures Derived(x, BARE) && Derived(y, x) && Derived(z, y)
    ensures x.base == Some("d") && y.base == Some("x") && z.base == Some("y")
  {
    x := Derive(WithFragment("x", "d", "1").(hostInit := Some("h")), BARE, "1");
    y := Derive(WithFragment("y", "x", "2"), x, "2");
    z := Derive(WithFragment("z", "y", "3"), y, "3");
  }

  lemma ThreeChain(ws: seq<Cfg>, base: map<Cfg, Cfg>, depth: map<Cfg, nat>, x: Cfg, y: Cfg, z: Cfg)
    requires x in ws && y in ws && z in ws && !x.isDistro && !y.isDistro && !z.isDistro
    requires ResolvedSet(ws, base, depth) && Distinct(ws) && Bases(base, [z, y, x])
    ensures ChainIn(ws, base, depth, [z, y, x])
  {
    assert forall c :: c in [z, y, x] ==> c == x || c == y || c == z;
  }

  lemma NotCarried(x: Cfg, y: Cfg, z: Cfg)
    requires Imageless(y, "y") && Imageless(z, "z") && y.hostInit.None? && z.hostInit.None? && !z.useParentBin
    ensures !Carries([z, y, x], Binary, "h") && Has(z, Binary)
  {
  }

  /** Three Linux workloads without images, each based on the one before and with a kernel of its own:
      nothing makes the binary of the last wait for the host-init script of the first. */
  lemma ScriptTooLate() returns (ws: seq<Cfg>, base: map<Cfg, Cfg>, depth: map<Cfg, nat>, cs: seq<Cfg>)
    ensures ChainIn(ws, base, depth, cs) && |cs| == 3 && cs[2].hostInit == Some("h") && Has(cs[0], Binary)
    ensures !LeadsTo(Graph(ws), Name(cs[0], Binary), "h")
  {
    var x, y, z := ThreeWorkloads();
    ws, cs := [BARE, x, y, z], [z, y, x];
    assert Distinct(ws) by { FourDistinct(ws, x, y, z); }
    base, depth := ResolvedFour(x, y, z);
    NotCarried(x, y, z);
    ThreeChain(ws, base, depth, x, y, z);
    HostInitFirst(ws, base, depth, cs, Binary);
  }
}
