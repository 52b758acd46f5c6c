/** Forking the inheritance tree for workloads that customise their distribution
    (ConfigManager._forkDistro in wlutil/config.py, with the options of the `br` distribution).

    A workload with distribution options of its own (a leaf) needs its own copy of every base down
    to the distribution, so that the options do not leak to other workloads.  A copy is named after
    the original and a hash of the options.  Leaves are processed one after another, in any order,
    and a leaf may inherit from a workload that has been forked already. */
module DistroFork {
  import opened Common

  datatype Opts = Opts(configs: seq<string>, env: map<string, string>)

  // `opts` are the distribution options; `body` is everything the fork leaves alone.
  datatype Cfg = Cfg(name: string, base: Option<string>, opts: Option<Opts>, isDistro: bool, body: string)

  type Table = map<string, Cfg>

  /** mergeOpts of br.py: configuration fragments accumulate, later variables override. */
  function MergeOpts(base: Opts, own: Opts): Opts {
    Opts(base.configs + own.configs, base.env + own.env)
  }

  // ---------------------------------------------------------------- chains of bases

  /** `ns` are the workloads from ns[0] up to the one that has no base or a distribution as base. */
  predicate Chain(t: Table, ns: seq<string>) {
    && 0 < |ns|
    && (forall i :: 0 <= i < |ns| ==> ns[i] in t && !t[ns[i]].isDistro)
    && (forall i :: 0 <= i < |ns| - 1 ==> t[ns[i]].base == Some(ns[i + 1]))
    && AtRoot(t, ns[|ns| - 1])
  }

  predicate ChainOf(t: Table, n: string, ns: seq<string>) {
    Chain(t, ns) && ns[0] == n
  }

  predicate AtRoot(t: Table, n: string) {
    n in t && (t[n].base.None? || (t[n].base.value in t && t[t[n].base.value].isDistro))
  }

  lemma ChainHead(t: Table, ns: seq<string>)
    requires Chain(t, ns)
    ensures if |ns| == 1 then AtRoot(t, ns[0]) else t[ns[0]].base == Some(ns[1]) && Chain(t, ns[1..])
  {
    if |ns| > 1 {
      assert t[ns[0]].base == Some(ns[0 + 1]);
    }
  }

  /** What mergeOptsRecursive returns for ns[0]; the source raises KeyError for a workload that has
      neither a base nor distribution options. */
  function MergeAlong(t: Table, ns: seq<string>): Result<Option<Opts>>
    requires Chain(t, ns)
  {
    var own := t[ns[0]].opts;
    if |ns| == 1 then
      if t[ns[0]].base.None? && own.None? then Err else Ok(own)
    else
      assert Chain(t, ns[1..]);
      MergeOver(MergeAlong(t, ns[1..]), own)
  }

  // Options of a workload merged over what merging its base gave.
  function MergeOver(base: Result<Option<Opts>>, own: Option<Opts>): Result<Option<Opts>> {
    if base.Err? || own.None? then base
    else if base.value.None? then Ok(own)
    else Ok(Some(MergeOpts(base.value.value, own.value)))
  }

  lemma Prepend(t: Table, n: string, ns: seq<string>)
    requires Chain(t, ns) && n in t && !t[n].isDistro && t[n].base == Some(ns[0])
    ensures Chain(t, [n] + ns) && MergeAlong(t, [n] + ns) == MergeOver(MergeAlong(t, ns), t[n].opts)
  {
    assert ([n] + ns)[1..] == ns;
  }

  /** The variables a workload should see: those of its chain, the most derived ones winning. */
  function EnvAlong(t: Table, ns: seq<string>): map<string, string>
    requires Known(t, ns)
  {
    if ns == [] then map[]
    else EnvAlong(t, ns[1..]) + (if t[ns[0]].opts.Some? then t[ns[0]].opts.value.env else map[])
  }

  // The value that the most derived workload on a chain that sets a variable gives it.
  function Variable(t: Table, ns: seq<string>, x: string): Option<string>
    requires Known(t, ns)
  {
    if ns == [] then None
    else if t[ns[0]].opts.Some? && x in t[ns[0]].opts.value.env then Some(t[ns[0]].opts.value.env[x])
    else Variable(t, ns[1..], x)
  }

  lemma {:induction false} EnvSays(t: Table, ns: seq<string>, x: string)
    requires Known(t, ns)
    ensures (if x in EnvAlong(t, ns) then Some(EnvAlong(t, ns)[x]) else None) == Variable(t, ns, x)
  {
    if ns != [] {
      EnvSays(t, ns[1..], x);
    }
  }

  // ---------------------------------------------------------------- names of forks

  predicate DotFree(s: string) { '.' !in s }

  /** The distribution's name, and the hash of its options, taken to be injective. */
  datatype Naming = Naming(dist: string, hash: Opts -> string) {
    function Fork(n: string, o: Opts): string { n + "." + hash(o) }

    ghost predicate Good() {
      && DotFree(dist)
      && (forall o :: DotFree(hash(o)))
      && (forall o, p :: hash(o) == hash(p) ==> o == p)
    }
  }

  lemma DotsDiffer(a: string, b: string, h: string, k: string)
    requires |a| < |b| && DotFree(h)
    ensures a + "." + h != b + "." + k
  {
    var s, r := a + "." + h, b + "." + k;
    assert r[|b|] == '.';
    if |b| < |s| {
      assert s[|b|] == h[|b| - |a| - 1];
    }
  }

  lemma SplitAtDot(a: string, b: string, h: string, k: string)
    requires a + "." + h == b + "." + k && DotFree(h) && DotFree(k)
    ensures a == b && h == k
  {
    var s, r := a + "." + h, b + "." + k;
    if |a| != |b| {
      DotsDiffer(if |a| < |b| then a else b, if |a| < |b| then b else a,
                 if |a| < |b| then h else k, if |a| < |b| then k else h);
    }
    assert a == s[..|a|] && b == r[..|b|] && h == s[|a| + 1..] && k == r[|b| + 1..];
  }

  lemma ForkInjective(nm: Naming, a: string, o: Opts, b: string, p: Opts)
    requires nm.Good() && nm.Fork(a, o) == nm.Fork(b, p)
    ensures a == b && o == p
  {
    SplitAtDot(a, b, nm.hash(o), nm.hash(p));
  }

  lemma ForkIsNotDist(nm: Naming, a: string, o: Opts)
    requires nm.Good()
    ensures nm.Fork(a, o) != nm.dist
  {
    assert nm.Fork(a, o)[|a|] == '.';
  }

  // ---------------------------------------------------------------- chains never repeat

  lemma {:induction false} SameTail(t: Table, ns: seq<string>, i: nat, j: nat, d: nat)
    requires Chain(t, ns) && i < j && j + d < |ns| && ns[i] == ns[j]
    ensures ns[i + d] == ns[j + d]
  {
    if d > 0 {
      SameTail(t, ns, i, j, d - 1);
      assert t[ns[i + d - 1]].base == Some(ns[i + d - 1 + 1]) && t[ns[j + d - 1]].base == Some(ns[j + d - 1 + 1]);
    }
  }

  lemma ChainNoRepeats(t: Table, ns: seq<string>, i: nat, j: nat)
    requires Chain(t, ns) && i < j < |ns|
    ensures ns[i] != ns[j]
  {
    var d := |ns| - 1 - j;
    assert t[ns[i + d]].base == Some(ns[i + d + 1]) && !t[ns[i + d + 1]].isDistro;
    assert AtRoot(t, ns[j + d]);
    if ns[i] == ns[j] {
      SameTail(t, ns, i, j, d);
    }
  }

  lemma {:induction false} ChainUnique(t: Table, ns: seq<string>, ms: seq<string>)
    requires Chain(t, ns) && Chain(t, ms) && ns[0] == ms[0]
    ensures ns == ms
  {
    ChainHead(t, ns);
    ChainHead(t, ms);
    assert |ns| > 1 <==> !AtRoot(t, ns[0]);
    assert |ms| > 1 <==> !AtRoot(t, ms[0]);
    if |ns| > 1 {
      ChainUnique(t, ns[1..], ms[1..]);
      assert ns == [ns[0]] + ns[1..] && ms == [ms[0]] + ms[1..];
    }
  }

  // ---------------------------------------------------------------- finished forks

  // What the fork leaves alone of the workloads on a chain.
  function BodiesAlong(t: Table, ns: seq<string>): (bs: seq<string>)
    requires Known(t, ns)
    ensures |bs| == |ns|
  {
    if ns == [] then [] else [t[ns[0]].body] + BodiesAlong(t, ns[1..])
  }

  lemma {:induction false} BodyAt(t: Table, ns: seq<string>, i: nat)
    requires Known(t, ns) && i < |ns|
    ensures BodiesAlong(t, ns)[i] == t[ns[i]].body
  {
    if i > 0 {
      BodyAt(t, ns[1..], i - 1);
    }
  }

  /** From `f` on, workloads with contents `bs` lead down to the distribution for options `o`; each of
      them is listed under its name and carries exactly these options. */
  ghost predicate Down(nm: Naming, forks: Table, f: string, o: Opts, bs: seq<string>)
    decreases |bs|
  {
    && f in forks
    && if forks[f].isDistro then bs == [] && f == nm.Fork(nm.dist, o)
       else
         && bs != [] && forks[f].name == f && forks[f].body == bs[0]
         && forks[f].opts == Some(o) && forks[f].base.Some? && Down(nm, forks, forks[f].base.value, o, bs[1..])
  }

  ghost predicate ChainBodies(t: Table, n: string, bs: seq<string>) {
    exists ns :: ChainOf(t, n, ns) && BodiesAlong(t, ns) == bs
  }

  ghost predicate ForkBodies(nm: Naming, forks: Table, f: string, bs: seq<string>) {
    exists o :: Down(nm, forks, f, o, bs)
  }

  // The contents of the workloads from `x` to its root, for the distribution itself, for a loaded
  // workload and for a fork.
  ghost predicate Bodies(nm: Naming, t0: Table, forks: Table, x: string, bs: seq<string>) {
    (x == nm.dist && bs == []) || (x in t0 && ChainBodies(t0, x, bs)) || (x in forks && ForkBodies(nm, forks, x, bs))
  }

  // `f` is the fork of `x` for options `o`, with the contents of its original all the way down.
  ghost predicate ForkOf(nm: Naming, t0: Table, forks: Table, f: string, x: string, o: Opts, bs: seq<string>) {
    f == nm.Fork(x, o) && Down(nm, forks, f, o, bs) && Bodies(nm, t0, forks, x, bs)
  }

  ghost predicate IsFork(nm: Naming, t0: Table, forks: Table, f: string) {
    exists x, o, bs :: ForkOf(nm, t0, forks, f, x, o, bs)
  }

  // All forks made so far are complete.
  ghost predicate Complete(nm: Naming, t0: Table, forks: Table) {
    forall f {:trigger IsFork(nm, t0, forks, f)} :: f in forks ==> IsFork(nm, t0, forks, f)
  }

  predicate Extends(small: Table, big: Table) {
    forall f :: f in small ==> f in big && big[f] == small[f]
  }

  lemma {:induction false} DownExtends(nm: Naming, small: Table, big: Table, f: string, o: Opts, bs: seq<string>)
    requires Extends(small, big) && Down(nm, small, f, o, bs)
    ensures Down(nm, big, f, o, bs)
    decreases |bs|
  {
    if !small[f].isDistro {
      DownExtends(nm, small, big, small[f].base.value, o, bs[1..]);
    }
  }

  lemma BodiesExtend(nm: Naming, t0: Table, small: Table, big: Table, x: string, bs: seq<string>)
    requires Extends(small, big) && Bodies(nm, t0, small, x, bs)
    ensures Bodies(nm, t0, big, x, bs)
  {
    if x in small && ForkBodies(nm, small, x, bs) {
      var o :| Down(nm, small, x, o, bs);
      DownExtends(nm, small, big, x, o, bs);
    }
  }

  lemma {:induction false} DownUnique(nm: Naming, forks: Table, f: string, o: Opts, bs: seq<string>, o': Opts, bs': seq<string>)
    requires Down(nm, forks, f, o, bs) && Down(nm, forks, f, o', bs')
    ensures bs == bs'
    decreases |bs|
  {
    if !forks[f].isDistro {
      DownUnique(nm, forks, forks[f].base.value, o, bs[1..], o', bs'[1..]);
    }
  }

  // Loaded workloads, forks and the distribution have different names.
  ghost predicate Apart(nm: Naming, t0: Table, forks: Table) {
    t0.Keys !! forks.Keys && nm.dist !in t0 && nm.dist !in forks
  }

  lemma BodiesUnique(nm: Naming, t0: Table, forks: Table, x: string, bs: seq<string>, bs': seq<string>)
    requires Apart(nm, t0, forks) && Bodies(nm, t0, forks, x, bs) && Bodies(nm, t0, forks, x, bs')
    ensures bs == bs'
  {
    if x in t0 {
      var ns :| ChainOf(t0, x, ns) && BodiesAlong(t0, ns) == bs;
      var ns' :| ChainOf(t0, x, ns') && BodiesAlong(t0, ns') == bs';
      ChainUnique(t0, ns, ns');
    } else if x in forks {
      var o :| Down(nm, forks, x, o, bs);
      var o' :| Down(nm, forks, x, o', bs');
      DownUnique(nm, forks, x, o, bs, o', bs');
    }
  }

  // An existing fork with the right name can be reused: it carries the right options all the way.
  lemma ReuseFork(nm: Naming, t0: Table, forks: Table, x: string, o: Opts, bs: seq<string>)
    requires nm.Good() && Apart(nm, t0, forks) && Complete(nm, t0, forks)
    requires nm.Fork(x, o) in forks && Bodies(nm, t0, forks, x, bs)
    ensures Down(nm, forks, nm.Fork(x, o), o, bs)
  {
    assert IsFork(nm, t0, forks, nm.Fork(x, o));
    var x', o', bs' :| ForkOf(nm, t0, forks, nm.Fork(x, o), x', o', bs');
    ForkInjective(nm, x, o, x', o');
    BodiesUnique(nm, t0, forks, x, bs, bs');
  }

  // One more complete fork.
  lemma AddFork(nm: Naming, t0: Table, forks: Table, x: string, o: Opts, c: Cfg, bs: seq<string>)
    requires Complete(nm, t0, forks) && nm.Fork(x, o) !in forks && Bodies(nm, t0, forks, x, bs)
    requires if c.isDistro then x == nm.dist && bs == []
             else c.name == nm.Fork(x, o) && c.opts == Some(o) && c.base.Some? && bs != [] && c.body == bs[0] && Down(nm, forks, c.base.value, o, bs[1..])
    ensures Complete(nm, t0, forks[nm.Fork(x, o) := c]) && Down(nm, forks[nm.Fork(x, o) := c], nm.Fork(x, o), o, bs)
  {
    var f := nm.Fork(x, o);
    var forks' := forks[f := c];
    if !c.isDistro {
      DownExtends(nm, forks, forks', c.base.value, o, bs[1..]);
    }
    assert Down(nm, forks', f, o, bs);
    forall g | g in forks'
      ensures IsFork(nm, t0, forks', g)
    {
      if g == f {
        BodiesExtend(nm, t0, forks, forks', x, bs);
        assert ForkOf(nm, t0, forks', f, x, o, bs);
      } else {
        assert IsFork(nm, t0, forks, g);
        var y, p, m :| ForkOf(nm, t0, forks, g, y, p, m);
        DownExtends(nm, forks, forks', g, p, m);
        BodiesExtend(nm, t0, forks, forks', y, m);
        assert ForkOf(nm, t0, forks', g, y, p, m);
      }
    }
  }

  // ---------------------------------------------------------------- merging over forks

  function Times(s: seq<string>, n: nat): (r: seq<string>)
    ensures |r| == n * |s|
  {
    if n == 0 then [] else Times(s, n - 1) + s
  }

  /** The chain of a fork that carries `o`: merging along it gives the variables of `o` again, but
      repeats the fragments of `o` once per workload on the chain. */
  lemma {:induction false} DownChain(nm: Naming, forks: Table, t: Table, f: string, o: Opts, bs: seq<string>) returns (ns: seq<string>)
    requires Down(nm, forks, f, o, bs) && Extends(forks, t)
    ensures t[f].isDistro <==> bs == []
    ensures Known(t, ns) && BodiesAlong(t, ns) == bs && Carry(nm, t, ns, o)
    ensures if bs == [] then f == nm.Fork(nm.dist, o) else ChainOf(t, f, ns)
    ensures ns != [] ==> MergeAlong(t, ns) == Ok(Some(Opts(Times(o.configs, |bs|), o.env)))
    decreases |bs|
  {
    if forks[f].isDistro {
      ns := [];
    } else {
      var rest := DownChain(nm, forks, t, forks[f].base.value, o, bs[1..]);
      ns := [f] + rest;
      assert ns[1..] == rest;
      assert Chain(t, ns);
      assert o.env + o.env == o.env;
      if rest == [] {
        assert Times(o.configs, 1) == [] + o.configs == o.configs;
      }
    }
  }

  // Workloads that carry options `o`, listed under their names, the last of them based on the
  // distribution for these options.
  ghost predicate Carry(nm: Naming, t: Table, ns: seq<string>, o: Opts)
    requires Known(t, ns)
  {
    && (forall i :: 0 <= i < |ns| ==> t[ns[i]].opts == Some(o) && t[ns[i]].name == ns[i])
    && (ns != [] ==> OnDistro(nm, t, ns[|ns| - 1], o))
  }

  ghost predicate OnDistro(nm: Naming, t: Table, n: string, o: Opts) {
    n in t && t[n].base == Some(nm.Fork(nm.dist, o)) && nm.Fork(nm.dist, o) in t && t[nm.Fork(nm.dist, o)].isDistro
  }

  // ---------------------------------------------------------------- fragments

  // For each leaf that has been forked, the leaves that had been forked before it.
  type History = map<string, set<string>>

  predicate Closed(h: History) {
    forall n :: n in h ==> h[n] <= h.Keys && n !in h[n]
  }

  function OwnConfigs(t: Table, n: string): seq<string>
    requires n in t
  {
    if t[n].opts.Some? then t[n].opts.value.configs else []
  }

  predicate Known(t: Table, ns: seq<string>) {
    forall i :: 0 <= i < |ns| ==> ns[i] in t
  }

  /** The fragments a workload should use: those of its chain, from the root on. */
  function ConfigsAlong(t: Table, ns: seq<string>): seq<string>
    requires Known(t, ns)
  {
    if ns == [] then [] else ConfigsAlong(t, ns[1..]) + OwnConfigs(t, ns[0])
  }

  /** The fragments that merging gives ns[0], a workload that is not forked yet, when `done` are. */
  function Merged(t0: Table, h: History, done: set<string>, ns: seq<string>): seq<string>
    requires Known(t0, ns)
    decreases |ns|, 0
  {
    if ns == [] then [] else MergedBase(t0, h, done, ns[1..]) + OwnConfigs(t0, ns[0])
  }

  /** The same for a workload that may be forked: then it and all its bases repeat what merging gave. */
  function MergedBase(t0: Table, h: History, done: set<string>, ns: seq<string>): seq<string>
    requires Known(t0, ns)
    decreases |ns|, 1
  {
    if ns != [] && ns[0] in done && ns[0] in h then Times(Merged(t0, h, h[ns[0]], ns), |ns|) else Merged(t0, h, done, ns)
  }

  lemma MergedRoot(t0: Table, h: History, done: set<string>, ns: seq<string>)
    requires Known(t0, ns) && |ns| == 1
    ensures Merged(t0, h, done, ns) == ConfigsAlong(t0, ns) == OwnConfigs(t0, ns[0])
  {
    assert ns[1..] == [];
    assert Merged(t0, h, done, []) == MergedBase(t0, h, done, []) == ConfigsAlong(t0, []) == [];
    assert [] + OwnConfigs(t0, ns[0]) == OwnConfigs(t0, ns[0]);
  }

  // Nothing is ever lost, and where there is nothing nothing is repeated.
  lemma {:induction false} MergedBounds(t0: Table, h: History, done: set<string>, ns: seq<string>)
    requires Known(t0, ns)
    ensures |Merged(t0, h, done, ns)| >= |ConfigsAlong(t0, ns)|
    ensures ConfigsAlong(t0, ns) == [] ==> Merged(t0, h, done, ns) == []
    decreases |ns|, 0
  {
    if ns != [] {
      MergedBaseBounds(t0, h, done, ns[1..]);
    }
  }

  lemma {:induction false} MergedBaseBounds(t0: Table, h: History, done: set<string>, ns: seq<string>)
    requires Known(t0, ns)
    ensures |MergedBase(t0, h, done, ns)| >= |ConfigsAlong(t0, ns)|
    ensures ConfigsAlong(t0, ns) == [] ==> MergedBase(t0, h, done, ns) == []
    decreases |ns|, 1
  {
    if ns != [] && ns[0] in done && ns[0] in h {
      MergedBounds(t0, h, h[ns[0]], ns);
      TimesBounds(Merged(t0, h, h[ns[0]], ns), |ns|);
    } else {
      MergedBounds(t0, h, done, ns);
    }
  }

  lemma TimesBounds(s: seq<string>, n: nat)
    requires n > 0
    ensures |Times(s, n)| >= |s| && (s == [] ==> Times(s, n) == [])
    ensures n >= 2 && s != [] ==> |Times(s, n)| >= 2 * |s|
    ensures n == 1 ==> Times(s, n) == s
  {
    assert n * |s| >= 1 * |s|;
    assert n >= 2 ==> n * |s| >= 2 * |s|;
    assert Times(s, 0) + s == s;
  }

  /** No base of ns[0] but the root had been forked with fragments to repeat. */
  predicate Unrepeated(t0: Table, done: set<string>, ns: seq<string>)
    requires Known(t0, ns)
  {
    forall j :: 1 <= j < |ns| - 1 && ns[j] in done ==> ConfigsAlong(t0, ns[j..]) == []
  }

  predicate UnrepeatedFrom(t0: Table, done: set<string>, ns: seq<string>)
    requires Known(t0, ns)
  {
    forall j :: 0 <= j < |ns| - 1 && ns[j] in done ==> ConfigsAlong(t0, ns[j..]) == []
  }

  lemma UnrepeatedTail(t0: Table, done: set<string>, ns: seq<string>)
    requires Known(t0, ns) && ns != []
    ensures Unrepeated(t0, done, ns) <==> UnrepeatedFrom(t0, done, ns[1..])
    ensures UnrepeatedFrom(t0, done, ns) <==>
              Unrepeated(t0, done, ns) && (|ns| > 1 && ns[0] in done ==> ConfigsAlong(t0, ns) == [])
  {
    assert forall j :: 0 <= j < |ns| - 1 ==> ns[1..][j] == ns[j + 1] && ns[1..][j..] == ns[j + 1..];
    if UnrepeatedFrom(t0, done, ns[1..]) {
      forall j | 1 <= j < |ns| - 1 && ns[j] in done
        ensures ConfigsAlong(t0, ns[j..]) == []
      {
        assert ns[1..][j - 1] == ns[j] && ns[1..][j - 1..] == ns[j..];
      }
    }
    assert ns[0..] == ns;
  }

  // A workload without fragments has no base with fragments.
  lemma {:induction false} NoConfigsBelow(t0: Table, ns: seq<string>, j: nat)
    requires Known(t0, ns) && j <= |ns| && ConfigsAlong(t0, ns) == []
    ensures ConfigsAlong(t0, ns[j..]) == []
    decreases j
  {
    if j > 0 {
      NoConfigsBelow(t0, ns[1..], j - 1);
      assert ns[1..][j - 1..] == ns[j..];
    } else {
      assert ns[0..] == ns;
    }
  }

  /** Merging gives exactly the fragments of the chain if and only if no base but the root had been
      forked with fragments of its chain to repeat. */
  lemma {:induction false} MergedIff(t0: Table, h: History, done: set<string>, ns: seq<string>)
    requires Known(t0, ns) && ns != [] && done <= h.Keys
    ensures Merged(t0, h, done, ns) == ConfigsAlong(t0, ns) <==> Unrepeated(t0, done, ns)
    decreases |ns|, 0
  {
    UnrepeatedTail(t0, done, ns);
    if |ns| > 1 {
      MergedBaseIff(t0, h, done, ns[1..]);
      SameEnd(MergedBase(t0, h, done, ns[1..]), ConfigsAlong(t0, ns[1..]), OwnConfigs(t0, ns[0]));
    } else {
      MergedRoot(t0, h, done, ns);
    }
  }

  lemma SameEnd(a: seq<string>, b: seq<string>, c: seq<string>)
    ensures a + c == b + c <==> a == b
  {
    if a + c == b + c {
      assert |a| == |b|;
      assert a == (a + c)[..|a|] && b == (b + c)[..|b|];
    }
  }

  lemma {:induction false} MergedBaseIff(t0: Table, h: History, done: set<string>, ns: seq<string>)
    requires Known(t0, ns) && ns != [] && done <= h.Keys
    ensures MergedBase(t0, h, done, ns) == ConfigsAlong(t0, ns) <==> UnrepeatedFrom(t0, done, ns)
    decreases |ns|, 1
  {
    UnrepeatedTail(t0, done, ns);
    if ns[0] in done {
      ForkedIff(t0, h, done, ns);
    } else {
      MergedIff(t0, h, done, ns);
    }
  }

  // The fragments of a forked workload: right if it is a root, or if there are none.
  lemma {:induction false} ForkedIff(t0: Table, h: History, done: set<string>, ns: seq<string>)
    requires Known(t0, ns) && ns != [] && done <= h.Keys && ns[0] in done
    ensures MergedBase(t0, h, done, ns) == ConfigsAlong(t0, ns) <==> UnrepeatedFrom(t0, done, ns)
    decreases |ns|, 0
  {
    UnrepeatedTail(t0, done, ns);
    if |ns| == 1 {
      MergedRoot(t0, h, h[ns[0]], ns);
      TimesBounds(Merged(t0, h, h[ns[0]], ns), 1);
    } else {
      MergedBounds(t0, h, h[ns[0]], ns);
      TimesBounds(Merged(t0, h, h[ns[0]], ns), |ns|);
      if ConfigsAlong(t0, ns) == [] {
        NothingToRepeat(t0, done, ns);
      }
    }
  }

  lemma NothingToRepeat(t0: Table, done: set<string>, ns: seq<string>)
    requires Known(t0, ns) && ConfigsAlong(t0, ns) == []
    ensures UnrepeatedFrom(t0, done, ns)
  {
    forall j | 0 <= j < |ns| - 1 && ns[j] in done
      ensures ConfigsAlong(t0, ns[j..]) == []
    {
      NoConfigsBelow(t0, ns, j);
    }
  }

  // Later forks do not change what earlier ones were given.
  lemma {:induction false} MergedKept(t0: Table, h: History, h': History, done: set<string>, ns: seq<string>)
    requires Known(t0, ns) && Closed(h) && done <= h.Keys && (forall n :: n in h ==> n in h' && h'[n] == h[n])
    ensures Merged(t0, h, done, ns) == Merged(t0, h', done, ns)
    ensures MergedBase(t0, h, done, ns) == MergedBase(t0, h', done, ns)
    decreases |ns|
  {
    if ns != [] {
      MergedKept(t0, h, h', done, ns[1..]);
      if ns[0] in done {
        MergedKept(t0, h, h', h[ns[0]], ns[1..]);
      }
    }
  }

  // ---------------------------------------------------------------- the table while leaves are forked

  // The loaded workloads: no distributions yet, no name that looks like a fork's, bases loaded.
  ghost predicate Loaded(nm: Naming, t0: Table) {
    && nm.Good() && nm.dist !in t0
    && (forall n :: n in t0 ==> !t0[n].isDistro)
    && (forall n {:trigger HasChain(t0, n)} :: n in t0 ==> HasChain(t0, n))
    && (forall x, o :: nm.Fork(x, o) !in t0)
  }

  ghost predicate HasChain(t: Table, n: string) {
    exists ns :: ChainOf(t, n, ns)
  }

  predicate RootHasOpts(t: Table, ns: seq<string>)
    requires Chain(t, ns)
  {
    t[ns[|ns| - 1]].opts.Some?
  }

  /** The options and the base a forked leaf has, by its original chain: the variables of the chain,
      the fragments merging gave, and bases with the contents of the original ones, all of them
      carrying its options, down to the distribution. */
  ghost predicate Fits(nm: Naming, t0: Table, h: History, forks: Table, n: string, o: Opts, base: string, ns: seq<string>)
    requires n in h
  {
    && Chain(t0, ns) && RootHasOpts(t0, ns) && o.env == EnvAlong(t0, ns)
    && o.configs == Merged(t0, h, h[n], ns)
    && Down(nm, forks, base, o, BodiesAlong(t0, ns[1..]))
  }

  /** A leaf that has been forked. */
  ghost predicate Forked(nm: Naming, t0: Table, h: History, forks: Table, t: Table, n: string)
    requires n in t0 && n in t && n in h
  {
    && t[n] == t0[n].(base := t[n].base, opts := t[n].opts)
    && t[n].opts.Some? && t[n].base.Some?
    && forall ns :: ChainOf(t0, n, ns) ==> Fits(nm, t0, h, forks, n, t[n].opts.value, t[n].base.value, ns)
  }

  /** The state between two forks: the leaves in `h` are forked, other loaded workloads are untouched,
      and all else in the table are complete forks. */
  ghost predicate Between(nm: Naming, t0: Table, h: History, forks: Table, t: Table) {
    && t.Keys == t0.Keys + forks.Keys && t0.Keys !! forks.Keys
    && Complete(nm, t0, forks)
    && Settled(nm, t0, h, forks, t)
  }

  ghost predicate Settled(nm: Naming, t0: Table, h: History, forks: Table, t: Table) {
    && Extends(forks, t) && h.Keys <= t0.Keys <= t.Keys && Closed(h)
    && (forall n :: n in t0 && n !in h ==> t[n] == t0[n])
    && (forall n :: n in h ==> Forked(nm, t0, h, forks, t, n))
  }

  // Merging along `ms` gives variables `env` and fragments `configs`.
  predicate Gives(t: Table, ms: seq<string>, env: map<string, string>, configs: seq<string>) {
    Chain(t, ms) && MergeAlong(t, ms) == Ok(Some(Opts(configs, env)))
  }

  /** However many ancestors have been forked, merging along the current chain of a workload gives
      the variables of its original chain, and the fragments that MergedBase says. */
  lemma {:induction false} CurrentChain(nm: Naming, t0: Table, h: History, forks: Table, t: Table, ns: seq<string>)
      returns (ms: seq<string>)
    requires Loaded(nm, t0) && Settled(nm, t0, h, forks, t) && Chain(t0, ns)
    ensures ChainOf(t, ns[0], ms) && BodiesAlong(t, ms) == BodiesAlong(t0, ns)
    ensures if RootHasOpts(t0, ns) then Gives(t, ms, EnvAlong(t0, ns), MergedBase(t0, h, h.Keys, ns)) else MergeAlong(t, ms).Err?
    decreases |ns|
  {
    var n := ns[0];
    if n in h {
      assert ChainOf(t0, n, ns);
      ms := ForkedChain(nm, t0, h, forks, t, n, ns);
    } else if |ns| == 1 {
      ms := [n];
      UnforkedRoot(nm, t0, h, t, n, ns);
    } else {
      ChainHead(t0, ns);
      var rest := CurrentChain(nm, t0, h, forks, t, ns[1..]);
      ms := [n] + rest;
      UnforkedNext(t0, h, t, ns, rest);
    }
  }

  lemma ForkedChain(nm: Naming, t0: Table, h: History, forks: Table, t: Table, n: string, ns: seq<string>) returns (ms: seq<string>)
    requires n in t0 && n in t && n in h && Forked(nm, t0, h, forks, t, n) && Extends(forks, t) && !t0[n].isDistro
    requires ChainOf(t0, n, ns)
    ensures ChainOf(t, n, ms) && BodiesAlong(t, ms) == BodiesAlong(t0, ns) && RootHasOpts(t0, ns)
    ensures Gives(t, ms, EnvAlong(t0, ns), MergedBase(t0, h, h.Keys, ns))
  {
    var o := t[n].opts.value;
    assert Fits(nm, t0, h, forks, n, o, t[n].base.value, ns);
    var fs := DownChain(nm, forks, t, t[n].base.value, o, BodiesAlong(t0, ns[1..]));
    ms := [n] + fs;
    assert ms[1..] == fs;
    if fs == [] {
      assert Chain(t, ms);
      TimesBounds(o.configs, 1);
    } else {
      Prepend(t, n, fs);
      assert o.env + o.env == o.env;
    }
  }

  lemma UnforkedRoot(nm: Naming, t0: Table, h: History, t: Table, n: string, ns: seq<string>)
    requires Loaded(nm, t0) && Chain(t0, ns) && ns == [n] && n in t && t[n] == t0[n] && n !in h
    ensures Chain(t, ns)
    ensures if RootHasOpts(t0, ns) then Gives(t, ns, EnvAlong(t0, ns), MergedBase(t0, h, h.Keys, ns)) else MergeAlong(t, ns).Err?
  {
    assert AtRoot(t0, n);
    assert ns[1..] == [];
    if t0[n].opts.Some? {
      assert EnvAlong(t0, ns) == map[] + t0[n].opts.value.env == t0[n].opts.value.env;
      MergedRoot(t0, h, h.Keys, ns);
    }
  }

  lemma UnforkedNext(t0: Table, h: History, t: Table, ns: seq<string>, rest: seq<string>)
    requires Chain(t0, ns) && |ns| > 1 && Chain(t0, ns[1..]) && ns[0] in t && t[ns[0]] == t0[ns[0]] && ns[0] !in h
    requires ChainOf(t, ns[1], rest) && t0[ns[0]].base == Some(ns[1])
    requires if RootHasOpts(t0, ns[1..]) then Gives(t, rest, EnvAlong(t0, ns[1..]), MergedBase(t0, h, h.Keys, ns[1..]))
             else MergeAlong(t, rest).Err?
    ensures Chain(t, [ns[0]] + rest)
    ensures if RootHasOpts(t0, ns) then Gives(t, [ns[0]] + rest, EnvAlong(t0, ns), MergedBase(t0, h, h.Keys, ns))
            else MergeAlong(t, [ns[0]] + rest).Err?
  {
    Prepend(t, ns[0], rest);
    if t0[ns[0]].opts.None? {
      assert EnvAlong(t0, ns) == EnvAlong(t0, ns[1..]) + map[] == EnvAlong(t0, ns[1..]);
      assert MergedBase(t0, h, h.Keys, ns) == MergedBase(t0, h, h.Keys, ns[1..]) + [] == MergedBase(t0, h, h.Keys, ns[1..]);
    }
  }

  // The root of the chain of `n` has no distribution options.
  ghost predicate Rootless(t: Table, n: string) {
    exists ns :: ChainOf(t, n, ns) && !RootHasOpts(t, ns)
  }

  /** The original and the current chain of a workload. */
  lemma Chains(nm: Naming, t0: Table, h: History, forks: Table, t: Table, n: string)
      returns (ns: seq<string>, ms: seq<string>)
    requires Loaded(nm, t0) && Settled(nm, t0, h, forks, t) && n in t0
    ensures ChainOf(t0, n, ns) && (forall ns' :: ChainOf(t0, n, ns') ==> ns' == ns)
    ensures ChainOf(t, n, ms) && BodiesAlong(t, ms) == BodiesAlong(t0, ns)
    ensures if Rootless(t0, n) then MergeAlong(t, ms).Err?
            else RootHasOpts(t0, ns) && Gives(t, ms, EnvAlong(t0, ns), MergedBase(t0, h, h.Keys, ns))
  {
    assert HasChain(t0, n);
    ns :| ChainOf(t0, n, ns);
    forall ns' | ChainOf(t0, n, ns')
      ensures ns' == ns
    {
      ChainUnique(t0, ns, ns');
    }
    ms := CurrentChain(nm, t0, h, forks, t, ns);
  }

  // ---------------------------------------------------------------- forking, in place

  class Manager {
    const nm: Naming
    var cfgs: Table
    ghost var forks: Table  // the forks that are complete

    constructor (nm: Naming, cfgs: Table)
      ensures this.nm == nm && this.cfgs == cfgs && forks == map[]
    {
      this.nm, this.cfgs, forks := nm, cfgs, map[];
    }

    // `ns` is the chain of workload `n`; a distribution has none.
    method MergeOptsRecursive(n: string, ghost ns: seq<string>) returns (r: Result<Option<Opts>>)
      requires n in cfgs && if cfgs[n].isDistro then ns == [] else ChainOf(cfgs, n, ns)
      ensures r == if ns == [] then Ok(None) else MergeAlong(cfgs, ns)
      decreases |ns|
    {
      var cfg := cfgs[n];
      if cfg.isDistro {
        return Ok(None);
      }
      ChainHead(cfgs, ns);
      if cfg.base.None? {
        return if cfg.opts.None? then Err else Ok(cfg.opts);
      }
      var base := MergeOptsRecursive(cfg.base.value, ns[1..]);
      r := MergeOver(base, cfg.opts);
    }

    // Gives `c` the distribution for its options as base, creating it if necessary.
    method BaseOnDistro(c: string, id: string, ghost o: Opts, ghost cs: seq<string>, ghost t0: Table, ghost building: set<string>)
      requires Copying(nm, t0, forks, cfgs, building, cs, o) && cs == [c] && id == nm.hash(o)
      modifies this
      ensures Based(nm, t0, building, old(forks), forks, old(cfgs), cfgs, c, o, BodiesAlong(old(cfgs), cs[1..]))
    {
      var cfg := cfgs[c];
      var baseName := nm.dist + "." + id;
      assert baseName == nm.Fork(nm.dist, o);
      if baseName !in cfgs {
        var distro := Cfg(baseName, None, None, true, nm.dist);
        DistroAdded(nm, t0, forks, cfgs, building, cs, o, distro);
        cfgs := cfgs[baseName := distro];
        forks := forks[baseName := distro];
      } else {
        ForkReused(nm, t0, forks, cfgs, building, cs, o, nm.dist, []);
      }
      cfgs := cfgs[c := cfg.(base := Some(baseName))];
    }

    /** forkRecursive: gives `c` a base that carries its options down to the distribution. */
    method ForkRecursive(c: string, id: string, ghost o: Opts, ghost cs: seq<string>, ghost t0: Table, ghost building: set<string>)
      requires Copying(nm, t0, forks, cfgs, building, cs, o) && cs[0] == c && id == nm.hash(o)
      modifies this
      ensures Based(nm, t0, building, old(forks), forks, old(cfgs), cfgs, c, o, BodiesAlong(old(cfgs), cs[1..]))
      decreases |cs|, 1
    {
      var cfg := cfgs[c];
      ChainHead(cfgs, cs);
      if cfg.base.None? || cfgs[cfg.base.value].isDistro {
        assert cs == [c];
        BaseOnDistro(c, id, o, cs, t0, building);
      } else if cfg.base.value + "." + id in cfgs {
        ReadyAt(nm, t0, forks, cfgs, building, cs, o, 1);
        assert cfg.base.value + "." + id == nm.Fork(cs[1], o);
        ForkReused(nm, t0, forks, cfgs, building, cs, o, cs[1], BodiesAlong(cfgs, cs[1..]));
        cfgs := cfgs[c := cfg.(base := Some(cfg.base.value + "." + id))];
      } else {
        CopyBase(c, id, o, cs, t0, building);
      }
    }

    // Copies the base of `c`, and goes on with the copy.
    method CopyBase(c: string, id: string, ghost o: Opts, ghost cs: seq<string>, ghost t0: Table, ghost building: set<string>)
      requires Copying(nm, t0, forks, cfgs, building, cs, o) && cs[0] == c && id == nm.hash(o)
      requires |cs| > 1 && cfgs[c].base == Some(cs[1]) && nm.Fork(cs[1], o) !in cfgs
      modifies this
      ensures Based(nm, t0, building, old(forks), forks, old(cfgs), cfgs, c, o, BodiesAlong(old(cfgs), cs[1..]))
      decreases |cs|, 0
    {
      var base := cfgs[c].base.value;
      var forked := base + "." + id;
      assert forked == nm.Fork(cs[1], o);
      CopyingNext(nm, t0, forks, cfgs, building, cs, o);
      ReadyAt(nm, t0, forks, cfgs, building, cs, o, 1);
      CopyKeeps(nm, cfgs, cs, o, 2);
      assert ([forked] + cs[2..])[1..] == cs[2..] == cs[1..][1..];
      AddCopy(c, base, forked, o);
      ForkRecursive(forked, id, o, [forked] + cs[2..], t0, building + {forked});
      BasedNext(nm, t0, building, old(forks), forks, old(cfgs), cfgs, c, cs[1], o, BodiesAlong(old(cfgs), cs[1..]));
      forks := forks[forked := cfgs[forked]];
    }

    method AddCopy(c: string, base: string, forked: string, ghost o: Opts)
      requires c in cfgs && base in cfgs && forked == nm.Fork(base, o) && forked != c
      modifies this`cfgs
      ensures cfgs == WithCopy(nm, old(cfgs), c, base, o)
    {
      var copy := cfgs[base].(name := forked, opts := cfgs[c].opts);
      cfgs := cfgs[forked := copy];
      cfgs := cfgs[c := cfgs[c].(base := Some(forked))];
    }

    /** _forkDistro: gives leaf `n` the options of its whole chain and a chain of bases of its own.
        It fails exactly if the root of the chain has no distribution options.  The fragments are those
        of the chain exactly if no base but the root had been forked with fragments to repeat. */
    method ForkDistro(n: string, ghost t0: Table, ghost h: History) returns (ok: bool)
      requires Loaded(nm, t0) && Between(nm, t0, h, forks, cfgs)
      requires n in t0 && n !in h && t0[n].opts.Some?
      modifies this
      ensures ok ==> Between(nm, t0, h[n := h.Keys], forks, cfgs)
      ensures ok ==> cfgs[n].opts.Some? && Right(t0, h.Keys, n, cfgs[n].opts.value.configs)
      ensures ok ==> Rebuilt(nm, t0, cfgs, n)
      ensures ok ==> forall x :: x in old(cfgs) && x != n ==> x in cfgs && cfgs[x] == old(cfgs[x])
      ensures !ok ==> cfgs == old(cfgs) && forks == old(forks)
      ensures ok <==> !Rootless(t0, n)
    {
      ghost var ns, ms := Chains(nm, t0, h, forks, cfgs, n);
      var r := MergeOptsRecursive(n, ms);
      if r.Err? || r.value.None? {
        return false;
      }
      var opts := r.value.value;
      StartCopying(nm, t0, h, forks, cfgs, ms, opts);
      cfgs := cfgs[n := cfgs[n].(opts := Some(opts))];
      ghost var cfgs1 := cfgs;
      ForkRecursive(n, nm.hash(opts), opts, ms, t0, {});
      TailBodies(old(cfgs), cfgs1, ms, t0, ns);
      LeafForked(nm, t0, h, old(forks), forks, old(cfgs), cfgs1, cfgs, n, ns, opts);
      FragmentsRight(t0, h, n, ns, opts.configs);
      LeafRebuilt(nm, t0, h[n := h.Keys], forks, cfgs, n);
      return true;
    }

    // Forks `n` if it has distribution options of its own.
    method ForkIfLeaf(n: string, ghost t0: Table, ghost h: History) returns (ok: bool, ghost h': History)
      requires Loaded(nm, t0) && Between(nm, t0, h, forks, cfgs) && n in t0 && n !in h
      modifies this
      ensures if ok then Between(nm, t0, h', forks, cfgs) else t0[n].opts.Some? && Rootless(t0, n)
      ensures h' == if t0[n].opts.Some? then h[n := h.Keys] else h
    {
      assert cfgs[n] == t0[n];
      h' := if t0[n].opts.Some? then h[n := h.Keys] else h;
      if cfgs[n].opts.Some? {
        ok := ForkDistro(n, t0, h);
      } else {
        return true, h';
      }
    }

    /** Forks every leaf among `order`, the names of the loaded workloads in any order.  What the order
        decides is whether fragments are repeated: those of a leaf are right exactly if no base but the
        root came before it with fragments to repeat. */
    method ForkAll(order: seq<string>, ghost t0: Table) returns (ok: bool, ghost h: History)
      requires Loaded(nm, t0) && cfgs == t0 && forks == map[]
      requires forall i, j :: 0 <= i < j < |order| ==> order[i] != order[j]
      requires forall n :: n in order ==> n in t0
      modifies this
      ensures if ok then Between(nm, t0, h, forks, cfgs) && h.Keys == Leaves(t0, order)
              else exists n :: n in order && t0[n].opts.Some? && Rootless(t0, n)
      ensures ok ==> forall i :: 0 <= i < |order| && t0[order[i]].opts.Some? ==>
                cfgs[order[i]].opts.Some? && Right(t0, Leaves(t0, order[..i]), order[i], cfgs[order[i]].opts.value.configs)
      ensures ok ==> forall n :: n in Leaves(t0, order) ==> Rebuilt(nm, t0, cfgs, n)
    {
      h := map[];
      for i := 0 to |order|
        invariant Between(nm, t0, h, forks, cfgs) && ByOrder(t0, order, i, h)
      {
        var n := order[i];
        assert n in order;
        NextInOrder(t0, order, i, h);
        ok, h := ForkIfLeaf(n, t0, h);
        if !ok {
          return;
        }
      }
      assert order[..|order|] == order;
      AllRight(nm, t0, order, h, forks, cfgs);
      AllRebuilt(nm, t0, h, forks, cfgs);
      return true, h;
    }
  }

  /** The new chain `ms` of leaf `n`, beside its original chain `ns`: as long, with the contents of the
      original workloads one by one, all of them with the options of the leaf, the copies listed under
      their names, and the last one based on the distribution for these options. */
  ghost predicate NewChain(nm: Naming, t0: Table, t: Table, n: string, ns: seq<string>, ms: seq<string>) {
    && ChainOf(t, n, ms) && Known(t0, ns) && |ms| == |ns| && t[n].opts.Some?
    && (forall i :: 0 <= i < |ns| ==> t[ms[i]].body == t0[ns[i]].body && t[ms[i]].opts == t[n].opts)
    && (forall i :: 1 <= i < |ms| ==> t[ms[i]].name == ms[i])
    && OnDistro(nm, t, ms[|ms| - 1], t[n].opts.value)
  }

  ghost predicate Rebuilt(nm: Naming, t0: Table, t: Table, n: string) {
    forall ns :: ChainOf(t0, n, ns) ==> exists ms :: NewChain(nm, t0, t, n, ns, ms)
  }

  lemma LeafChain(nm: Naming, t0: Table, h: History, forks: Table, t: Table, n: string, ns: seq<string>) returns (ms: seq<string>)
    requires n in t0 && n in t && n in h && Forked(nm, t0, h, forks, t, n) && Extends(forks, t) && !t0[n].isDistro
    requires ChainOf(t0, n, ns)
    ensures NewChain(nm, t0, t, n, ns, ms)
  {
    var o := t[n].opts.value;
    assert Fits(nm, t0, h, forks, n, o, t[n].base.value, ns);
    var fs := DownChain(nm, forks, t, t[n].base.value, o, BodiesAlong(t0, ns[1..]));
    ms := [n] + fs;
    if fs == [] {
      assert Chain(t, ms);
      DownDistro(nm, forks, t, t[n].base.value, o);
    } else {
      Prepend(t, n, fs);
    }
    forall i | 0 <= i < |ns|
      ensures t[ms[i]].body == t0[ns[i]].body && t[ms[i]].opts == t[n].opts
    {
      if i > 0 {
        BodyAt(t, fs, i - 1);
        BodyAt(t0, ns[1..], i - 1);
      }
    }
  }

  lemma DownDistro(nm: Naming, forks: Table, t: Table, f: string, o: Opts)
    requires Down(nm, forks, f, o, []) && Extends(forks, t)
    ensures f == nm.Fork(nm.dist, o) && f in t && t[f].isDistro
  {
  }

  lemma LeafRebuilt(nm: Naming, t0: Table, h: History, forks: Table, t: Table, n: string)
    requires Loaded(nm, t0) && Settled(nm, t0, h, forks, t) && n in h
    ensures Rebuilt(nm, t0, t, n)
  {
    forall ns | ChainOf(t0, n, ns)
      ensures exists ms :: NewChain(nm, t0, t, n, ns, ms)
    {
      var ms := LeafChain(nm, t0, h, forks, t, n, ns);
    }
  }

  // The fragments are those of the original chain exactly if none had been repeated before.
  ghost predicate Right(t0: Table, done: set<string>, n: string, configs: seq<string>) {
    forall ns :: ChainOf(t0, n, ns) ==> (configs == ConfigsAlong(t0, ns) <==> Unrepeated(t0, done, ns))
  }

  lemma FragmentsRight(t0: Table, h: History, n: string, ns: seq<string>, configs: seq<string>)
    requires ChainOf(t0, n, ns) && (forall ns' :: ChainOf(t0, n, ns') ==> ns' == ns)
    requires n !in h && configs == MergedBase(t0, h, h.Keys, ns)
    ensures Right(t0, h.Keys, n, configs)
  {
    MergedIff(t0, h, h.Keys, ns);
  }

  // The history after the first k workloads of the order.
  ghost predicate ByOrder(t0: Table, order: seq<string>, k: nat, h: History)
    requires k <= |order|
  {
    && h.Keys == Leaves(t0, order[..k])
    && (forall i :: 0 <= i < k && order[i] in h ==> h[order[i]] == Leaves(t0, order[..i]))
  }

  lemma NextInOrder(t0: Table, order: seq<string>, k: nat, h: History)
    requires k < |order| && ByOrder(t0, order, k, h) && order[k] in t0
    requires forall i, j :: 0 <= i < j < |order| ==> order[i] != order[j]
    ensures order[k] !in h
    ensures ByOrder(t0, order, k + 1, if t0[order[k]].opts.Some? then h[order[k] := h.Keys] else h)
  {
    assert order[..k + 1] == order[..k] + [order[k]];
    assert order[k] !in order[..k];
  }

  lemma AllRight(nm: Naming, t0: Table, order: seq<string>, h: History, forks: Table, t: Table)
    requires Loaded(nm, t0) && Between(nm, t0, h, forks, t) && ByOrder(t0, order, |order|, h)
    requires forall n :: n in order ==> n in t0
    ensures forall i :: 0 <= i < |order| && t0[order[i]].opts.Some? ==>
              t[order[i]].opts.Some? && Right(t0, Leaves(t0, order[..i]), order[i], t[order[i]].opts.value.configs)
  {
    forall i | 0 <= i < |order| && t0[order[i]].opts.Some?
      ensures t[order[i]].opts.Some? && Right(t0, Leaves(t0, order[..i]), order[i], t[order[i]].opts.value.configs)
    {
      assert order[i] in order[..|order|];
      assert order[i] in h;
      ForkedRight(nm, t0, h, forks, t, order[i]);
    }
  }

  lemma AllRebuilt(nm: Naming, t0: Table, h: History, forks: Table, t: Table)
    requires Loaded(nm, t0) && Between(nm, t0, h, forks, t)
    ensures forall n :: n in h ==> Rebuilt(nm, t0, t, n)
  {
    forall n | n in h
      ensures Rebuilt(nm, t0, t, n)
    {
      LeafRebuilt(nm, t0, h, forks, t, n);
    }
  }

  lemma ForkedRight(nm: Naming, t0: Table, h: History, forks: Table, t: Table, n: string)
    requires n in t0 && n in t && n in h && Forked(nm, t0, h, forks, t, n) && Closed(h)
    ensures Right(t0, h[n], n, t[n].opts.value.configs)
  {
    forall ns | ChainOf(t0, n, ns)
      ensures t[n].opts.value.configs == ConfigsAlong(t0, ns) <==> Unrepeated(t0, h[n], ns)
    {
      assert Fits(nm, t0, h, forks, n, t[n].opts.value, t[n].base.value, ns);
      MergedIff(t0, h, h[n], ns);
    }
  }

  // The workloads among `order` that have distribution options of their own.
  ghost function Leaves(t0: Table, order: seq<string>): set<string> {
    set n | n in order && n in t0 && t0[n].opts.Some?
  }

  // A base still to be copied: its copy has a name of its own, and is to have the same contents.
  ghost predicate Ready(nm: Naming, t0: Table, forks: Table, building: set<string>, x: string, o: Opts, bs: seq<string>) {
    x != nm.dist && nm.Fork(x, o) !in building && Bodies(nm, t0, forks, x, bs)
  }

  ghost predicate AllReady(nm: Naming, t0: Table, forks: Table, t: Table, building: set<string>, cs: seq<string>, o: Opts)
    requires Known(t, cs)
  {
    forall i: nat {:trigger ReadyFrom(nm, t0, forks, t, building, cs, o, i)} ::
      1 <= i < |cs| ==> ReadyFrom(nm, t0, forks, t, building, cs, o, i)
  }

  ghost predicate ReadyFrom(nm: Naming, t0: Table, forks: Table, t: Table, building: set<string>, cs: seq<string>, o: Opts, i: nat)
    requires Known(t, cs) && i < |cs|
  {
    Ready(nm, t0, forks, building, cs[i], o, BodiesAlong(t, cs[i..]))
  }

  /** What holds while the bases of a leaf are being copied, with `cs` the chain of the workload
      whose base is next: `building` are copies whose own base is still to be copied. */
  ghost predicate Copying(nm: Naming, t0: Table, forks: Table, t: Table, building: set<string>, cs: seq<string>, o: Opts) {
    && Loaded(nm, t0) && Complete(nm, t0, forks) && Extends(forks, t) && nm.dist !in forks
    && t.Keys == t0.Keys + forks.Keys + building && (t0.Keys + building) !! forks.Keys
    && Chain(t, cs) && cs[0] !in forks && t[cs[0]].opts == Some(o)
    && nm.Fork(nm.dist, o) !in building
    && AllReady(nm, t0, forks, t, building, cs, o)
  }

  lemma ReadyAt(nm: Naming, t0: Table, forks: Table, t: Table, building: set<string>, cs: seq<string>, o: Opts, i: nat)
    requires Copying(nm, t0, forks, t, building, cs, o) && 1 <= i < |cs|
    ensures Ready(nm, t0, forks, building, cs[i], o, BodiesAlong(t, cs[i..]))
    ensures nm.Good() && t0.Keys + building <= t.Keys && cs[i] in t && !t[cs[i]].isDistro && t[cs[0]].opts == Some(o)
  {
    assert ReadyFrom(nm, t0, forks, t, building, cs, o, i);
  }

  /** `c` has got its base, which leads down over workloads with contents `bs`, and nothing else that
      existed has changed. */
  ghost predicate Based(nm: Naming, t0: Table, building: set<string>, forks: Table, forks': Table, t: Table, t': Table,
                        c: string, o: Opts, bs: seq<string>) {
    && Complete(nm, t0, forks') && Extends(forks', t') && Extends(forks, forks') && nm.dist !in forks'
    && t'.Keys == t0.Keys + forks'.Keys + building && (t0.Keys + building) !! forks'.Keys
    && c in t && c in t' && t'[c] == t[c].(base := t'[c].base) && t'[c].base.Some?
    && Down(nm, forks', t'[c].base.value, o, bs)
    && (forall x :: x in t && x != c ==> x in t' && t'[x] == t[x])
  }

  lemma ForkReused(nm: Naming, t0: Table, forks: Table, t: Table, building: set<string>, cs: seq<string>, o: Opts, x: string, bs: seq<string>)
    requires Copying(nm, t0, forks, t, building, cs, o) && nm.Fork(x, o) in t && nm.Fork(x, o) !in building
    requires Bodies(nm, t0, forks, x, bs)
    ensures Based(nm, t0, building, forks, forks, t, t[cs[0] := t[cs[0]].(base := Some(nm.Fork(x, o)))], cs[0], o, bs)
  {
    ReuseFork(nm, t0, forks, x, o, bs);
  }

  lemma DistroAdded(nm: Naming, t0: Table, forks: Table, t: Table, building: set<string>, cs: seq<string>, o: Opts, d: Cfg)
    requires Copying(nm, t0, forks, t, building, cs, o) && nm.Fork(nm.dist, o) !in t && d.isDistro
    ensures var f := nm.Fork(nm.dist, o);
            Based(nm, t0, building, forks, forks[f := d], t, t[f := d][cs[0] := t[cs[0]].(base := Some(f))], cs[0], o, [])
  {
    AddFork(nm, t0, forks, nm.dist, o, d, []);
    ForkIsNotDist(nm, nm.dist, o);
  }

  lemma ChainKept(t: Table, t': Table, ns: seq<string>)
    requires Chain(t, ns) && (forall x :: x in ns ==> x in t' && t'[x] == t[x])
    requires forall d :: d in t && t[d].isDistro ==> d in t' && t'[d] == t[d]
    ensures Chain(t', ns)
  {
    assert AtRoot(t, ns[|ns| - 1]);
  }

  // The table after copying `b`, the base of `c`, for options `o`.
  ghost function WithCopy(nm: Naming, t: Table, c: string, b: string, o: Opts): Table
    requires c in t && b in t
  {
    var forked := nm.Fork(b, o);
    t[forked := t[b].(name := forked, opts := t[c].opts)][c := t[c].(base := Some(forked))]
  }

  lemma CopyChain(nm: Naming, t: Table, cs: seq<string>, o: Opts)
    requires Chain(t, cs) && |cs| > 1 && nm.Fork(cs[1], o) !in t
    ensures Chain(WithCopy(nm, t, cs[0], cs[1], o), [nm.Fork(cs[1], o)] + cs[2..])
  {
    var t' := WithCopy(nm, t, cs[0], cs[1], o);
    var forked := nm.Fork(cs[1], o);
    ChainHead(t, cs);
    ChainHead(t, cs[1..]);
    assert cs[1..][1..] == cs[2..];
    if |cs| > 2 {
      forall x | x in cs[2..]
        ensures x in t' && t'[x] == t[x]
      {
        var i :| 2 <= i < |cs| && cs[i] == x;
        ChainNoRepeats(t, cs, 0, i);
      }
      ChainKept(t, t', cs[2..]);
      Prepend(t', forked, cs[2..]);
    } else {
      assert AtRoot(t, cs[1]);
      assert [forked] + cs[2..] == [forked];
    }
  }

  lemma CopyingNext(nm: Naming, t0: Table, forks: Table, t: Table, building: set<string>, cs: seq<string>, o: Opts)
    requires Copying(nm, t0, forks, t, building, cs, o) && |cs| > 1 && nm.Fork(cs[1], o) !in t
    ensures var forked := nm.Fork(cs[1], o);
            Copying(nm, t0, forks, WithCopy(nm, t, cs[0], cs[1], o), building + {forked}, [forked] + cs[2..], o)
  {
    var forked := nm.Fork(cs[1], o);
    CopyChain(nm, t, cs, o);
    ReadyAt(nm, t0, forks, t, building, cs, o, 1);
    if nm.Fork(nm.dist, o) == forked {
      ForkInjective(nm, nm.dist, o, cs[1], o);
    }
    ReadyNext(nm, t0, forks, t, building, cs, o);
  }

  // Chains of which nothing has changed keep their contents.
  lemma {:induction false} BodiesKept(t: Table, t': Table, ns: seq<string>)
    requires Known(t, ns) && Known(t', ns) && forall i :: 0 <= i < |ns| ==> t'[ns[i]].body == t[ns[i]].body
    ensures BodiesAlong(t', ns) == BodiesAlong(t, ns)
  {
    if ns != [] {
      BodiesKept(t, t', ns[1..]);
    }
  }

  lemma ReadyNext(nm: Naming, t0: Table, forks: Table, t: Table, building: set<string>, cs: seq<string>, o: Opts)
    requires Copying(nm, t0, forks, t, building, cs, o) && |cs| > 1 && nm.Fork(cs[1], o) !in t
    requires Chain(WithCopy(nm, t, cs[0], cs[1], o), [nm.Fork(cs[1], o)] + cs[2..])
    ensures var forked := nm.Fork(cs[1], o);
            AllReady(nm, t0, forks, WithCopy(nm, t, cs[0], cs[1], o), building + {forked}, [forked] + cs[2..], o)
  {
    var forked := nm.Fork(cs[1], o);
    var t', cs' := WithCopy(nm, t, cs[0], cs[1], o), [forked] + cs[2..];
    forall i: nat | 1 <= i < |cs'|
      ensures ReadyFrom(nm, t0, forks, t', building + {forked}, cs', o, i)
    {
      ReadyAt(nm, t0, forks, t, building, cs, o, i + 1);
      ReadyStill(nm, t0, forks, t, building, cs, o, i);
    }
  }

  lemma ReadyStill(nm: Naming, t0: Table, forks: Table, t: Table, building: set<string>, cs: seq<string>, o: Opts, i: nat)
    requires 1 <= i < |cs| - 1 && nm.Good() && Chain(t, cs) && nm.Fork(cs[1], o) !in t
    requires Ready(nm, t0, forks, building, cs[i + 1], o, BodiesAlong(t, cs[i + 1..]))
    requires Known(WithCopy(nm, t, cs[0], cs[1], o), [nm.Fork(cs[1], o)] + cs[2..])
    ensures var forked := nm.Fork(cs[1], o);
            ReadyFrom(nm, t0, forks, WithCopy(nm, t, cs[0], cs[1], o), building + {forked}, [forked] + cs[2..], o, i)
  {
    var forked, bs := nm.Fork(cs[1], o), BodiesAlong(t, cs[i + 1..]);
    var cs' := [forked] + cs[2..];
    assert cs'[i] == cs[i + 1];
    assert cs'[i..] == cs[i + 1..];
    assert BodiesAlong(WithCopy(nm, t, cs[0], cs[1], o), cs'[i..]) == bs by { CopyKeeps(nm, t, cs, o, i + 1); }
    assert Ready(nm, t0, forks, building + {forked}, cs'[i], o, bs) by { ForkDiffers(nm, t, cs, o, i + 1); }
  }

  lemma ForkDiffers(nm: Naming, t: Table, cs: seq<string>, o: Opts, i: nat)
    requires nm.Good() && Chain(t, cs) && 1 < i < |cs|
    ensures nm.Fork(cs[i], o) != nm.Fork(cs[1], o)
  {
    ChainNoRepeats(t, cs, 1, i);
    if nm.Fork(cs[i], o) == nm.Fork(cs[1], o) {
      ForkInjective(nm, cs[i], o, cs[1], o);
    }
  }

  lemma TailBodies(t: Table, t1: Table, ms: seq<string>, t0: Table, ns: seq<string>)
    requires Known(t, ms) && Known(t0, ns) && ms != [] && BodiesAlong(t, ms) == BodiesAlong(t0, ns)
    requires Known(t1, ms) && forall i :: 0 <= i < |ms| ==> t1[ms[i]].body == t[ms[i]].body
    ensures BodiesAlong(t1, ms[1..]) == BodiesAlong(t0, ns[1..])
  {
    BodiesKept(t, t1, ms[1..]);
    assert BodiesAlong(t, ms)[1..] == BodiesAlong(t0, ns)[1..];
  }

  // Copying the base of cs[0] leaves the contents of what comes after it.
  lemma CopyKeeps(nm: Naming, t: Table, cs: seq<string>, o: Opts, i: nat)
    requires Known(t, cs) && 1 < i <= |cs| && nm.Fork(cs[1], o) !in t
    ensures Known(WithCopy(nm, t, cs[0], cs[1], o), cs[i..])
    ensures BodiesAlong(WithCopy(nm, t, cs[0], cs[1], o), cs[i..]) == BodiesAlong(t, cs[i..])
  {
    BodiesKept(t, WithCopy(nm, t, cs[0], cs[1], o), cs[i..]);
  }

  lemma BasedNext(nm: Naming, t0: Table, building: set<string>, forks: Table, forks': Table, t: Table, t': Table,
                  c: string, b: string, o: Opts, bs: seq<string>)
    requires nm.Good() && c in t && b in t && t[c].opts == Some(o) && !t[b].isDistro && nm.Fork(b, o) !in t
    requires t0.Keys + building <= t.Keys && bs != [] && bs[0] == t[b].body && Bodies(nm, t0, forks, b, bs)
    requires Based(nm, t0, building + {nm.Fork(b, o)}, forks, forks', WithCopy(nm, t, c, b, o), t', nm.Fork(b, o), o, bs[1..])
    ensures Based(nm, t0, building, forks, forks'[nm.Fork(b, o) := t'[nm.Fork(b, o)]], t, t', c, o, bs)
  {
    var forked := nm.Fork(b, o);
    assert forked !in forks';
    assert Bodies(nm, t0, forks', b, bs) by { BodiesExtend(nm, t0, forks, forks', b, bs); }
    AddFork(nm, t0, forks', b, o, t'[forked], bs);
    ForkIsNotDist(nm, b, o);
    assert t'[c] == t[c].(base := Some(forked));
  }

  lemma NeverDist(nm: Naming, t0: Table, forks: Table, x: string)
    requires Loaded(nm, t0) && Complete(nm, t0, forks) && (x in t0 || x in forks)
    ensures x != nm.dist
  {
    if x in forks {
      assert IsFork(nm, t0, forks, x);
      var y, o, bs :| ForkOf(nm, t0, forks, x, y, o, bs);
      ForkIsNotDist(nm, y, o);
    }
  }

  // The current chain of a workload, loaded or forked, has the contents it always had.
  lemma CurrentBodies(nm: Naming, t0: Table, h: History, forks: Table, t: Table, x: string, ms: seq<string>)
    requires Loaded(nm, t0) && Between(nm, t0, h, forks, t) && ChainOf(t, x, ms)
    ensures Bodies(nm, t0, forks, x, BodiesAlong(t, ms))
  {
    if x in t0 {
      var ns, ms' := Chains(nm, t0, h, forks, t, x);
      ChainUnique(t, ms, ms');
    } else {
      assert IsFork(nm, t0, forks, x);
      var y, o, bs :| ForkOf(nm, t0, forks, x, y, o, bs);
      var ms' := DownChain(nm, forks, t, x, o, bs);
      ChainUnique(t, ms, ms');
      assert ForkBodies(nm, forks, x, bs);
    }
  }

  lemma {:induction false} ChainSuffix(t: Table, ns: seq<string>, i: nat)
    requires Chain(t, ns) && i < |ns|
    ensures ChainOf(t, ns[i], ns[i..])
  {
    if i > 0 {
      ChainHead(t, ns);
      ChainSuffix(t, ns[1..], i - 1);
      assert ns[1..][i - 1..] == ns[i..];
    } else {
      assert ns[0..] == ns;
    }
  }

  lemma StartCopying(nm: Naming, t0: Table, h: History, forks: Table, t: Table, ms: seq<string>, o: Opts)
    requires Loaded(nm, t0) && Between(nm, t0, h, forks, t) && Chain(t, ms) && ms[0] in t0
    ensures Copying(nm, t0, forks, t[ms[0] := t[ms[0]].(opts := Some(o))], {}, ms, o)
  {
    var t' := t[ms[0] := t[ms[0]].(opts := Some(o))];
    assert AtRoot(t, ms[|ms| - 1]);
    assert Chain(t', ms);
    if nm.dist in forks {
      NeverDist(nm, t0, forks, nm.dist);
    }
    AllReadyFirst(nm, t0, h, forks, t, ms, o);
    forall i: nat | 1 <= i < |ms|
      ensures ReadyFrom(nm, t0, forks, t', {}, ms, o, i)
    {
      assert ReadyFrom(nm, t0, forks, t, {}, ms, o, i);
      BodiesKept(t, t', ms[i..]);
    }
  }

  lemma AllReadyFirst(nm: Naming, t0: Table, h: History, forks: Table, t: Table, ms: seq<string>, o: Opts)
    requires Loaded(nm, t0) && Between(nm, t0, h, forks, t) && Chain(t, ms)
    ensures AllReady(nm, t0, forks, t, {}, ms, o)
  {
    forall i: nat | 1 <= i < |ms|
      ensures ReadyFrom(nm, t0, forks, t, {}, ms, o, i)
    {
      ChainSuffix(t, ms, i);
      CurrentBodies(nm, t0, h, forks, t, ms[i], ms[i..]);
      NeverDist(nm, t0, forks, ms[i]);
    }
  }

  lemma LeafForked(nm: Naming, t0: Table, h: History, forks: Table, forks': Table, t: Table, t1: Table, t': Table,
                   n: string, ns: seq<string>, o: Opts)
    requires Between(nm, t0, h, forks, t) && n in t0 && n !in h && ChainOf(t0, n, ns)
    requires t1 == t[n := t[n].(opts := Some(o))] && Based(nm, t0, {}, forks, forks', t1, t', n, o, BodiesAlong(t0, ns[1..]))
    requires RootHasOpts(t0, ns) && o.env == EnvAlong(t0, ns) && o.configs == MergedBase(t0, h, h.Keys, ns)
    requires forall ns' :: ChainOf(t0, n, ns') ==> ns' == ns
    ensures Between(nm, t0, h[n := h.Keys], forks', t')
  {
    var h' := h[n := h.Keys];
    assert Forked(nm, t0, h', forks', t', n) by { NewlyForked(nm, t0, h, forks', t1, t', n, ns, o); }
    OneMoreForked(nm, t0, h, forks, forks', t, t', n);
  }

  lemma OneMoreForked(nm: Naming, t0: Table, h: History, forks: Table, forks': Table, t: Table, t': Table, n: string)
    requires Settled(nm, t0, h, forks, t) && Extends(forks, forks') && Extends(forks', t') && t0.Keys <= t'.Keys
    requires n in t0 && n !in h && (forall x :: x in t0 && x != n ==> t'[x] == t[x])
    requires Forked(nm, t0, h[n := h.Keys], forks', t', n)
    ensures Settled(nm, t0, h[n := h.Keys], forks', t')
  {
    var h' := h[n := h.Keys];
    forall m | m in h'
      ensures Forked(nm, t0, h', forks', t', m)
    {
      if m != n {
        assert Forked(nm, t0, h, forks, t, m);
        StillForked(nm, t0, h, h', forks, forks', t, t', m);
      }
    }
  }

  lemma NewlyForked(nm: Naming, t0: Table, h: History, forks': Table, t1: Table, t': Table, n: string, ns: seq<string>, o: Opts)
    requires n in t0 && n !in h && ChainOf(t0, n, ns) && Closed(h) && (forall ns' :: ChainOf(t0, n, ns') ==> ns' == ns)
    requires n in t1 && n in t' && t1[n] == t0[n].(opts := Some(o)) && t'[n] == t1[n].(base := t'[n].base) && t'[n].base.Some?
    requires Down(nm, forks', t'[n].base.value, o, BodiesAlong(t0, ns[1..]))
    requires RootHasOpts(t0, ns) && o.env == EnvAlong(t0, ns) && o.configs == MergedBase(t0, h, h.Keys, ns)
    ensures Forked(nm, t0, h[n := h.Keys], forks', t', n)
  {
    var h' := h[n := h.Keys];
    MergedKept(t0, h, h', h.Keys, ns);
    assert Fits(nm, t0, h', forks', n, o, t'[n].base.value, ns);
  }

  lemma StillForked(nm: Naming, t0: Table, h: History, h': History, forks: Table, forks': Table, t: Table, t': Table, m: string)
    requires m in t0 && m in t && m in t' && t'[m] == t[m] && m in h && Closed(h) && Extends(forks, forks')
    requires forall n :: n in h ==> n in h' && h'[n] == h[n]
    requires Forked(nm, t0, h, forks, t, m)
    ensures Forked(nm, t0, h', forks', t', m)
  {
    forall ns | ChainOf(t0, m, ns)
      ensures Fits(nm, t0, h', forks', m, t[m].opts.value, t[m].base.value, ns)
    {
      assert Fits(nm, t0, h, forks, m, t[m].opts.value, t[m].base.value, ns);
      MergedKept(t0, h, h', h[m], ns);
      DownExtends(nm, forks, forks', t[m].base.value, t[m].opts.value, BodiesAlong(t0, ns[1..]));
    }
  }

  // ---------------------------------------------------------------- repeated fragments

  // Workload "n" is based on "b", and that on "r"; each adds a fragment.
  const THREE: Table := map[
    "r" := Cfg("r", None, Some(Opts(["a"], map[])), false, ""),
    "b" := Cfg("b", Some("r"), Some(Opts(["b"], map[])), false, ""),
    "n" := Cfg("n", Some("b"), Some(Opts(["c"], map[])), false, "")]

  lemma ThreeLoaded(nm: Naming)
    requires nm.Good() && nm.dist !in THREE
    ensures Loaded(nm, THREE)
  {
    forall x, o
      ensures nm.Fork(x, o) !in THREE
    {
      assert nm.Fork(x, o)[|x|] == '.';
    }
    assert ChainOf(THREE, "r", ["r"]) && ChainOf(THREE, "b", ["b", "r"]) && ChainOf(THREE, "n", ["n", "b", "r"]);
    assert HasChain(THREE, "r") && HasChain(THREE, "b") && HasChain(THREE, "n");
  }

  /** If "b" is forked before "n", then "n" gets the fragments of "b" and "r" twice. */
  lemma RepeatedFragments(nm: Naming)
    requires nm.Good() && nm.dist !in THREE
    ensures Loaded(nm, THREE) && ChainOf(THREE, "n", ["n", "b", "r"])
    ensures ConfigsAlong(THREE, ["n", "b", "r"]) == ["a", "b", "c"]
    ensures Merged(THREE, map[], {}, ["n", "b", "r"]) == ["a", "b", "c"]
    ensures Merged(THREE, map["b" := {}], {"b"}, ["n", "b", "r"]) == ["a", "b", "a", "b", "c"]
    ensures !Unrepeated(THREE, {"b"}, ["n", "b", "r"])
  {
    ThreeLoaded(nm);
    ThreeFragments(THREE, "n", "b", "r");
    assert ["n", "b", "r"][1..] == ["b", "r"];
  }

  lemma ThreeFragments(t: Table, n: string, b: string, r: string)
    requires n in t && b in t && r in t && n != b && r != b
    requires OwnConfigs(t, r) == ["a"] && OwnConfigs(t, b) == ["b"] && OwnConfigs(t, n) == ["c"]
    ensures ConfigsAlong(t, [n, b, r]) == ["a", "b", "c"] && ConfigsAlong(t, [b, r]) == ["a", "b"]
    ensures Merged(t, map[], {}, [n, b, r]) == ["a", "b", "c"]
    ensures Merged(t, map[b := {}], {b}, [n, b, r]) == ["a", "b", "a", "b", "c"]
  {
    var ns, bs, rs := [n, b, r], [b, r], [r];
    var h: History := map[b := {}];
    assert ns[1..] == bs && bs[1..] == rs && rs[1..] == [];
    MergedRoot(t, map[], {}, rs);
    MergedRoot(t, h, {}, rs);
    assert ConfigsAlong(t, bs) == ["a"] + ["b"] == ["a", "b"];
    assert Merged(t, map[], {}, bs) == ["a", "b"];
    assert Merged(t, h, {}, bs) == ["a", "b"];
    TimesBounds(["a", "b"], 1);
    assert MergedBase(t, h, {b}, bs) == Times(["a", "b"], 2) == ["a", "b", "a", "b"];
  }
}
