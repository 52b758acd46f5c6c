/** Inheritance of the `linux` option group along a chain of bases (wlutil/config.py).

    A workload may override its base's kernel source, append kernel configuration fragments, and
    add, replace or (with a null path) remove kernel modules. */
module LinuxOpts {
  import opened Common

  type Path = string

  // The `linux` group.  A module mapped to None is one the user listed with a null path.
  datatype Linux = Linux(source: Option<Path>, config: Option<seq<Path>>, modules: Option<map<string, Option<Path>>>)

  // ---------------------------------------------------------------- inheriting from one base

  function WithoutNulls(mods: map<string, Option<Path>>): map<string, Option<Path>> {
    map m | m in mods && mods[m].Some? :: mods[m]
  }

  function OrElse<T>(own: Option<T>, base: Option<T>): Option<T> {
    if own.Some? then own else base
  }

  /** The group a workload ends up with, from its own group and its base's finished group.  When
      both exist but neither lists modules, the source raises KeyError. */
  function Inherit(own: Option<Linux>, base: Option<Linux>): Result<Option<Linux>> {
    if own.None? then Ok(base)
    else if base.None? then Ok(own)
    else
      var o, b := own.value, base.value;
      var config := if o.config.Some? && b.config.Some? then Some(b.config.value + o.config.value)
                    else OrElse(o.config, b.config);
      var modules := if o.modules.Some? && b.modules.Some? then Some(b.modules.value + o.modules.value)
                     else OrElse(o.modules, b.modules);
      if modules.None? then Err
      else Ok(Some(Linux(OrElse(o.source, b.source), config, Some(WithoutNulls(modules.value)))))
  }

  /** The finished group of the last workload of a chain that starts at the root. */
  function Resolve(chain: seq<Option<Linux>>): Result<Option<Linux>> {
    if chain == [] then Ok(None)
    else
      var n := |chain| - 1;
      match Resolve(chain[..n])
      case Err => Err
      case Ok(base) => Inherit(chain[n], base)
  }

  // ---------------------------------------------------------------- what a chain means

  function Fragments(g: Option<Linux>): seq<Path> {
    if g.Some? && g.value.config.Some? then g.value.config.value else []
  }

  function FragmentsAlong(chain: seq<Option<Linux>>): seq<Path> {
    if chain == [] then [] else FragmentsAlong(chain[..|chain| - 1]) + Fragments(chain[|chain| - 1])
  }

  function Modules(g: Option<Linux>): map<string, Option<Path>> {
    if g.Some? && g.value.modules.Some? then g.value.modules.value else map[]
  }

  // What the most derived workload that mentions module `m` says about it.
  function LastMention(chain: seq<Option<Linux>>, m: string): Option<Option<Path>> {
    if chain == [] then None
    else
      var n := |chain| - 1;
      if m in Modules(chain[n]) then Some(Modules(chain[n])[m]) else LastMention(chain[..n], m)
  }

  // The kernel source that the most derived workload with one names.
  function LastSource(chain: seq<Option<Linux>>): Option<Path> {
    if chain == [] then None
    else
      var n := |chain| - 1;
      if chain[n].Some? && chain[n].value.source.Some? then chain[n].value.source else LastSource(chain[..n])
  }

  function Groups(chain: seq<Option<Linux>>): nat {
    if chain == [] then 0 else Groups(chain[..|chain| - 1]) + (if chain[|chain| - 1].Some? then 1 else 0)
  }

  /** Later fragments override earlier ones, so their order matters: it is root to leaf. */
  lemma {:induction false} FragmentsResolve(chain: seq<Option<Linux>>)
    requires Resolve(chain).Ok?
    ensures Fragments(Resolve(chain).value) == FragmentsAlong(chain)
  {
    if chain != [] {
      FragmentsResolve(chain[..|chain| - 1]);
    }
  }

  /** The kernel source is the most derived one. */
  lemma {:induction false} SourceResolve(chain: seq<Option<Linux>>)
    requires Resolve(chain).Ok?
    ensures (if Resolve(chain).value.Some? then Resolve(chain).value.value.source else None) == LastSource(chain)
  {
    if chain != [] {
      SourceResolve(chain[..|chain| - 1]);
    }
  }

  // A null-free module table is present for the modules whose last mention is a path.
  predicate Obeys(mods: map<string, Option<Path>>, chain: seq<Option<Linux>>, m: string) {
    match LastMention(chain, m)
    case Some(Some(p)) => m in mods && mods[m] == Some(p)
    case _ => m !in mods
  }

  // The one shape of chain for which null modules survive.
  predicate OnlyGroupHasNull(chain: seq<Option<Linux>>) {
    Groups(chain) == 1 && exists i, m :: 0 <= i < |chain| && m in Modules(chain[i]) && Modules(chain[i])[m] == None
  }

  // Whatever the shape of the chain, the modules with a path are those last mentioned with it.
  lemma {:induction false} PathsResolve(chain: seq<Option<Linux>>, m: string, p: Path)
    requires Resolve(chain).Ok?
    ensures var mods := Modules(Resolve(chain).value);
            (m in mods && mods[m] == Some(p)) <==> LastMention(chain, m) == Some(Some(p))
  {
    if chain != [] {
      PathsResolve(chain[..|chain| - 1], m, p);
    }
  }

  lemma {:induction false} NoGroupsResolve(chain: seq<Option<Linux>>)
    ensures Groups(chain) == 0 <==> Resolve(chain) == Ok(None)
  {
    if chain != [] {
      NoGroupsResolve(chain[..|chain| - 1]);
    }
  }

  // A second group merges with the first, which drops every null.
  lemma {:induction false} NullsDropped(chain: seq<Option<Linux>>, m: string)
    requires Resolve(chain).Ok? && Groups(chain) >= 2 && m in Modules(Resolve(chain).value)
    ensures Modules(Resolve(chain).value)[m].Some?
  {
    var n := |chain| - 1;
    if chain[n].None? {
      NullsDropped(chain[..n], m);
    } else {
      NoGroupsResolve(chain[..n]);
    }
  }

  // With a single group, at index i, that group is inherited unchanged.
  lemma {:induction false} OneGroup(chain: seq<Option<Linux>>, i: nat)
    requires Groups(chain) == 1 && i < |chain| && chain[i].Some?
    ensures Resolve(chain) == Ok(chain[i])
    ensures forall j :: 0 <= j < |chain| && j != i ==> chain[j].None?
  {
    var n := |chain| - 1;
    if i == n {
      NoGroupsResolve(chain[..n]);
      NoGroupsAt(chain[..n]);
      assert forall j :: 0 <= j < n ==> chain[j] == chain[..n][j];
    } else {
      GroupCounts(chain[..n], i);
      OneGroup(chain[..n], i);
      assert forall j :: 0 <= j < n ==> chain[j] == chain[..n][j];
    }
  }

  lemma {:induction false} GroupCounts(chain: seq<Option<Linux>>, i: nat)
    requires i < |chain| && chain[i].Some?
    ensures Groups(chain) > 0
  {
    if i < |chain| - 1 {
      GroupCounts(chain[..|chain| - 1], i);
    }
  }

  lemma {:induction false} NoGroupsAt(chain: seq<Option<Linux>>)
    requires Groups(chain) == 0
    ensures forall j :: 0 <= j < |chain| ==> chain[j].None?
  {
    if chain != [] {
      var n := |chain| - 1;
      NoGroupsAt(chain[..n]);
      assert forall j :: 0 <= j < n ==> chain[j] == chain[..n][j];
    }
  }

  /** A module is present exactly if its most derived mention is a path, and then with that path,
      for every chain that resolves, unless its only group lists a null module. */
  lemma ModulesResolve(chain: seq<Option<Linux>>)
    requires Resolve(chain).Ok?
    ensures (forall m :: Obeys(Modules(Resolve(chain).value), chain, m)) <==> !OnlyGroupHasNull(chain)
  {
    var mods := Modules(Resolve(chain).value);
    NoGroupsResolve(chain);
    if OnlyGroupHasNull(chain) {
      var i, m :| 0 <= i < |chain| && m in Modules(chain[i]) && Modules(chain[i])[m] == None;
      OneGroup(chain, i);
      assert m in mods && !Obeys(mods, chain, m);
    } else {
      forall m
        ensures Obeys(mods, chain, m)
      {
        if m in mods {
          if Groups(chain) >= 2 {
            NullsDropped(chain, m);
          } else {
            var i := GroupAt(chain);
            OneGroup(chain, i);
            assert m in Modules(chain[i]);
          }
          PathsResolve(chain, m, mods[m].value);
        } else if LastMention(chain, m).Some? && LastMention(chain, m).value.Some? {
          PathsResolve(chain, m, LastMention(chain, m).value.value);
        }
      }
    }
  }

  lemma {:induction false} GroupAt(chain: seq<Option<Linux>>) returns (i: nat)
    requires Groups(chain) > 0
    ensures i < |chain| && chain[i].Some?
  {
    i := |chain| - 1;
    if chain[i].None? {
      i := GroupAt(chain[..i]);
    }
  }

  // ---------------------------------------------------------------- in place, on shared dictionaries

  class ModuleDict {
    var items: map<string, Option<Path>>

    constructor (items: map<string, Option<Path>>)
      ensures this.items == items
    {
      this.items := items;
    }

    // Deletes the entries with a null path, one at a time.
    method DropNulls()
      modifies this
      ensures items == WithoutNulls(old(items))
    {
      var names := items.Keys;
      while names != {}
        invariant names <= old(items).Keys
        invariant items == map m | m in old(items) && (m in names || old(items)[m].Some?) :: old(items)[m]
      {
        var name :| name in names;
        names := names - {name};
        if items[name].None? {
          items := items - {name};
        }
      }
    }
  }

  class LinuxDict {
    var source: Option<Path>
    var config: Option<seq<Path>>
    var modules: ModuleDict?

    constructor (source: Option<Path>, config: Option<seq<Path>>, modules: ModuleDict?)
      ensures this.source == source && this.config == config && this.modules == modules
    {
      this.source, this.config, this.modules := source, config, modules;
    }

    ghost function View(): Linux
      reads this, modules
    {
      Linux(source, config, if modules == null then None else Some(modules.items))
    }

    // Both groups exist: handles each suboption, then drops the null modules.
    method MergeFrom(base: LinuxDict) returns (ok: bool)
      requires this != base && (modules == null || modules != base.modules)
      modifies this, modules
      ensures Inherit(Some(old(View())), Some(old(base.View()))) == if ok then Ok(Some(View())) else Err
      ensures base.View() == old(base.View())
      ensures modules == null || modules == old(modules) || fresh(modules)
    {
      if base.config.Some? && config.Some? {
        config := Some(base.config.value + config.value);
      }
      if base.modules != null && modules != null {
        modules := new ModuleDict(base.modules.items + modules.items);
      }
      if source.None? {
        source := base.source;
      }
      if config.None? {
        config := base.config;
      }
      if modules == null && base.modules != null {
        modules := new ModuleDict(base.modules.items);
      }
      if modules == null {
        return false;
      }
      modules.DropNulls();
      return true;
    }
  }

  // A configuration as far as its `linux` group is concerned.
  class Holder {
    var linux: LinuxDict?

    ghost function View(): Option<Linux>
      reads this, linux, if linux != null then {linux.modules} else {}
    {
      if linux == null then None else Some(linux.View())
    }

    ghost function Footprint(): set<object?>
      reads this, linux
    {
      {this, linux} + (if linux != null then {linux.modules} else {}) - {null}
    }

    /** inheritLinuxOpts: finishes this group in place.  The base keeps its group, and the two
        still share no dictionary, so nothing done to this group later can reach the base. */
    method InheritFrom(base: Holder) returns (ok: bool)
      requires Footprint() !! base.Footprint()
      modifies Footprint()
      ensures Inherit(old(View()), old(base.View())) == if ok then Ok(View()) else Err
      ensures base.View() == old(base.View()) && base.Footprint() == old(base.Footprint())
      ensures Footprint() !! base.Footprint()
    {
      if linux == null {
        if base.linux != null {
          var mods: ModuleDict? := null;
          if base.linux.modules != null {
            mods := new ModuleDict(base.linux.modules.items);
          }
          linux := new LinuxDict(base.linux.source, base.linux.config, mods);
        }
        return true;
      }
      if base.linux == null {
        return true;
      }
      assert linux in Footprint() && base.linux in base.Footprint();
      assert linux.modules != null ==> linux.modules in Footprint();
      assert base.linux.modules != null ==> base.linux.modules in base.Footprint();
      ok := linux.MergeFrom(base.linux);
    }
  }
}
