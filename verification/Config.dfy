/** Workload configurations and how one is finished from its base (wlutil/config.py).

    Only the options that later code reads are kept apart; every other heritable option is in
    `traits`.  Options that `Config.__init__` always sets ('out-dir', 'cpus', ...) are never
    inherited and appear here only if something reads them. */
module Config {
  import opened Common
  import opened LinuxOpts

  datatype Firmware = Firmware(opensbiSrc: Option<Path>, buildArgs: Option<seq<string>>, source: Option<Path>)

  // A script to run in the target, or a command (then `path` is None).
  datatype RunSpec = RunSpec(path: Option<Path>, command: Option<string>)

  datatype Cfg = Cfg(
    name: string,
    base: Option<string>,
    isDistro: bool,
    outDir: Path,
    img: Option<Path>,
    bin: Option<Path>,
    dwarf: Option<Path>,
    baseImg: Option<Path>,
    baseBin: Option<Path>,
    baseDwarf: Option<Path>,
    baseDeps: seq<string>,
    hostInit: Option<string>,
    postBin: Option<string>,
    guestInit: Option<Path>,
    overlay: Option<Path>,
    files: Option<seq<Path>>,
    runSpec: Option<RunSpec>,
    linux: Option<Linux>,
    firmware: Option<Firmware>,
    nodisk: bool,
    useParentBin: bool,
    launch: Option<bool>,
    traits: map<string, string>)

  const NULL_RUN := RunSpec(Some("null_run.sh"), None)

  /** inheritFirmwareOpts; the source raises KeyError if no 'opensbi-src' is left. */
  function InheritFirmware(own: Option<Firmware>, base: Option<Firmware>): Result<Option<Firmware>> {
    var merged :=
      if own.None? then base
      else if base.None? then own
      else
        var o, b := own.value, base.value;
        Some(Firmware(OrElse(o.opensbiSrc, b.opensbiSrc),
                      if o.buildArgs.Some? && b.buildArgs.Some? then Some(b.buildArgs.value + o.buildArgs.value)
                      else OrElse(o.buildArgs, b.buildArgs),
                      OrElse(o.source, b.source)));
    if merged.None? then Ok(None)
    else if merged.value.opensbiSrc.None? then Err
    else Ok(Some(merged.value.(source := merged.value.opensbiSrc)))
  }

  // The options that are simply taken over unless the workload sets them itself.
  function InheritPlain(c: Cfg, b: Cfg): Cfg {
    c.(img := OrElse(c.img, b.img),
       bin := OrElse(c.bin, b.bin),
       files := OrElse(c.files, b.files),
       runSpec := OrElse(c.runSpec, b.runSpec),
       launch := OrElse(c.launch, b.launch),
       traits := b.traits + c.traits)
  }

  // What a workload must wait for in its base: its image, and its host-init script.
  function BaseDeps(b: Cfg): seq<string> {
    (if b.img.Some? then [b.img.value] else []) + (if b.hostInit.Some? then [b.hostInit.value] else [])
  }

  // What a workload records of its base's outputs.
  function InheritOutputs(c: Cfg, b: Cfg): Cfg {
    c.(img := if b.img.Some? then Some(c.outDir + "/" + c.name + ".img") else c.img,
       baseImg := OrElse(b.img, c.baseImg),
       baseBin := OrElse(b.bin, c.baseBin),
       baseDwarf := OrElse(b.dwarf, c.baseDwarf),
       baseDeps := c.baseDeps + BaseDeps(b))
  }

  /** Would the child build exactly the binary its parent has?  Two host-init scripts are never
      equal, because the source compares them by identity. */
  predicate SameBinary(c: Cfg, b: Cfg) {
    && (c.firmware.None? || c.firmware == b.firmware)
    && c.linux == b.linux
    && c.hostInit.None?
  }

  function BinPath(c: Cfg): Path { c.outDir + "/" + c.name + "-bin" }
  function DwarfPath(c: Cfg): Path { c.outDir + "/" + c.name + "-bin-dwarf" }

  function ChooseBinary(c: Cfg, b: Cfg): Cfg {
    if c.linux.Some? then
      c.(bin := Some(BinPath(c)),
         dwarf := Some(DwarfPath(c)),
         useParentBin := SameBinary(c, b))
    else c.(useParentBin := false)
  }

  function WithDefaults(c: Cfg): Cfg {
    c.(launch := OrElse(c.launch, Some(true)), runSpec := OrElse(c.runSpec, Some(NULL_RUN)))
  }

  /** applyBase: finishes configuration `c` from its finished base `b`. */
  function ApplyBase(c: Cfg, b: Cfg): Result<Cfg> {
    match (Inherit(c.linux, b.linux), InheritFirmware(c.firmware, b.firmware))
    case (Ok(linux), Ok(firmware)) =>
      var c1 := InheritOutputs(InheritPlain(c, b), b).(linux := linux, firmware := firmware);
      Ok(WithDefaults(ChooseBinary(c1, b)))
    case _ => Err
  }

  // A configuration as `Config.__init__` leaves it.
  predicate Raw(c: Cfg) {
    !c.isDistro && c.baseDeps == [] && c.baseImg.None? && c.baseBin.None? && c.baseDwarf.None? && c.dwarf.None?
  }

  // The configuration of a distribution, which sets neither a kernel nor scripts.
  predicate Distro(c: Cfg) {
    && c.isDistro && c.base.None? && c.linux.None? && c.bin.None? && c.dwarf.None? && c.baseDeps == []
    && c.hostInit.None? && c.postBin.None? && c.guestInit.None? && !c.useParentBin
  }

  ghost predicate Derived(c: Cfg, b: Cfg) {
    exists raw :: Raw(raw) && ApplyBase(raw, b) == Ok(c)
  }

  // The finished configuration, option by option.
  lemma ApplyBaseOutputs(c: Cfg, b: Cfg)
    requires Raw(c) && ApplyBase(c, b).Ok?
    ensures var r := ApplyBase(c, b).value;
            && !r.isDistro && r.base == c.base && r.name == c.name && r.outDir == c.outDir
            && r.baseDeps == BaseDeps(b)
            && r.baseImg == b.img && r.baseBin == b.bin && r.baseDwarf == b.dwarf
            && r.img == (if b.img.Some? then Some(c.outDir + "/" + c.name + ".img") else c.img)
            && (forall n :: n in r.baseDeps <==> b.img == Some(n) || b.hostInit == Some(n))
  {
    var linux, firmware := Inherit(c.linux, b.linux).value, InheritFirmware(c.firmware, b.firmware).value;
    var c1 := InheritOutputs(InheritPlain(c, b), b).(linux := linux, firmware := firmware);
    assert c1.baseDeps == [] + BaseDeps(b) == BaseDeps(b);
    assert c1.baseImg == b.img && c1.baseBin == b.bin && c1.baseDwarf == b.dwarf && !c1.isDistro;
    var c2 := ChooseBinary(c1, b);
    assert c2.baseDeps == c1.baseDeps && c2.baseImg == c1.baseImg && c2.baseBin == c1.baseBin && c2.img == c1.img;
    assert ApplyBase(c, b) == Ok(WithDefaults(c2));
  }

  lemma ApplyBaseBinary(c: Cfg, b: Cfg)
    requires Raw(c) && ApplyBase(c, b).Ok?
    ensures var r := ApplyBase(c, b).value;
            && Ok(r.linux) == Inherit(c.linux, b.linux) && Ok(r.firmware) == InheritFirmware(c.firmware, b.firmware)
            && (r.linux.Some? ==> r.bin == Some(BinPath(r)) && r.dwarf == Some(DwarfPath(r)))
            && (r.linux.None? ==> r.dwarf.None?)
            && (r.useParentBin <==> r.linux.Some? && r.linux == b.linux && r.firmware == b.firmware && c.hostInit.None?)
  {
    NothingToInherit(c, b);
    var linux, firmware := Inherit(c.linux, b.linux).value, InheritFirmware(c.firmware, b.firmware).value;
    var c1 := InheritOutputs(InheritPlain(c, b), b).(linux := linux, firmware := firmware);
    assert c1.dwarf.None? && c1.linux == linux && c1.firmware == firmware;
    var c2 := ChooseBinary(c1, b);
    assert c2.useParentBin <==> c2.linux.Some? && SameBinary(c2, b);
    assert ApplyBase(c, b) == Ok(WithDefaults(c2));
  }

  /** What building relies on: the base's outputs are recorded as dependencies, Linux workloads
      have a binary of their own, and one that copies its parent's binary has its parent's kernel
      and firmware. */
  lemma DerivedFacts(c: Cfg, b: Cfg)
    requires Derived(c, b)
    ensures !c.isDistro
    ensures c.baseDeps == BaseDeps(b)
    ensures c.baseImg == b.img && c.baseBin == b.bin && c.baseDwarf == b.dwarf
    ensures c.linux.Some? <==> c.dwarf.Some?
    ensures c.linux.Some? ==> c.bin == Some(BinPath(c)) && c.dwarf == Some(DwarfPath(c))
    ensures c.linux.None? ==> b.linux.None?
    ensures c.useParentBin ==> c.linux.Some? && c.linux == b.linux && c.firmware == b.firmware
    ensures b.img.Some? ==> c.img.Some?
  {
    var raw :| Raw(raw) && ApplyBase(raw, b) == Ok(c);
    ApplyBaseOutputs(raw, b);
    ApplyBaseBinary(raw, b);
    NothingToInherit(raw, b);
  }

  // A group that is missing in the end was missing in the base as well.
  lemma NothingToInherit(c: Cfg, b: Cfg)
    ensures Inherit(c.linux, b.linux) == Ok(None) ==> b.linux.None?
    ensures InheritFirmware(c.firmware, b.firmware) == Ok(None) ==> b.firmware.None?
  {
  }

  // ---------------------------------------------------------------- along a chain of bases

  /** The finished configuration of the last of `raws`, each based on the one before and the first on
      the finished configuration `d`. */
  function Finish(d: Cfg, raws: seq<Cfg>): Result<Cfg> {
    if raws == [] then Ok(d)
    else
      var n := |raws| - 1;
      match Finish(d, raws[..n])
      case Err => Err
      case Ok(b) => ApplyBase(raws[n], b)
  }

  // What the most derived of them that sets an option sets it to.
  function LastSet<T>(d: Cfg, raws: seq<Cfg>, option: Cfg -> Option<T>): Option<T> {
    if raws == [] then option(d)
    else
      var n := |raws| - 1;
      if option(raws[n]).Some? then option(raws[n]) else LastSet(d, raws[..n], option)
  }

  function LinuxChain(raws: seq<Cfg>): seq<Option<Linux>> {
    if raws == [] then [] else LinuxChain(raws[..|raws| - 1]) + [raws[|raws| - 1].linux]
  }

  lemma ApplyBaseGroups(c: Cfg, b: Cfg)
    requires ApplyBase(c, b).Ok?
    ensures var r := ApplyBase(c, b).value;
            Ok(r.linux) == Inherit(c.linux, b.linux) && Ok(r.firmware) == InheritFirmware(c.firmware, b.firmware)
  {
  }

  /** Over a distribution the `linux` group is what resolving the chain of groups gives. */
  lemma {:induction false} LinuxFinish(d: Cfg, raws: seq<Cfg>)
    requires d.linux.None? && Finish(d, raws).Ok?
    ensures Resolve(LinuxChain(raws)) == Ok(Finish(d, raws).value.linux)
  {
    if raws != [] {
      var n := |raws| - 1;
      LinuxFinish(d, raws[..n]);
      ApplyBaseGroups(raws[n], Finish(d, raws[..n]).value);
      assert LinuxChain(raws)[..|LinuxChain(raws)| - 1] == LinuxChain(raws[..n]);
    }
  }

  function BuildArgs(c: Cfg): seq<string> {
    if c.firmware.Some? && c.firmware.value.buildArgs.Some? then c.firmware.value.buildArgs.value else []
  }

  function OpensbiSrc(c: Cfg): Option<Path> {
    if c.firmware.Some? then c.firmware.value.opensbiSrc else None
  }

  function ArgsAlong(d: Cfg, raws: seq<Cfg>): seq<string> {
    if raws == [] then BuildArgs(d) else ArgsAlong(d, raws[..|raws| - 1]) + BuildArgs(raws[|raws| - 1])
  }

  lemma FirmwareStep(c: Cfg, b: Cfg, r: Cfg)
    requires Ok(r.firmware) == InheritFirmware(c.firmware, b.firmware)
    ensures BuildArgs(r) == BuildArgs(b) + BuildArgs(c) && OpensbiSrc(r) == OrElse(OpensbiSrc(c), OpensbiSrc(b))
    ensures r.firmware.Some? ==> r.firmware.value.source == OpensbiSrc(r) && OpensbiSrc(r).Some?
  {
  }

  /** Firmware build arguments are the concatenation along the chain, root first; the firmware's source
      is the most derived one. */
  lemma {:induction false} FirmwareFinish(d: Cfg, raws: seq<Cfg>)
    requires Finish(d, raws).Ok?
    ensures var r := Finish(d, raws).value;
            && BuildArgs(r) == ArgsAlong(d, raws)
            && OpensbiSrc(r) == LastSet(d, raws, OpensbiSrc)
            && (raws != [] && r.firmware.Some? ==> r.firmware.value.source == OpensbiSrc(r) && OpensbiSrc(r).Some?)
  {
    if raws != [] {
      var n := |raws| - 1;
      FirmwareFinish(d, raws[..n]);
      var b := Finish(d, raws[..n]).value;
      ApplyBaseGroups(raws[n], b);
      FirmwareStep(raws[n], b, Finish(d, raws).value);
    }
  }

  function Trait(c: Cfg, x: string): Option<string> {
    if x in c.traits then Some(c.traits[x]) else None
  }

  lemma ApplyBasePlain(c: Cfg, b: Cfg, x: string)
    requires ApplyBase(c, b).Ok?
    ensures var r := ApplyBase(c, b).value;
            && r.files == OrElse(c.files, b.files) && Trait(r, x) == OrElse(Trait(c, x), Trait(b, x))
            && r.launch == OrElse(OrElse(c.launch, b.launch), Some(true))
            && r.runSpec == OrElse(OrElse(c.runSpec, b.runSpec), Some(NULL_RUN))
            && (r.linux.None? ==> r.bin == OrElse(c.bin, b.bin))
  {
    var linux, firmware := Inherit(c.linux, b.linux).value, InheritFirmware(c.firmware, b.firmware).value;
    var c0 := InheritPlain(c, b);
    var c1 := InheritOutputs(c0, b).(linux := linux, firmware := firmware);
    assert c1.files == c0.files && c1.traits == c0.traits && c1.launch == c0.launch && c1.runSpec == c0.runSpec && c1.bin == c0.bin;
    var c2 := ChooseBinary(c1, b);
    assert c2.files == c1.files && c2.traits == c1.traits && c2.launch == c1.launch && c2.runSpec == c1.runSpec && c2.linux == linux;
    assert ApplyBase(c, b) == Ok(WithDefaults(c2));
  }

  /** Every other heritable option has the value that the most derived workload gives it, launching and
      the run script with their defaults. */
  lemma {:induction false} PlainFinish(d: Cfg, raws: seq<Cfg>, x: string)
    requires Finish(d, raws).Ok?
    ensures var r := Finish(d, raws).value;
            && r.files == LastSet(d, raws, (c: Cfg) => c.files)
            && Trait(r, x) == LastSet(d, raws, (c: Cfg) => Trait(c, x))
            && (raws != [] ==> r.launch == OrElse(LastSet(d, raws, (c: Cfg) => c.launch), Some(true)))
            && (raws != [] ==> r.runSpec == OrElse(LastSet(d, raws, (c: Cfg) => c.runSpec), Some(NULL_RUN)))
            && (r.linux.None? ==> r.bin == LastSet(d, raws, (c: Cfg) => c.bin))
  {
    if raws != [] {
      var n := |raws| - 1;
      PlainFinish(d, raws[..n], x);
      ApplyBasePlain(raws[n], Finish(d, raws[..n]).value, x);
      NothingToInherit(raws[n], Finish(d, raws[..n]).value);
      ApplyBaseGroups(raws[n], Finish(d, raws[..n]).value);
    }
  }
}
