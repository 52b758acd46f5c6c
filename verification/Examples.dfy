/** Small workloads, for lemmas that exhibit an input. */
module Examples {
  import opened Common
  import opened LinuxOpts
  import opened Config

  const NOTHING := Cfg("", None, false, "", None, None, None, None, None, None, [], None, None, None, None, None, None,
                       None, None, false, false, None, map[])

  // A distribution without an image.
  const BARE := NOTHING.(name := "d", isDistro := true)

  // A workload without options of its own.
  function Plain(name: string, base: string): Cfg { NOTHING.(name := name, base := Some(base)) }

  // A Linux workload that adds a kernel fragment.
  function WithFragment(name: string, base: string, fragment: string): Cfg {
    Plain(name, base).(linux := Some(Linux(Some("linux"), Some([fragment]), Some(map[]))),
                       firmware := Some(Firmware(Some("opensbi"), None, None)))
  }

  // What matters of such a workload when it is finished.
  predicate Imageless(c: Cfg, name: string) {
    && !c.isDistro && c.name == name && c.outDir == "" && |name| == 1
    && c.img.None? && c.postBin.None? && c.guestInit.None? && !c.nodisk
    && c.bin == Some(BinPath(c)) && c.dwarf == Some(DwarfPath(c))
    && c.firmware.Some? && c.firmware.value.opensbiSrc.Some? && c.firmware.value.source == c.firmware.value.opensbiSrc
    && c.linux.Some? && c.linux.value.source == Some("linux") && c.linux.value.config.Some? && c.linux.value.modules == Some(map[])
    && (c.hostInit.Some? ==> c.hostInit == Some("h"))
  }

  /** Finishing one that adds a fragment: its kernel differs from its base's, so it does not copy the
      binary. */
  lemma Derive(raw: Cfg, b: Cfg, fragment: string) returns (c: Cfg)
    requires |raw.name| == 1 && raw.base.Some?
    requires raw == WithFragment(raw.name, raw.base.value, fragment).(hostInit := raw.hostInit)
    requires raw.hostInit.Some? ==> raw.hostInit == Some("h")
    requires b == BARE || Imageless(b, b.name)
    ensures Derived(c, b) && Imageless(c, raw.name) && c.hostInit == raw.hostInit && c.base == raw.base && !c.useParentBin
    ensures Fragments(c.linux) == Fragments(b.linux) + [fragment]
  {
    FragmentAdded(raw.linux.value, b.linux);
    FirmwareKept(raw.firmware, b.firmware);
    assert ApplyBase(raw, b).Ok?;
    c := ApplyBase(raw, b).value;
    ApplyBaseOutputs(raw, b);
    ApplyBaseBinary(raw, b);
    assert c.outDir == "" && c.hostInit == raw.hostInit && c.postBin.None? && c.guestInit.None? && !c.nodisk;
    assert c.img.None?;
  }

  lemma FragmentAdded(own: Linux, base: Option<Linux>)
    requires own.source == Some("linux") && own.modules == Some(map[]) && own.config.Some? && own.config.value != []
    requires base.Some? ==> base.value.config.Some? && base.value.modules == Some(map[])
    ensures Inherit(Some(own), base).Ok? && Inherit(Some(own), base).value != base
    ensures var l := Inherit(Some(own), base).value;
            && l.Some? && l.value.source == Some("linux") && l.value.config.Some? && l.value.modules == Some(map[])
            && Fragments(l) == Fragments(base) + own.config.value
  {
    if base.Some? {
      assert |base.value.config.value + own.config.value| > |base.value.config.value|;
    }
  }

  lemma FirmwareKept(own: Option<Firmware>, base: Option<Firmware>)
    requires own == Some(Firmware(Some("opensbi"), None, None))
    ensures InheritFirmware(own, base).Ok? && InheritFirmware(own, base).value.Some?
    ensures var f := InheritFirmware(own, base).value.value; f.opensbiSrc.Some? && f.source == f.opensbiSrc
  {
  }

  /** Finishing one without options of its own: it copies the binary of its base. */
  lemma DeriveCopy(raw: Cfg, b: Cfg) returns (c: Cfg)
    requires |raw.name| == 1 && raw.base.Some? && raw == Plain(raw.name, raw.base.value) && Imageless(b, b.name)
    ensures Derived(c, b) && Imageless(c, raw.name) && c.base == raw.base && c.useParentBin
    ensures c.linux == b.linux && c.firmware == b.firmware && c.hostInit.None?
  {
    assert ApplyBase(raw, b).Ok?;
    c := ApplyBase(raw, b).value;
    ApplyBaseOutputs(raw, b);
    ApplyBaseBinary(raw, b);
    assert c.outDir == "" && c.hostInit.None? && c.postBin.None? && c.guestInit.None? && !c.nodisk && c.img.None?;
  }
}
