/** The two modules of the packaged manifest, with one setting each: a manifest the loader accepts. */
module ExampleManifest {
  import opened Common
  import opened Json
  import opened SysctlText
  import opened ProductionProtocol
  import opened SysctlManifests
  import opened ManifestLoader
  import opened ManifestFacts
  import Utf8

  const SYSRQ := "kernel" + "." + "sysrq"
  const FORWARDING := "net.ipv4" + "." + "ip_forward"

  const KERNEL := SysctlModule("kernel" + "_hardening", DropIn("99-lsmf-" + "kernel"), [SysctlSetting(SYSRQ, "0")])
  const NETWORK := SysctlModule("network" + "_hardening", DropIn("99-lsmf-" + "network"), [SysctlSetting(FORWARDING, "0")])
  const BOTH := [KERNEL.id, NETWORK.id]
  const EXAMPLE := SysctlManifest(BOTH, [KERNEL.id], [BOTH], [KERNEL, NETWORK], "digest")

  function DropIn(stem: string): string {
    DIRECTORY + "/" + (stem + ".conf")
  }

  lemma {:induction false} AsciiSize(s: string)
    requires forall i :: 0 <= i < |s| ==> s[i] < '\U{80}'
    ensures |Utf8.Encode(s)| == |s|
    decreases |s|
  {
    if s != "" {
      AsciiSize(s[1..]);
    }
  }

  predicate IsPlain(s: string) {
    s != "" && forall i :: 0 <= i < |s| ==> '\0' < s[i] < '\U{80}' && s[i] != '/'
  }

  lemma {:induction false} PartsBelow(directory: string, name: string)
    requires '/' !in name && name !in {"", "."}
    ensures PathParts(directory + "/" + name) == PathParts(directory) + [name]
  {
    assert directory + "/" + name == directory + ['/'] + name;
    SplitConcat(directory, name, '/');
    SplitWithout(name, '/');
    ComponentsConcat(SplitOn(directory, '/'), [name]);
    OneComponent(name);
  }

  lemma {:induction false} TwoParts(top: string, sub: string, path: string)
    requires '/' !in top && '/' !in sub && top !in {"", "."} && sub !in {"", "."} && path == top + "/" + sub
    ensures PathParts(path) == [top, sub]
  {
    SplitWithout(top, '/');
    OneComponent(top);
    PartsBelow(top, sub);
  }

  lemma {:induction false} DirectoryParts()
    ensures PathParts(DIRECTORY) == ["etc", "sysctl.d"]
  {
    TwoParts("etc", "sysctl.d", DIRECTORY);
  }

  lemma {:induction false} DropInParts(stem: string)
    requires IsPlain(stem)
    ensures PathParts(DropIn(stem)) == ["etc", "sysctl.d"] + [stem + ".conf"]
  {
    DirectoryParts();
    PartsBelow(DIRECTORY, stem + ".conf");
  }

  lemma {:induction false} TargetWithParts(s: string, directory: string, name: string, parts: seq<string>)
    requires s == directory + name && directory == "etc/sysctl.d/"
    requires forall i :: 0 <= i < |name| ==> '\0' < name[i] < '\U{80}'
    requires 5 < |name| <= 205 && name[|name| - 5..] == ".conf"
    requires PathParts(s) == parts == ["etc", "sysctl.d"] + [name]
    ensures IsTarget(s)
  {
    AsciiSize(s);
    assert parts[2] == name;
    assert ".." !in parts;
  }

  /** A drop-in with a plain name is an accepted target. */
  lemma {:induction false} PlainTarget(stem: string)
    requires IsPlain(stem) && |stem| <= 200
    ensures IsTarget(DropIn(stem))
  {
    DropInParts(stem);
    TargetWithParts(DropIn(stem), DIRECTORY + "/", stem + ".conf", ["etc", "sysctl.d"] + [stem + ".conf"]);
  }

  lemma {:induction false} LongerKey(front: string, back: string)
    requires front != "" && IsLower(front[0]) && back != "" && AllIdentifierChars(back)
    requires IsSysctlKey(front) || AllIdentifierChars(front)
    ensures IsSysctlKey(front + "." + back)
  {
    var s := front + "." + back;
    assert s[|front|] == '.';
    forall i | 0 <= i < |s| && s[i] == '.' ensures 0 < i < |s| - 1 && s[i + 1] != '.' {
      assert i <= |front|;
    }
  }

  lemma {:induction false} LongerId(front: string, back: string)
    requires IsModuleId(front) && AllIdentifierChars(back) && |front| + |back| <= 64
    ensures IsModuleId(front + back)
  {
  }

  lemma {:induction false} KernelIsValid()
    ensures ValidModule(KERNEL)
  {
    LongerId("kernel", "_hardening");
    PlainTarget("99-lsmf-" + "kernel");
    LongerKey("kernel", "sysrq");
    DifferentLengths(SYSRQ, 12);
    assert ValidSetting(KERNEL.settings[0]);
  }

  lemma {:induction false} ForwardingIsKey()
    ensures IsSysctlKey(FORWARDING)
  {
    LongerKey("net", "ipv4");
    assert "net" + "." + "ipv4" == "net.ipv4";
    LongerKey("net.ipv4", "ip_forward");
  }

  lemma {:induction false} NetworkIsValid()
    ensures ValidModule(NETWORK)
  {
    LongerId("network", "_hardening");
    PlainTarget("99-lsmf-" + "network");
    ForwardingIsKey();
    DifferentLengths(FORWARDING, 19);
    assert ValidSetting(NETWORK.settings[0]);
  }

  lemma {:induction false} DifferentLengths(key: string, n: nat)
    requires |key| == n <= 25
    ensures key !in NON_ROLLBACKABLE_KEYS
  {
    assert |"kernel.kexec_load_disabled"| == 26 && |"kernel.unprivileged_bpf_disabled"| == 32;
  }

  lemma {:induction false} ExampleLists()
    ensures KERNEL.id != NETWORK.id && KERNEL.target != NETWORK.target && SYSRQ != FORWARDING
    ensures ModuleIds(EXAMPLE.modules) == BOTH
    ensures TargetList(EXAMPLE.modules) == [KERNEL.target, NETWORK.target]
    ensures KeyList(EXAMPLE.modules) == [SYSRQ, FORWARDING]
  {
    assert |KERNEL.id| == 16 && |NETWORK.id| == 17;
    assert |KERNEL.target| == 32 && |NETWORK.target| == 33;
    assert |SYSRQ| == 12 && |FORWARDING| == 19;
    assert SettingKeys(KERNEL.settings) == [SYSRQ] && SettingKeys(NETWORK.settings) == [FORWARDING];
    assert [NETWORK][1..] == [] && KeyList([NETWORK]) == [FORWARDING];
    assert EXAMPLE.modules[1..] == [NETWORK];
    assert KeyList(EXAMPLE.modules) == [SYSRQ] + [FORWARDING];
  }

  /** The loader accepts the manifest. */
  lemma {:induction false} ExampleIsValid()
    ensures ValidManifest(EXAMPLE)
  {
    KernelIsValid();
    NetworkIsValid();
    ExampleLists();
    assert BOTH[0] in BOTH && BOTH[1] in BOTH;
    assert Position(BOTH, KERNEL.id) == 0;
    assert BOTH[1..] == [NETWORK.id] && Position([NETWORK.id], NETWORK.id) == 0;
    assert Position(BOTH, NETWORK.id) == 1;
    assert InOrder(BOTH, BOTH);
  }
}
