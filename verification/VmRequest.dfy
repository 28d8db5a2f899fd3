/** The `create vm` request: its decoding from arguments, and back. */
module VmRequest {
  import opened Wrappers
  import opened Numbers
  import opened Arguments

  datatype VmKey =
    | Disk | Os | Version | Firmware | Arch | CloudInit | SshKey | Iso | VncPort | VncBind | VncWidth | VncHeight
    | Tpm | Cpus | Memory | Start | Attach

  function VmText(k: VmKey): string {
    match k
    case Disk => "--disk"
    case Os => "--os"
    case Version => "--version"
    case Firmware => "--firmware"
    case Arch => "--arch"
    case CloudInit => "--cloud-init"
    case SshKey => "--ssh-key"
    case Iso => "--iso"
    case VncPort => "--vnc-port"
    case VncBind => "--vnc-bind"
    case VncWidth => "--vnc-width"
    case VncHeight => "--vnc-height"
    case Tpm => "--tpm"
    case Cpus => "--cpus"
    case Memory => "--memory"
    case Start => "--start"
    case Attach => "--attach"
  }

  function VmKeyOf(text: string): Option<VmKey> {
    if text == "--disk" then Some(Disk)
    else if text == "--os" then Some(Os)
    else if text == "--version" then Some(Version)
    else if text == "--firmware" then Some(Firmware)
    else if text == "--arch" then Some(Arch)
    else if text == "--cloud-init" then Some(CloudInit)
    else if text == "--ssh-key" then Some(SshKey)
    else if text == "--iso" then Some(Iso)
    else if text == "--vnc-port" then Some(VncPort)
    else if text == "--vnc-bind" then Some(VncBind)
    else if text == "--vnc-width" then Some(VncWidth)
    else if text == "--vnc-height" then Some(VncHeight)
    else if text == "--tpm" then Some(Tpm)
    else if text == "--cpus" then Some(Cpus)
    else if text == "--memory" then Some(Memory)
    else if text == "--start" then Some(Start)
    else if text == "--attach" then Some(Attach)
    else None
  }

  lemma VmTexts(k: VmKey)
    ensures VmKeyOf(VmText(k)) == Some(k) && StartsWith(VmText(k), "--")
  {
  }

  datatype VmSpec = VmSpec(
    name: string, disk: string, os: string, version: Option<string>, firmware: Option<string>, arch: Option<string>,
    cloudInit: bool, sshKey: Option<string>, iso: Option<string>,
    vncPort: Option<nat>, vncBind: Option<string>, vncWidth: Option<nat>, vncHeight: Option<nat>,
    tpm: bool, cpus: Option<nat>, memory: Option<string>, start: bool, attach: bool)

  // Everything the decoder looks up.
  datatype VmLookups = VmLookups(
    disk: Option<Option<string>>,
    os: Option<Option<string>>,
    version: Option<Option<string>>,
    firmware: Option<Option<string>>,
    arch: Option<Option<string>>,
    sshKey: Option<Option<string>>,
    iso: Option<Option<string>>,
    vncPort: Option<Option<string>>,
    vncBind: Option<Option<string>>,
    vncWidth: Option<Option<string>>,
    vncHeight: Option<Option<string>>,
    cpus: Option<Option<string>>,
    memory: Option<Option<string>>,
    cloudInit: bool, tpm: bool, attach: bool, hasArch: bool, hasSshKey: bool, hasIso: bool)

  function LookUpVm(args: seq<string>): VmLookups {
    VmLookups(
      OptionalOption(args, VmText(Disk)),
      OptionalOption(args, VmText(Os)),
      OptionalOption(args, VmText(Version)),
      OptionalOption(args, VmText(Firmware)),
      OptionalOption(args, VmText(Arch)),
      OptionalOption(args, VmText(SshKey)),
      OptionalOption(args, VmText(Iso)),
      OptionalOption(args, VmText(VncPort)),
      OptionalOption(args, VmText(VncBind)),
      OptionalOption(args, VmText(VncWidth)),
      OptionalOption(args, VmText(VncHeight)),
      OptionalOption(args, VmText(Cpus)),
      OptionalOption(args, VmText(Memory)),
      HasFlag(args, VmText(CloudInit)),
      HasFlag(args, VmText(Tpm)),
      HasFlag(args, VmText(Attach)),
      HasFlag(args, VmText(Arch)),
      HasFlag(args, VmText(SshKey)),
      HasFlag(args, VmText(Iso)))
  }

  // The vm branch of `encode_create`.
  function EncodeVm(args: seq<string>): Option<VmSpec> {
    var name :- Arg(args, 1);
    AssembleVm(name, LookUpVm(args))
  }

  function AssembleVm(name: string, l: VmLookups): Option<VmSpec> {
    if (l.cloudInit && l.hasIso) || (l.hasArch && !l.cloudInit) || (l.hasSshKey && !l.cloudInit) then None
    else if l.attach && !l.cloudInit then None
    else
      var diskOption :- l.disk;
      var disk :- diskOption;
      var osOption :- l.os;
      var os :- osOption;
      var version :- l.version;
      var firmwareOption :- l.firmware;
      var firmware := firmwareOption.GetOr("uefi");
      if firmware != "uefi" && firmware != "bios" then None
      else
        var arch :- l.arch;
        var sshKey :- l.sshKey;
        var iso :- l.iso;
        var vncPort :- NumberOption(l.vncPort);
        var vncBind :- l.vncBind;
        var vncWidth :- NumberOption(l.vncWidth);
        var vncHeight :- NumberOption(l.vncHeight);
        var cpus :- NumberOption(l.cpus);
        var memory :- l.memory;
        Some(VmSpec(name, disk, os, version, Some(firmware), arch, l.cloudInit, sshKey, iso,
                    vncPort, vncBind, vncWidth, vncHeight, l.tpm, cpus, memory, l.cloudInit, l.attach))
  }

  // The item of each option and its place, after the two words.
  function ItemFor(v: VmSpec, k: VmKey): Item {
    match k
    case Disk => Opt(VmText(Disk), Some(v.disk))
    case Os => Opt(VmText(Os), Some(v.os))
    case Version => Opt(VmText(Version), v.version)
    case Firmware => Opt(VmText(Firmware), v.firmware)
    case Arch => Opt(VmText(Arch), v.arch)
    case CloudInit => Switch(VmText(CloudInit), v.cloudInit)
    case SshKey => Opt(VmText(SshKey), v.sshKey)
    case Iso => Opt(VmText(Iso), v.iso)
    case VncPort => Opt(VmText(VncPort), Printed(v.vncPort))
    case VncBind => Opt(VmText(VncBind), v.vncBind)
    case VncWidth => Opt(VmText(VncWidth), Printed(v.vncWidth))
    case VncHeight => Opt(VmText(VncHeight), Printed(v.vncHeight))
    case Tpm => Switch(VmText(Tpm), v.tpm)
    case Cpus => Opt(VmText(Cpus), Printed(v.cpus))
    case Memory => Opt(VmText(Memory), v.memory)
    case Start => Switch(VmText(Start), v.start)
    case Attach => Switch(VmText(Attach), v.attach)
  }

  function At(k: VmKey): (i: nat)
    ensures 2 <= i < 19
  {
    match k
    case Disk => 2
    case Os => 3
    case Version => 4
    case Firmware => 5
    case Arch => 6
    case CloudInit => 7
    case SshKey => 8
    case Iso => 9
    case VncPort => 10
    case VncBind => 11
    case VncWidth => 12
    case VncHeight => 13
    case Tpm => 14
    case Cpus => 15
    case Memory => 16
    case Start => 17
    case Attach => 18
  }

  function KeyAt(i: nat): (k: VmKey)
    requires 2 <= i < 19
    ensures At(k) == i
  {
    if i == 2 then Disk
    else if i == 3 then Os
    else if i == 4 then Version
    else if i == 5 then Firmware
    else if i == 6 then Arch
    else if i == 7 then CloudInit
    else if i == 8 then SshKey
    else if i == 9 then Iso
    else if i == 10 then VncPort
    else if i == 11 then VncBind
    else if i == 12 then VncWidth
    else if i == 13 then VncHeight
    else if i == 14 then Tpm
    else if i == 15 then Cpus
    else if i == 16 then Memory
    else if i == 17 then Start
    else Attach
  }

  // The vm branch of `request_to_args`, after the command: two words, then the options.
  function VmItems(v: VmSpec): seq<Item> {
    [Word("vm"), Word(v.name)] + seq(17, i requires 0 <= i < 17 => ItemFor(v, KeyAt(i + 2)))
  }

  ghost predicate AreVmItems(items: seq<Item>, v: VmSpec) {
    && |items| == 19 && items[0] == Word("vm") && items[1] == Word(v.name)
    && forall k :: items[At(k)] == ItemFor(v, k)
  }

  lemma SamePlace(i: VmKey, j: VmKey)
    requires At(i) == At(j)
    ensures i == j
  {
  }

  lemma VmItemsAre(v: VmSpec)
    ensures AreVmItems(VmItems(v), v)
  {
    forall k ensures VmItems(v)[At(k)] == ItemFor(v, k) {
      assert VmItems(v)[At(k)] == ItemFor(v, KeyAt(At(k)));
      SamePlace(k, KeyAt(At(k)));
    }
  }

  // What every accepted request satisfies.
  predicate VmAccepted(v: VmSpec) {
    && (v.firmware == Some("uefi") || v.firmware == Some("bios"))
    && !(v.cloudInit && v.iso.Some?)
    && ((v.arch.Some? || v.sshKey.Some? || v.attach) ==> v.cloudInit)
    && v.start == v.cloudInit
    && (v.vncPort.Some? ==> v.vncPort.value < U64) && (v.vncWidth.Some? ==> v.vncWidth.value < U64)
    && (v.vncHeight.Some? ==> v.vncHeight.value < U64) && (v.cpus.Some? ==> v.cpus.value < U64)
  }

  // Looking the options up in the specification's own arguments finds its values. Only
  // `--start` may go astray: the decoder never looks at it.
  ghost predicate VmUndisturbed(v: VmSpec) {
    forall k :: k != Start ==> Undisturbed(VmItems(v), At(k))
  }

  lemma VmIsAccepted(args: seq<string>, v: VmSpec)
    requires EncodeVm(args) == Some(v)
    ensures VmAccepted(v)
  {
    var l := LookUpVm(args);
    LookedUp(args, l);
    AssembledAccepted(args[1], l, v);
  }

  // A value is found only for an option that is there.
  ghost predicate PresenceFits(l: VmLookups) {
    && (l.arch.Some? && l.arch.value.Some? ==> l.hasArch)
    && (l.sshKey.Some? && l.sshKey.value.Some? ==> l.hasSshKey)
    && (l.iso.Some? && l.iso.value.Some? ==> l.hasIso)
  }

  lemma LookedUp(args: seq<string>, l: VmLookups)
    requires l == LookUpVm(args)
    ensures PresenceFits(l)
  {
  }

  lemma AssembledAccepted(name: string, l: VmLookups, v: VmSpec)
    requires PresenceFits(l) && AssembleVm(name, l) == Some(v)
    ensures VmAccepted(v)
  {
  }

  lemma ItemName(v: VmSpec, k: VmKey)
    ensures !ItemFor(v, k).Word? && ItemFor(v, k).name == VmText(k)
  {
  }

  lemma NamesDiffer(items: seq<Item>, v: VmSpec, i: VmKey, j: VmKey)
    requires AreVmItems(items, v) && i != j
    ensures !items[At(i)].Word? && !items[At(j)].Word? && items[At(i)].name != items[At(j)].name
  {
    assert items[At(i)] == ItemFor(v, i) && items[At(j)] == ItemFor(v, j);
    ItemName(v, i);
    ItemName(v, j);
    VmTexts(i);
    VmTexts(j);
  }

  lemma ItemsNamedOnce(items: seq<Item>, v: VmSpec, k: VmKey)
    requires AreVmItems(items, v)
    ensures NamedOnce(items, At(k)) && items[At(k)].name == VmText(k)
  {
    assert items[At(k)] == ItemFor(v, k);
    ItemName(v, k);
    OthersNamedDifferently(items, v, k);
  }

  lemma OthersNamedDifferently(items: seq<Item>, v: VmSpec, k: VmKey)
    requires AreVmItems(items, v) && !items[At(k)].Word?
    ensures NamedOnce(items, At(k))
  {
    forall j | 0 <= j < |items| && j != At(k)
      ensures !Named(items[j], items[At(k)].name)
    {
      if j >= 2 {
        NamesDiffer(items, v, KeyAt(j), k);
      }
    }
  }

  // Looking up the option `k` in the arguments finds what the item says.
  ghost predicate FoundItem(args: seq<string>, item: Item, k: VmKey) {
    match item
    case Word(_) => false
    case Opt(_, value) => OptionalOption(args, VmText(k)) == Some(value)
    case Switch(_, on) => HasFlag(args, VmText(k)) == on
  }

  lemma FoundIff(items: seq<Item>, v: VmSpec, k: VmKey)
    requires AreVmItems(items, v)
    ensures FoundItem(Args(items), ItemFor(v, k), k) <==> Undisturbed(items, At(k))
  {
    ItemsNamedOnce(items, v, k);
    LookUpIff(items, At(k));
  }

  // The lookups that a specification's own arguments must yield.
  function VmLookupsOf(v: VmSpec): VmLookups {
    VmLookups(
      Some(Some(v.disk)),
      Some(Some(v.os)),
      Some(v.version),
      Some(v.firmware),
      Some(v.arch),
      Some(v.sshKey),
      Some(v.iso),
      Some(Printed(v.vncPort)),
      Some(v.vncBind),
      Some(Printed(v.vncWidth)),
      Some(Printed(v.vncHeight)),
      Some(Printed(v.cpus)),
      Some(v.memory),
      v.cloudInit, v.tpm, v.attach, v.arch.Some?, v.sshKey.Some?, v.iso.Some?)
  }

  ghost predicate Found(args: seq<string>, v: VmSpec, k: VmKey) {
    FoundItem(args, ItemFor(v, k), k)
  }

  lemma FoundValue(args: seq<string>, v: VmSpec, k: VmKey, value: Option<string>)
    requires Found(args, v, k) && ItemFor(v, k) == Opt(VmText(k), value)
    ensures OptionalOption(args, VmText(k)) == Some(value) && HasFlag(args, VmText(k)) == value.Some?
  {
  }

  // The options in three groups.
  ghost predicate OriginFound(args: seq<string>, v: VmSpec) {
    && OptionalOption(args, VmText(Disk)) == Some(Some(v.disk))
    && OptionalOption(args, VmText(Os)) == Some(Some(v.os))
    && OptionalOption(args, VmText(Version)) == Some(v.version)
    && OptionalOption(args, VmText(Firmware)) == Some(v.firmware)
  }

  ghost predicate SetupFound(args: seq<string>, v: VmSpec) {
    && OptionalOption(args, VmText(Arch)) == Some(v.arch) && HasFlag(args, VmText(Arch)) == v.arch.Some?
    && OptionalOption(args, VmText(SshKey)) == Some(v.sshKey) && HasFlag(args, VmText(SshKey)) == v.sshKey.Some?
    && OptionalOption(args, VmText(Iso)) == Some(v.iso) && HasFlag(args, VmText(Iso)) == v.iso.Some?
    && HasFlag(args, VmText(CloudInit)) == v.cloudInit
    && HasFlag(args, VmText(Tpm)) == v.tpm
    && HasFlag(args, VmText(Attach)) == v.attach
  }

  ghost predicate ScreenFound(args: seq<string>, v: VmSpec) {
    && OptionalOption(args, VmText(VncPort)) == Some(Printed(v.vncPort))
    && OptionalOption(args, VmText(VncBind)) == Some(v.vncBind)
    && OptionalOption(args, VmText(VncWidth)) == Some(Printed(v.vncWidth))
    && OptionalOption(args, VmText(VncHeight)) == Some(Printed(v.vncHeight))
    && OptionalOption(args, VmText(Cpus)) == Some(Printed(v.cpus))
    && OptionalOption(args, VmText(Memory)) == Some(v.memory)
  }

  lemma OriginFromItems(args: seq<string>, v: VmSpec)
    requires forall k :: k != Start ==> Found(args, v, k)
    ensures OriginFound(args, v)
  {
    FoundValue(args, v, Disk, Some(v.disk));
    FoundValue(args, v, Os, Some(v.os));
    FoundValue(args, v, Version, v.version);
    FoundValue(args, v, Firmware, v.firmware);
  }

  lemma SetupFromItems(args: seq<string>, v: VmSpec)
    requires forall k :: k != Start ==> Found(args, v, k)
    ensures SetupFound(args, v)
  {
    FoundValue(args, v, Arch, v.arch);
    FoundValue(args, v, SshKey, v.sshKey);
    FoundValue(args, v, Iso, v.iso);
    assert Found(args, v, CloudInit);
    assert Found(args, v, Tpm);
    assert Found(args, v, Attach);
  }

  lemma ScreenFromItems(args: seq<string>, v: VmSpec)
    requires forall k :: k != Start ==> Found(args, v, k)
    ensures ScreenFound(args, v)
  {
    FoundValue(args, v, VncPort, Printed(v.vncPort));
    FoundValue(args, v, VncBind, v.vncBind);
    FoundValue(args, v, VncWidth, Printed(v.vncWidth));
    FoundValue(args, v, VncHeight, Printed(v.vncHeight));
    FoundValue(args, v, Cpus, Printed(v.cpus));
    FoundValue(args, v, Memory, v.memory);
  }

  lemma LookupsAre(args: seq<string>, v: VmSpec)
    requires OriginFound(args, v) && SetupFound(args, v) && ScreenFound(args, v)
    ensures LookUpVm(args) == VmLookupsOf(v)
  {
  }

  lemma LookupsFromItems(args: seq<string>, v: VmSpec)
    requires forall k :: k != Start ==> Found(args, v, k)
    ensures LookUpVm(args) == VmLookupsOf(v)
  {
    OriginFromItems(args, v);
    SetupFromItems(args, v);
    ScreenFromItems(args, v);
    LookupsAre(args, v);
  }

  lemma AssembledAgain(v: VmSpec)
    requires VmAccepted(v)
    ensures AssembleVm(v.name, VmLookupsOf(v)) == Some(v)
  {
    NumberFound(Printed(v.vncPort));
    NumberFound(Printed(v.vncWidth));
    NumberFound(Printed(v.vncHeight));
    NumberFound(Printed(v.cpus));
    PrintedIsNumber(v.vncPort);
    PrintedIsNumber(v.vncWidth);
    PrintedIsNumber(v.vncHeight);
    PrintedIsNumber(v.cpus);
  }

  lemma FirstWords(a: string, b: string, rest: seq<Item>)
    ensures Args([Word(a), Word(b)] + rest) == [a, b] + Args(rest)
  {
    var items := [Word(a), Word(b)] + rest;
    assert items[1..] == [Word(b)] + rest && items[1..][1..] == rest;
  }

  // Undisturbed lookups bring an accepted request back.
  lemma Returns(v: VmSpec)
    requires VmAccepted(v) && VmUndisturbed(v)
    ensures EncodeVm(Args(VmItems(v))) == Some(v)
  {
    var items := VmItems(v);
    VmItemsAre(v);
    forall k | k != Start
      ensures Found(Args(items), v, k)
    {
      FoundIff(items, v, k);
    }
    LookupsFromItems(Args(items), v);
    AssembledAgain(v);
    VmArgs(v);
    EncodeVmIs(Args(items));
  }

  // What the lookups must have been for the specification to come out.
  ghost predicate Yields(l: VmLookups, v: VmSpec) {
    && l.disk == Some(Some(v.disk)) && l.os == Some(Some(v.os)) && l.version == Some(v.version)
    && l.firmware.Some? && Some(l.firmware.value.GetOr("uefi")) == v.firmware
    && l.arch == Some(v.arch) && l.sshKey == Some(v.sshKey) && l.iso == Some(v.iso)
    && NumberOption(l.vncPort) == Some(v.vncPort) && l.vncBind == Some(v.vncBind)
    && NumberOption(l.vncWidth) == Some(v.vncWidth) && NumberOption(l.vncHeight) == Some(v.vncHeight)
    && NumberOption(l.cpus) == Some(v.cpus) && l.memory == Some(v.memory)
    && l.cloudInit == v.cloudInit && l.tpm == v.tpm && l.attach == v.attach
  }

  lemma AssembledYields(name: string, l: VmLookups, v: VmSpec)
    requires AssembleVm(name, l) == Some(v)
    ensures Yields(l, v)
  {
  }

  // After a text in the place of a value, or after the VM's name, comes an option.
  lemma {:induction false} OptionsFollow(items: seq<Item>)
    requires forall i :: 0 <= i < |items| ==> !items[i].Word? && StartsWith(items[i].name, "--")
    ensures Args(items) != [] ==> StartsWith(Args(items)[0], "--")
  {
    if items != [] && IsAbsent(items[0]) {
      OptionsFollow(items[1..]);
    }
  }

  lemma IsOptionItem(items: seq<Item>, v: VmSpec, i: nat)
    requires AreVmItems(items, v) && 2 <= i < 19
    ensures !items[i].Word? && StartsWith(items[i].name, "--")
  {
    assert items[At(KeyAt(i))] == ItemFor(v, KeyAt(i));
    VmTexts(KeyAt(i));
  }

  lemma AfterIsOption(items: seq<Item>, v: VmSpec, i: nat, j: nat)
    requires AreVmItems(items, v) && Diverted(items, i, j)
    ensures After(items, j).Some? ==> StartsWith(After(items, j).value, "--")
  {
    assert i != 0 && i != 1;
    IsOptionItem(items, v, i);
    assert "vm"[0] != items[i].name[0];
    assert j != 0;
    var rest := items[j + 1..];
    forall h | 0 <= h < |rest|
      ensures !rest[h].Word? && StartsWith(rest[h].name, "--")
    {
      IsOptionItem(items, v, j + 1 + h);
    }
    OptionsFollow(rest);
  }

  // A number is found only if the lookup is undisturbed: no option is a number.
  lemma NumberUndisturbed(items: seq<Item>, v: VmSpec, k: VmKey)
    requires AreVmItems(items, v) && ItemFor(v, k).Opt?
    requires NumberOption(OptionalOption(Args(items), VmText(k))).Some?
    ensures Undisturbed(items, At(k))
  {
    ItemsNamedOnce(items, v, k);
    if j: nat :| Diverted(items, At(k), j) {
      DivertedLookUp(items, At(k), j);
      AfterIsOption(items, v, At(k), j);
      OptionIsNoNumber(After(items, j).value);
    }
  }

  lemma FirmwareUndisturbed(items: seq<Item>, v: VmSpec, found: Option<Option<string>>)
    requires AreVmItems(items, v) && found == OptionalOption(Args(items), VmText(Firmware))
    requires found.Some? && Some(found.value.GetOr("uefi")) == v.firmware
    ensures Undisturbed(items, At(Firmware))
  {
    ItemsNamedOnce(items, v, Firmware);
    forall j | Diverted(items, At(Firmware), j)
      ensures After(items, j) == v.firmware
    {
      DivertedLookUp(items, At(Firmware), j);
    }
  }

  lemma YieldsUndisturbed(items: seq<Item>, v: VmSpec, l: VmLookups, k: VmKey)
    requires AreVmItems(items, v) && l == LookUpVm(Args(items)) && Yields(l, v) && k != Start
    ensures Undisturbed(items, At(k))
  {
    match k {
      case Firmware => FirmwareUndisturbed(items, v, l.firmware);
      case VncPort => NumberUndisturbed(items, v, k);
      case VncWidth => NumberUndisturbed(items, v, k);
      case VncHeight => NumberUndisturbed(items, v, k);
      case Cpus => NumberUndisturbed(items, v, k);
      case _ => FoundIff(items, v, k);
    }
  }

  lemma ComesBackUndisturbed(v: VmSpec)
    requires EncodeVm(Args(VmItems(v))) == Some(v)
    ensures VmUndisturbed(v)
  {
    var items := VmItems(v);
    var l := LookUpVm(Args(items));
    VmArgs(v);
    EncodeVmIs(Args(items));
    AssembledYields(v.name, l, v);
    VmItemsAre(v);
    forall k | k != Start
      ensures Undisturbed(items, At(k))
    {
      YieldsUndisturbed(items, v, l, k);
    }
  }

  // The arguments of a specification, whatever it is, decode to it exactly if the options keep the
  // rules and no lookup is disturbed.
  lemma VmDecodesIff(v: VmSpec)
    ensures EncodeVm(Args(VmItems(v))) == Some(v) <==> VmAccepted(v) && VmUndisturbed(v)
  {
    if VmAccepted(v) && VmUndisturbed(v) {
      Returns(v);
    } else if EncodeVm(Args(VmItems(v))) == Some(v) {
      VmIsAccepted(Args(VmItems(v)), v);
      ComesBackUndisturbed(v);
    }
  }

  // An accepted request survives the way to arguments and back exactly if no lookup is
  // disturbed by a value, or by the VM's name, that is spelled like an option.
  lemma VmRoundTripIff(args: seq<string>, v: VmSpec)
    requires EncodeVm(args) == Some(v)
    ensures EncodeVm(Args(VmItems(v))) == Some(v) <==> VmUndisturbed(v)
  {
    VmIsAccepted(args, v);
    VmDecodesIff(v);
  }

  lemma EncodeVmIs(args: seq<string>)
    requires |args| > 1
    ensures EncodeVm(args) == AssembleVm(args[1], LookUpVm(args))
  {
  }

  lemma VmArgs(v: VmSpec)
    ensures |Args(VmItems(v))| > 1 && Args(VmItems(v))[0] == "vm" && Args(VmItems(v))[1] == v.name
  {
    assert VmItems(v) == [Word("vm"), Word(v.name)] + VmItems(v)[2..];
    FirstWords("vm", v.name, VmItems(v)[2..]);
  }

  // There are accepted requests that do not come back: the VM is called like the option of its
  // disk.
  lemma DisturbedExample() returns (v: VmSpec)
    ensures EncodeVm(["vm", "--disk", "x", "--os", "y"]) == Some(v) && EncodeVm(Args(VmItems(v))) != Some(v)
  {
    var args := ["vm", "--disk", "x", "--os", "y"];
    v := VmSpec("--disk", "x", "y", None, Some("uefi"), None, false, None, None, None, None, None, None,
                false, None, None, false, false);
    ExampleAccepted(args, v);
    NamedLikeDisk(v);
    VmRoundTripIff(args, v);
  }

  lemma ExampleAccepted(args: seq<string>, v: VmSpec)
    requires args == ["vm", "--disk", "x", "--os", "y"]
    requires v == VmSpec("--disk", "x", "y", None, Some("uefi"), None, false, None, None, None, None, None, None,
                         false, None, None, false, false)
    ensures EncodeVm(args) == Some(v)
  {
    ExampleLookups(args, v);
    EncodeVmIs(args);
    assert AssembleVm("--disk", LookUpVm(args)) == Some(v);
  }

  lemma NamedLikeDisk(v: VmSpec)
    requires v.name == VmText(Disk) && v.disk != VmText(Disk)
    ensures !VmUndisturbed(v)
  {
    var items, o := VmItems(v), VmText(Disk);
    VmItemsAre(v);
    ItemsNamedOnce(items, v, Disk);
    VmTexts(Disk);
    assert items[2] == items[At(Disk)] == ItemFor(v, Disk);
    assert "vm"[0] != o[0];
    assert SaysFirst(items, o, 1);
    assert Diverted(items, At(Disk), 1);
    assert items[2..][0] == items[2];
    assert Args(items[2..])[0] == o;
    assert After(items, 1) == Some(o);
    assert !Undisturbed(items, At(Disk));
  }

  lemma ExampleLookups(args: seq<string>, v: VmSpec)
    requires args == ["vm", "--disk", "x", "--os", "y"]
    requires v == VmSpec("--disk", "x", "y", None, Some("uefi"), None, false, None, None, None, None, None, None,
                         false, None, None, false, false)
    ensures LookUpVm(args) == VmLookupsOf(v).(firmware := Some(None))
  {
    ExampleHas(args);
    forall k | k != Disk && k != Os
      ensures OptionalOption(args, VmText(k)) == Some(None) && !HasFlag(args, VmText(k))
    {
      ExampleHasNo(args, k);
    }
  }

  lemma ExampleHas(args: seq<string>)
    requires args == ["vm", "--disk", "x", "--os", "y"]
    ensures OptionalOption(args, "--disk") == Some(Some("x")) && OptionalOption(args, "--os") == Some(Some("y"))
  {
    assert IndexOf(args, "--disk") == Some(1) && IndexOf(args, "--os") == Some(3);
  }

  lemma ExampleHasNo(args: seq<string>, k: VmKey)
    requires args == ["vm", "--disk", "x", "--os", "y"] && k != Disk && k != Os
    ensures OptionalOption(args, VmText(k)) == Some(None) && !HasFlag(args, VmText(k))
  {
    VmTexts(k);
    assert VmText(k) !in args;
  }
}
