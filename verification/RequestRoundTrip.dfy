/** Turning an accepted request into arguments and decoding those again gives it back. */
module RequestRoundTrip {
  import opened Wrappers
  import opened Text
  import opened Numbers
  import opened Arguments
  import opened Nvtree
  import opened Requests
  import opened RequestTrees
  import SetRequest
  import UpRequest
  import VmRequest

  lemma VolumeDecodesIff(volume: string, size: nat)
    ensures FromCreateVolume(["volume", volume, "--size", Print(size)]) == Some(CreateVolume(volume, size))
            <==> size < U64 && volume != "--size"
  {
    if size < U64 { VolumeIsFound(volume, size); }
  }

  lemma VolumeIsFound(volume: string, size: nat)
    requires size < U64
    ensures FromCreateVolume(["volume", volume, "--size", Print(size)]) == Some(CreateVolume(volume, size))
            <==> volume != "--size"
  {
    var rest := ["volume", volume, "--size", Print(size)];
    ParseSizeOfPrint(size);
    if volume != "--size" {
      assert rest == ["volume", volume] + ["--size", Print(size)];
      SkipPrefix(["volume", volume], ["--size", Print(size)], "--size");
      UpRequest.LeadingOption("--size", Print(size), []);
      assert ["--size", Print(size)] + [] == ["--size", Print(size)];
    } else {
      assert rest == ["volume"] + (["--size", "--size"] + [Print(size)]);
      SkipPrefix(["volume"], ["--size", "--size"] + [Print(size)], "--size");
      UpRequest.LeadingOption("--size", "--size", [Print(size)]);
      OptionIsNoNumber("--size");
      assert Unit("--size") == 1;
    }
  }

  // ---- Base jails ----

  function BaseItems(resource: string, name: string, pkgSet: Option<string>, version: Option<string>): seq<Item> {
    [Word("base"), Word(resource), Word(name), Opt("--set", pkgSet), Opt("--version", version)]
  }

  // The two lookups find what the request says.
  ghost predicate BaseUndisturbed(items: seq<Item>) {
    Undisturbed(items, 3) && Undisturbed(items, 4)
  }

  lemma BaseLookups(items: seq<Item>, resource: string, name: string, pkgSet: Option<string>, version: Option<string>)
    requires items == BaseItems(resource, name, pkgSet, version)
    ensures (OptionalOption(Args(items), "--set") == Some(pkgSet)
             && OptionalOption(Args(items), "--version") == Some(version)) <==> BaseUndisturbed(items)
  {
    LookUpIff(items, 3);
    LookUpIff(items, 4);
  }

  lemma FromBase(args: seq<string>, name: string, pkgSet: Option<string>, version: Option<string>)
    requires |args| >= 3 && args[1] == "jail" && args[2] == name
    ensures FromCreateBase(args) == Some(CreateBase("jail", name, pkgSet, version)) <==>
            OptionalOption(args, "--set") == Some(pkgSet) && OptionalOption(args, "--version") == Some(version)
  {
  }

  lemma BaseDecodesIff(resource: string, name: string, pkgSet: Option<string>, version: Option<string>)
    ensures var items := BaseItems(resource, name, pkgSet, version);
            FromCreateBase(Args(items)) == Some(CreateBase(resource, name, pkgSet, version)) <==>
            || (resource == "jail" && BaseUndisturbed(items))
            || (resource == "vm" && pkgSet.None? && version.None?)
  {
    var items := BaseItems(resource, name, pkgSet, version);
    BaseWords(resource, name, pkgSet, version);
    if resource == "jail" {
      BaseLookups(items, resource, name, pkgSet, version);
      FromBase(Args(items), name, pkgSet, version);
    }
  }

  lemma BaseWords(resource: string, name: string, pkgSet: Option<string>, version: Option<string>)
    ensures var args := Args(BaseItems(resource, name, pkgSet, version));
            && |args| >= 3 && args[0] == "base" && args[1] == resource && args[2] == name
            && (pkgSet.None? && version.None? <==> |args| == 3)
  {
    var tail := [Opt("--set", pkgSet), Opt("--version", version)];
    assert BaseItems(resource, name, pkgSet, version)
        == [Word("base")] + ([Word(resource)] + ([Word(name)] + tail));
    WordFirst("base", [Word(resource)] + ([Word(name)] + tail));
    WordFirst(resource, [Word(name)] + tail);
    WordFirst(name, tail);
    assert tail[1..] == [Opt("--version", version)] && tail[1..][1..] == [];
    assert Args([]) == [];
    assert version.None? ==> Args(tail[1..]) == [];
    assert pkgSet.None? && version.None? ==> Args(tail) == [];
  }

  // ---- Jails ----

  // How a jail creation is written down, option by option.
  datatype JailSpec = JailSpec(
    name: string, pkgSet: Option<string>, base: Option<string>, version: Option<string>, sshKey: Option<string>,
    start: bool, attach: bool)

  function JailItems(j: JailSpec): seq<Item> {
    [Word("jail"), Word(j.name), Opt("--set", j.pkgSet), Opt("--base", j.base), Opt("--version", j.version),
     Opt("--ssh-key", j.sshKey), Switch("--start", j.start), Switch("--attach", j.attach)]
  }

  function Creation(j: JailSpec): Request {
    CreateJail(j.name, j.pkgSet, j.base, j.version, j.sshKey, j.start, j.attach)
  }

  ghost predicate JailUndisturbed(items: seq<Item>) {
    forall k :: 2 <= k < 8 ==> Undisturbed(items, k)
  }

  // Every option is found with the value it has in the specification.
  ghost predicate JailFound(args: seq<string>, j: JailSpec) {
    && OptionalOption(args, "--set") == Some(j.pkgSet) && OptionalOption(args, "--base") == Some(j.base)
    && OptionalOption(args, "--version") == Some(j.version) && OptionalOption(args, "--ssh-key") == Some(j.sshKey)
    && HasFlag(args, "--start") == j.start && HasFlag(args, "--attach") == j.attach
  }

  lemma JailLookups(items: seq<Item>, j: JailSpec)
    requires items == JailItems(j)
    ensures JailFound(Args(items), j) <==> JailUndisturbed(items)
  {
    JailImageLookups(items, j);
    JailAccessLookups(items, j);
    JailFlagLookups(items, j);
    AllUndisturbed(items);
  }

  lemma AllUndisturbed(items: seq<Item>)
    ensures JailUndisturbed(items) <==>
            && Undisturbed(items, 2) && Undisturbed(items, 3) && Undisturbed(items, 4)
            && Undisturbed(items, 5) && Undisturbed(items, 6) && Undisturbed(items, 7)
  {
  }

  lemma JailImageLookups(items: seq<Item>, j: JailSpec)
    requires items == JailItems(j)
    ensures OptionalOption(Args(items), "--set") == Some(j.pkgSet) <==> Undisturbed(items, 2)
    ensures OptionalOption(Args(items), "--base") == Some(j.base) <==> Undisturbed(items, 3)
  {
    LookUpIff(items, 2);
    LookUpIff(items, 3);
  }

  lemma JailAccessLookups(items: seq<Item>, j: JailSpec)
    requires items == JailItems(j)
    ensures OptionalOption(Args(items), "--version") == Some(j.version) <==> Undisturbed(items, 4)
    ensures OptionalOption(Args(items), "--ssh-key") == Some(j.sshKey) <==> Undisturbed(items, 5)
  {
    LookUpIff(items, 4);
    LookUpIff(items, 5);
  }

  lemma JailFlagLookups(items: seq<Item>, j: JailSpec)
    requires items == JailItems(j)
    ensures HasFlag(Args(items), "--start") == j.start <==> Undisturbed(items, 6)
    ensures HasFlag(Args(items), "--attach") == j.attach <==> Undisturbed(items, 7)
  {
    LookUpIff(items, 6);
    LookUpIff(items, 7);
  }

  lemma FromJail(args: seq<string>, j: JailSpec)
    requires |args| >= 2 && args[1] == j.name
    ensures FromCreateJail(args) == Some(Creation(j)) <==> JailFound(args, j) && (j.attach ==> j.start)
  {
  }

  lemma JailWords(items: seq<Item>, j: JailSpec)
    requires items == JailItems(j)
    ensures |Args(items)| >= 2 && Args(items)[0] == "jail" && Args(items)[1] == j.name
  {
    assert items == [Word("jail")] + ([Word(j.name)] + items[2..]);
    WordFirst("jail", [Word(j.name)] + items[2..]);
    WordFirst(j.name, items[2..]);
  }

  // Written-down options of a jail creation decode to the jail exactly if no lookup is
  // disturbed and attaching comes with starting.
  lemma JailDecodesIff(j: JailSpec)
    ensures FromCreate(Args(JailItems(j))) == Some(Creation(j)) <==>
            JailUndisturbed(JailItems(j)) && (j.attach ==> j.start)
  {
    var items := JailItems(j);
    JailLookups(items, j);
    JailWords(items, j);
    FromJail(Args(items), j);
    FromCreateOf(Args(items), "jail");
  }

  lemma WordFirst(text: string, rest: seq<Item>)
    ensures Args([Word(text)] + rest) == [text] + Args(rest)
  {
    assert ([Word(text)] + rest)[1..] == rest;
  }

  // A start decodes whatever its name is, even if it is called like a flag.
  lemma StartDecodes(name: string, attach: bool, wait: bool)
    ensures var r := Request.Start(name, attach, wait);
            FromStart(Operands(r)) == Some(r) <==> StartFits(name, attach, wait)
  {
    var r := Request.Start(name, attach, wait);
    var items := [Word(name), Switch("--attach", attach), Switch("--wait", wait)];
    assert items[1..] == [items[1], items[2]] && items[1..][1..] == [items[2]] && items[2..][1..] == [];
    var first := if attach then ["--attach"] else [];
    var second := if wait then ["--wait"] else [];
    assert Args([]) == [] && second + [] == second;
    assert Args([items[2]]) == second && Args([items[1], items[2]]) == first + second;
    assert Operands(r) == [name] + (first + second);
    UnflaggedFlags(first, second);
    assert ([name] + (first + second))[1..] == first + second;
  }

  // A name that is a flag is found as that flag, too.
  predicate StartFits(name: string, attach: bool, wait: bool) {
    (name == "--attach" ==> attach) && (name == "--wait" ==> wait)
  }

  // What a start accepts: a name and, besides the flags, nothing else.
  lemma StartAcceptsIff(rest: seq<string>)
    ensures FromStart(rest).Some? <==>
            && rest != []
            && forall i, j :: 0 <= i < j < |rest| ==> IsStartFlag(rest[i]) || IsStartFlag(rest[j])
    ensures FromStart(rest).Some? ==>
              FromStart(rest) == Some(Request.Start(rest[0], "--attach" in rest, "--wait" in rest))
  {
    FewUnflagged(rest);
  }

  predicate IsStartFlag(text: string) {
    text == "--attach" || text == "--wait"
  }

  lemma {:induction false} FewUnflagged(args: seq<string>)
    ensures Unflagged(args) == [] <==> forall i :: 0 <= i < |args| ==> IsStartFlag(args[i])
    ensures |Unflagged(args)| <= 1 <==>
            forall i, j :: 0 <= i < j < |args| ==> IsStartFlag(args[i]) || IsStartFlag(args[j])
  {
    if args != [] {
      FewUnflagged(args[1..]);
      assert forall i :: 0 < i < |args| ==> args[i] == args[1..][i - 1];
      assert forall i :: 0 <= i < |args| - 1 ==> args[1..][i] == args[i + 1];
    }
  }

  lemma UnflaggedFlags(attach: seq<string>, wait: seq<string>)
    requires attach == [] || attach == ["--attach"]
    requires wait == [] || wait == ["--wait"]
    ensures Unflagged(attach + wait) == []
  {
    assert Unflagged([]) == [];
    assert Unflagged(wait) == [] by {
      if wait != [] {
        assert wait[1..] == [];
      }
    }
    if attach != [] {
      assert (attach + wait)[0] == "--attach" && (attach + wait)[1..] == wait;
    } else {
      assert attach + wait == wait;
    }
  }

  // What is special about the values of a provisioning request that does not survive:
  // its directory is taken for an option, or its name is.
  predicate ProvisionSurvives(serviceDir: string, name: string) {
    && serviceDir != "--container" && serviceDir != "--provisioner" && name != "--provisioner"
    && (serviceDir == "--name" ==> name == "--container")
  }

  lemma {:induction false} ProvisionerList(provisioners: seq<string>)
    requires UpRequest.NoDash(provisioners)
    ensures Repeated(UpRequest.ProvisionerArgs(provisioners), "--provisioner") == Some(provisioners)
  {
    if provisioners == [] {
      assert UpRequest.ProvisionerArgs(provisioners) == [];
      assert Repeated([], "--provisioner") == Some([]);
    } else {
      var first, rest := provisioners[0], UpRequest.ProvisionerArgs(provisioners[1..]);
      UpRequest.NoDashStep(provisioners);
      ProvisionerList(provisioners[1..]);
      OneRepeated("--provisioner", first, rest);
      assert UpRequest.ProvisionerArgs(provisioners) == ["--provisioner", first] + rest;
      assert [first] + provisioners[1..] == provisioners;
      assert Prepend([first], Some(provisioners[1..])) == Some(provisioners);
    }
  }

  lemma OneRepeated(o: string, value: string, rest: seq<string>)
    requires !StartsWith(value, "-")
    ensures Repeated([o, value] + rest, o) == Prepend([value], Repeated(rest, o))
  {
    var args := [o, value] + rest;
    assert args[0] == o && args[1] == value && args[2..] == rest;
  }

  lemma ProvisionLookups(d: string, c: string, n: string, tail: seq<string>)
    requires c == "jail" || c == "vm"
    ensures var args := ["--service-dir", d, "--container", c, "--name", n] + tail;
            && NamedOption(args, "--service-dir") == Some(d)
            && NamedOption(args, "--container") == Some(if d == "--container" then "--container" else c)
            && NamedOption(args, "--name") == Some(if d == "--name" then "--container" else n)
  {
    var third := ["--name", n] + tail;
    var second := ["--container", c] + third;
    var args := ["--service-dir", d, "--container", c, "--name", n] + tail;
    assert args == ["--service-dir", d] + second;
    UpRequest.LeadingOption("--service-dir", d, second);
    assert args == ["--service-dir"] + ([d, "--container"] + ([c] + third));
    if d == "--container" {
      SkipPrefix(["--service-dir"], [d, "--container"] + ([c] + third), "--container");
      UpRequest.LeadingOption("--container", "--container", [c] + third);
    } else {
      UpRequest.SecondOption("--service-dir", d, "--container", c, third);
    }
    if d == "--name" {
      SkipPrefix(["--service-dir"], [d, "--container"] + ([c] + third), "--name");
      UpRequest.LeadingOption("--name", "--container", [c] + third);
    } else {
      SkipPrefix(["--service-dir", d], second, "--name");
      UpRequest.SecondOption("--container", c, "--name", n, tail);
    }
  }

  // The option itself, taken for a value's place, is followed by another option.
  lemma RepeatFails(front: seq<string>, o: string, rest: seq<string>)
    requires o !in front && rest != [] && StartsWith(rest[0], "-")
    ensures Repeated(front + ([o] + rest), o) == None
  {
    UpRequest.RepeatedSkips(front, [o] + rest, o);
    assert ([o] + rest)[1] == rest[0];
  }

  lemma ProvisionRepeats(d: string, c: string, n: string, provisioners: seq<string>)
    requires (c == "jail" || c == "vm") && provisioners != [] && UpRequest.NoDash(provisioners)
    ensures Repeated(["--service-dir", d, "--container", c, "--name", n] + UpRequest.ProvisionerArgs(provisioners),
                     "--provisioner")
            == if d == "--provisioner" || n == "--provisioner" then None else Some(provisioners)
  {
    var o, tail := "--provisioner", UpRequest.ProvisionerArgs(provisioners);
    var args := ["--service-dir", d, "--container", c, "--name", n] + tail;
    if d == o {
      assert args == ["--service-dir"] + ([o] + (["--container", c, "--name", n] + tail));
      RepeatFails(["--service-dir"], o, ["--container", c, "--name", n] + tail);
    } else if n == o {
      assert args == ["--service-dir", d, "--container", c, "--name"] + ([o] + tail);
      RepeatFails(["--service-dir", d, "--container", c, "--name"], o, tail);
    } else {
      ProvisionerList(provisioners);
      UpRequest.RepeatedSkips(["--service-dir", d, "--container", c, "--name", n], tail, o);
    }
  }

  lemma ProvisionAccepted(rest: seq<string>, r: Request)
    requires FromProvision(rest) == Some(r)
    ensures r.Provision? && (r.container == "jail" || r.container == "vm")
    ensures r.provisioners != [] && UpRequest.NoDash(r.provisioners)
  {
    UpRequest.RepeatedNoDash(rest, "--provisioner");
  }

  lemma ProvisionFrom(args: seq<string>, d: string, c: string, n: string, provisioners: seq<string>)
    requires c == "jail" || c == "vm"
    requires provisioners != []
    ensures FromProvision(args) == Some(Provision(d, c, n, provisioners)) <==>
            && NamedOption(args, "--service-dir") == Some(d) && NamedOption(args, "--container") == Some(c)
            && NamedOption(args, "--name") == Some(n) && Repeated(args, "--provisioner") == Some(provisioners)
  {
  }

  // What the lookups find decides.
  lemma ProvisionDecided(args: seq<string>, d: string, c: string, n: string, provisioners: seq<string>)
    requires (c == "jail" || c == "vm") && provisioners != []
    requires NamedOption(args, "--service-dir") == Some(d)
    requires NamedOption(args, "--container") == Some(if d == "--container" then "--container" else c)
    requires NamedOption(args, "--name") == Some(if d == "--name" then "--container" else n)
    requires Repeated(args, "--provisioner")
             == if d == "--provisioner" || n == "--provisioner" then None else Some(provisioners)
    ensures FromProvision(args) == Some(Provision(d, c, n, provisioners)) <==> ProvisionSurvives(d, n)
  {
    ProvisionFrom(args, d, c, n, provisioners);
  }

  lemma ProvisionAgainIff(args: seq<string>, d: string, c: string, n: string, provisioners: seq<string>)
    requires args == UpRequest.ProvisionOperands(d, c, n, provisioners)
    requires (c == "jail" || c == "vm") && provisioners != [] && UpRequest.NoDash(provisioners)
    ensures FromProvision(args) == Some(Provision(d, c, n, provisioners)) <==> ProvisionSurvives(d, n)
  {
    ProvisionLookups(d, c, n, UpRequest.ProvisionerArgs(provisioners));
    ProvisionRepeats(d, c, n, provisioners);
    ProvisionDecided(args, d, c, n, provisioners);
  }

  lemma ProvisionDecodesIff(d: string, c: string, n: string, provisioners: seq<string>)
    ensures var r := Provision(d, c, n, provisioners);
            FromProvision(Operands(r)) == Some(r) <==> ProvisionFits(c, provisioners) && ProvisionSurvives(d, n)
  {
    var r := Provision(d, c, n, provisioners);
    if ProvisionFits(c, provisioners) {
      ProvisionAgainIff(Operands(r), d, c, n, provisioners);
    } else if FromProvision(Operands(r)) == Some(r) {
      ProvisionAccepted(Operands(r), r);
    }
  }

  predicate ProvisionFits(container: string, provisioners: seq<string>) {
    (container == "jail" || container == "vm") && provisioners != [] && UpRequest.NoDash(provisioners)
  }

  // ---- The other requests ----

  lemma DependenciesDecodeIff(kind: string, name: string, dependencies: seq<string>)
    ensures var r := Request.SetDependencies(kind, name, dependencies);
            FromDependencies(Operands(r)) == Some(r) <==> AllClean(dependencies)
  {
    var text := Join(dependencies, ',');
    FromDependenciesIs([kind, name, text]);
    ParseListIsClean(text);
    if AllClean(dependencies) { ParseListOfJoin(dependencies); }
  }

  lemma FromDependenciesIs(rest: seq<string>)
    ensures FromDependencies(rest) ==
            if |rest| < 3 then None else Some(Request.SetDependencies(rest[0], rest[1], ParseList(rest[2])))
  {
  }

  lemma DestroyDecodesIff(r: Request)
    requires r.Destroy? || r.DestroyBase?
    ensures FromDestroy(Operands(r)) == Some(r) <==> (r.Destroy? ==> r.kind != "base")
  {
  }

  // ---- All requests ----

  // What the values of an accepted request must fulfil for the request to come back.
  ghost predicate Survives(r: Request) {
    match r
    case CreateJail(_, _, _, _, _, _, _) => false
    case CreateVolume(volume, _) => volume != "--size"
    case CreateBase(resource, name, pkgSet, version) =>
      resource == "jail" ==> BaseUndisturbed(BaseItems(resource, name, pkgSet, version))
    case CreateVm(v) => VmRequest.VmUndisturbed(v)
    case Set(s) => !SetRequest.IsValueOption(s.name)
    case Up(s) => s.serviceDir != "--provisioner"
    case Provision(serviceDir, _, name, _) => ProvisionSurvives(serviceDir, name)
    case _ => true
  }

  // What a request must be like to be one at all: numbers in range, known kinds, clean lists,
  // options that go together.
  ghost predicate Fits(r: Request) {
    match r
    case CreateVolume(_, size) => size < U64
    case CreateJail(_, _, _, _, _, start, attach) => attach ==> start
    case CreateBase(resource, _, pkgSet, version) =>
      resource == "jail" || (resource == "vm" && pkgSet.None? && version.None?)
    case CreateVm(v) => VmRequest.VmAccepted(v)
    case Destroy(kind, _) => kind != "base"
    case Start(name, attach, wait) => StartFits(name, attach, wait)
    case Set(s) => SetRequest.Fits(s)
    case SetDependencies(_, _, dependencies) => AllClean(dependencies)
    case Up(s) => UpRequest.NoDash(s.provisioners) && !StartsWith(s.name, "-")
    case Down(s) => s.provisioners == [] && !StartsWith(s.name, "-")
    case Provision(_, container, _, provisioners) => ProvisionFits(container, provisioners)
    case _ => true
  }

  lemma FromCreateOf(args: seq<string>, kind: string)
    requires args != [] && args[0] == kind
    ensures kind == "volume" ==> FromCreate(args) == FromCreateVolume(args)
    ensures kind == "jail" ==> FromCreate(args) == FromCreateJail(args)
    ensures kind == "base" ==> FromCreate(args) == FromCreateBase(args)
    ensures kind == "vm" ==> FromCreate(args) == FromCreateVm(args)
  {
  }

  lemma CreateDecodesIff(r: Request)
    requires CommandFor(r) == Creating && !r.CreateJail?
    ensures FromCreate(Operands(r)) == Some(r) <==> Fits(r) && Survives(r)
  {
    match r {
      case CreateDataset(_) =>
      case CreateVolume(volume, size) =>
        VolumeDecodesIff(volume, size);
        FromCreateOf(Operands(r), "volume");
      case CreateBase(resource, name, pkgSet, version) =>
        BaseDecodesIff(resource, name, pkgSet, version);
        BaseWords(resource, name, pkgSet, version);
        FromCreateOf(Args(BaseItems(resource, name, pkgSet, version)), "base");
      case CreateVm(v) =>
        VmRequest.VmDecodesIff(v);
        VmRequest.VmArgs(v);
        FromCreateOf(Args(VmRequest.VmItems(v)), "vm");
        FromVmIff(Args(VmRequest.VmItems(v)), v);
    }
  }

  lemma FromVmIff(args: seq<string>, v: VmRequest.VmSpec)
    ensures FromCreateVm(args) == Some(CreateVm(v)) <==> VmRequest.EncodeVm(args) == Some(v)
  {
  }

  lemma FromUpIs(up: bool, rest: seq<string>)
    ensures FromUp(up, rest) ==
            match UpRequest.Decode(up, rest) case None => None case Some(s) => Some(if up then Up(s) else Down(s))
  {
  }

  lemma UpDecodesIff(s: UpRequest.Service)
    ensures FromUp(true, UpRequest.ToArgs(true, s)) == Some(Up(s)) <==> Fits(Up(s)) && Survives(Up(s))
  {
    FromUpIs(true, UpRequest.ToArgs(true, s));
    UpRequest.DecodeOfToArgsIff(s);
  }

  lemma DownDecodesIff(s: UpRequest.Service)
    ensures FromUp(false, UpRequest.ToArgs(false, s)) == Some(Down(s)) <==> Fits(Down(s)) && Survives(Down(s))
  {
    FromUpIs(false, UpRequest.ToArgs(false, s));
    UpRequest.DownDecodesIff(s);
  }

  lemma FromSetIff(args: seq<string>, s: SetRequest.Settings)
    ensures FromSet(args) == Some(Set(s)) <==> SetRequest.Encode(args) == Some(s)
  {
  }

  lemma SetDecodesIff(s: SetRequest.Settings)
    ensures FromSet(SetRequest.ToArgs(s)) == Some(Set(s)) <==> SetRequest.Fits(s) && !SetRequest.IsValueOption(s.name)
  {
    SetRequest.DecodesIff(s);
    FromSetIff(SetRequest.ToArgs(s), s);
  }

  // Commands with at most one operand.
  predicate IsPlain(command: Command) {
    || command.Stopping? || command.Attaching? || command.Enabling? || command.Disabling? || command.Listing?
    || command.ShowingVersion? || command.InitializingNetwork?
  }

  lemma PlainDecodes(r: Request)
    requires IsPlain(CommandFor(r))
    ensures FromCommand(CommandFor(r), Operands(r)) == Some(r) && Fits(r) && Survives(r)
  {
  }

  lemma OperandsDecodeIff(r: Request)
    requires !r.CreateJail?
    ensures FromCommand(CommandFor(r), Operands(r)) == Some(r) <==> Fits(r) && Survives(r)
  {
    match CommandFor(r) {
      case Creating => CreateDecodesIff(r);
      case Destroying => DestroyDecodesIff(r);
      case Starting => StartDecodes(r.name, r.attach, r.wait);
      case Setting => SetDecodesIff(r.settings);
      case BringingUp => UpDecodesIff(r.service);
      case TakingDown => DownDecodesIff(r.service);
      case Provisioning => ProvisionDecodesIff(r.serviceDir, r.container, r.name, r.provisioners);
      case LinkingDependencies => DependenciesDecodeIff(r.kind, r.name, r.dependencies);
      case _ => PlainDecodes(r);
    }
  }

  // The command and operands of a request, whatever it is, decode to that very request exactly if
  // it fits and survives.
  lemma DecodesIff(r: Request)
    requires !r.CreateJail?
    ensures FromArgs([CommandText(CommandFor(r))] + Operands(r)) == Some(r) <==> Fits(r) && Survives(r)
  {
    OperandsDecodeIff(r);
    FromArgsOf(CommandFor(r), Operands(r));
  }

  // ---- Accepted requests ----

  lemma CreateBranches(rest: seq<string>, r: Request)
    requires FromCreate(rest) == Some(r)
    ensures || FromCreateDataset(rest) == Some(r) || FromCreateVolume(rest) == Some(r)
            || FromCreateJail(rest) == Some(r) || FromCreateBase(rest) == Some(r) || FromCreateVm(rest) == Some(r)
  {
  }

  lemma CreateFits(rest: seq<string>, r: Request)
    requires FromCreate(rest) == Some(r)
    ensures Fits(r)
  {
    CreateBranches(rest, r);
    if r.CreateVm? {
      FromVmIff(rest, r.vm);
      VmRequest.VmIsAccepted(rest, r.vm);
    }
  }

  lemma ServiceFits(up: bool, rest: seq<string>, r: Request)
    requires FromUp(up, rest) == Some(r)
    ensures Fits(r)
  {
    FromUpIs(up, rest);
    UpRequest.DecodedShape(up, rest, UpRequest.Decode(up, rest).value);
  }

  lemma SetFits(rest: seq<string>, r: Request)
    requires FromSet(rest) == Some(r)
    ensures Survives(r) ==> Fits(r)
  {
    SetRequest.RoundTripIff(rest, r.settings);
  }

  // Every accepted request fits, unless it is a `set` for a VM with an option's name.
  lemma AcceptedFits(args: seq<string>, r: Request)
    requires FromArgs(args) == Some(r)
    ensures Survives(r) || r.CreateJail? ==> Fits(r)
  {
    var command, rest := CommandOf(args[0]).value, args[1..];
    assert FromCommand(command, rest) == Some(r);
    match command {
      case Creating => CreateFits(rest, r);
      case Setting => SetFits(rest, r);
      case BringingUp => ServiceFits(true, rest, r);
      case TakingDown => ServiceFits(false, rest, r);
      case Provisioning => ProvisionAccepted(rest, r);
      case LinkingDependencies => FromDependenciesIs(rest); ParseListIsClean(rest[2]);
      case _ =>
    }
  }

  // Decoding the command and operands of an accepted request gives it back exactly if it
  // survives.
  lemma DecodesAgain(args: seq<string>, r: Request)
    requires FromArgs(args) == Some(r) && !r.CreateJail?
    ensures FromArgs([CommandText(CommandFor(r))] + Operands(r)) == Some(r) <==> Survives(r)
  {
    AcceptedFits(args, r);
    DecodesIff(r);
  }

  lemma NoBaseDestroyed(args: seq<string>, r: Request)
    requires FromArgs(args) == Some(r)
    ensures r.Destroy? ==> r.kind != "base"
  {
    if r.Destroy? { AcceptedFits(args, r); }
  }

  lemma FromArgsOf(command: Command, rest: seq<string>)
    ensures FromArgs([CommandText(command)] + rest) == FromCommand(command, rest)
  {
    CommandTexts(command);
    assert ([CommandText(command)] + rest)[1..] == rest;
  }

  // `request_from_args` undoes `request_to_args` on exactly the accepted requests that
  // survive: the tree can be turned into arguments, and these decode to the same request,
  // with the ids of whoever decodes it.
  lemma RequestRoundTripIff(args: seq<string>, r: Request, uid: nat, gid: nat, uid2: nat, gid2: nat)
    requires FromArgs(args) == Some(r)
    ensures var again := RequestToArgs(RequestFromArgs(args, uid, gid).value);
            && (Survives(r) <==> again.Some? && FromArgs(again.value) == Some(r))
            && (Survives(r) ==> RequestFromArgs(again.value, uid2, gid2) == RequestFromArgs(args, uid2, gid2))
  {
    if r.CreateJail? {
      JailNeverReads(r, uid, gid);
    } else {
      NoBaseDestroyed(args, r);
      DecodesAgain(args, r);
      TreeReads(r, uid, gid);
    }
  }

  // The tree of a request, whatever it is, turns into arguments that decode to that very request
  // exactly if it fits and survives.
  lemma TreeDecodesIff(r: Request, uid: nat, gid: nat)
    requires !r.CreateJail?
    ensures var args := RequestToArgs(Present(Fields(r, uid, gid)));
            Fits(r) && Survives(r) ==> args.Some? && FromArgs(args.value) == Some(r)
    ensures var args := RequestToArgs(Present(Fields(r, uid, gid)));
            (r.Destroy? ==> r.kind != "base") ==>
              args.Some? && (FromArgs(args.value) == Some(r) <==> Fits(r) && Survives(r))
  {
    DecodesIff(r);
    if r.Destroy? ==> r.kind != "base" {
      TreeReads(r, uid, gid);
    }
  }

  // What comes after the operands: some commands refuse it, others do not look.
  predicate Refuses(r: Request) {
    r.Enable? || r.Disable? || r.Version? || r.NetworkInit? || r.CreateDataset? || (r.CreateBase? && r.resource == "vm")
  }

  predicate Overlooks(r: Request) {
    r.Stop? || r.Attach? || r.ListResources? || r.Destroy? || r.DestroyBase? || r.SetDependencies?
  }

  lemma ExtraIsRefused(r: Request, extra: seq<string>)
    requires Refuses(r) && Fits(r) && extra != []
    ensures FromCommand(CommandFor(r), Operands(r) + extra) == None
  {
    if IsPlain(CommandFor(r)) {
      ExtraToPlain(r, extra);
    } else {
      ExtraToCreation(r, extra);
    }
  }

  lemma ExtraIsOverlooked(r: Request, extra: seq<string>)
    requires Overlooks(r) && Fits(r)
    ensures FromCommand(CommandFor(r), Operands(r) + extra) == Some(r)
  {
    if IsPlain(CommandFor(r)) {
      if extra == [] { PlainDecodes(r); } else { ExtraToPlain(r, extra); }
      assert Operands(r) + [] == Operands(r);
    } else if r.SetDependencies? {
      ExtraToDependencies(r.kind, r.name, r.dependencies, extra);
    } else {
      ExtraToDestroy(r, extra);
    }
  }

  lemma ExtraToCreation(r: Request, extra: seq<string>)
    requires Refuses(r) && CommandFor(r).Creating? && Fits(r) && extra != []
    ensures FromCreate(Operands(r) + extra) == None
  {
    if r.CreateDataset? {
      ExtraToDataset(r.dataset, extra);
    } else {
      ExtraToBase(r.name, extra);
    }
  }

  lemma ExtraToDataset(dataset: string, extra: seq<string>)
    requires extra != []
    ensures FromCreate(["dataset", dataset] + extra) == None
  {
  }

  lemma ExtraToBase(name: string, extra: seq<string>)
    requires extra != []
    ensures var r := CreateBase("vm", name, None, None);
            |Operands(r)| == 3 && FromCreate(Operands(r) + extra) == None
  {
    BaseWords("vm", name, None, None);
    FromCreateOf(Args(BaseItems("vm", name, None, None)) + extra, "base");
  }

  lemma ExtraToDependencies(kind: string, name: string, dependencies: seq<string>, extra: seq<string>)
    requires AllClean(dependencies)
    ensures var r := Request.SetDependencies(kind, name, dependencies);
            FromDependencies(Operands(r) + extra) == Some(r)
  {
    var operands := [kind, name, Join(dependencies, ',')];
    FromDependenciesIs(operands + extra);
    ParseListOfJoin(dependencies);
  }

  lemma ExtraToDestroy(r: Request, extra: seq<string>)
    requires (r.Destroy? || r.DestroyBase?) && Fits(r)
    ensures FromDestroy(Operands(r) + extra) == Some(r)
  {
  }

  lemma ExtraToPlain(r: Request, extra: seq<string>)
    requires IsPlain(CommandFor(r)) && extra != []
    ensures FromCommand(CommandFor(r), Operands(r) + extra) == if Refuses(r) then None else Some(r)
  {
  }

  // What the client derives from a service manifest for `up` decodes to the manifest's
  // service exactly if the directory is not called like the repeated option and neither the
  // name nor a provisioner starts with a dash.
  lemma UpManifestIff(s: UpRequest.Service)
    ensures FromArgs(["up"] + UpRequest.ToArgs(true, s)) == Some(Up(s)) <==>
            s.serviceDir != "--provisioner" && UpRequest.NoDash(s.provisioners) && !StartsWith(s.name, "-")
  {
    UpRequest.DecodeOfToArgsIff(s);
    FromUpIs(true, UpRequest.ToArgs(true, s));
    BringingUpDecodes(UpRequest.ToArgs(true, s));
  }

  lemma BringingUpDecodes(rest: seq<string>)
    ensures FromArgs(["up"] + rest) == FromUp(true, rest)
  {
    FromArgsOf(BringingUp, rest);
    ManifestCommands(rest);
  }

  // The same for `provision`.
  lemma ProvisionManifestIff(dir: string, container: string, name: string, provisioners: seq<string>)
    requires (container == "jail" || container == "vm") && provisioners != [] && UpRequest.AllAnsible(provisioners)
    ensures var operands := UpRequest.ProvisionOperands(dir, container, name, provisioners);
            FromArgs(["provision"] + operands) == Some(Provision(dir, container, name, provisioners)) <==>
            ProvisionSurvives(dir, name)
  {
    var operands := UpRequest.ProvisionOperands(dir, container, name, provisioners);
    FromProvisionArgs(operands);
    AnsibleHasNoDash(provisioners);
    ProvisionAgainIff(operands, dir, container, name, provisioners);
  }

  lemma FromProvisionArgs(rest: seq<string>)
    ensures FromArgs(["provision"] + rest) == FromProvision(rest)
  {
    FromArgsOf(Provisioning, rest);
    ManifestCommands(rest);
  }

  lemma ManifestCommands(rest: seq<string>)
    ensures CommandText(BringingUp) == "up" && FromCommand(BringingUp, rest) == FromUp(true, rest)
    ensures CommandText(Provisioning) == "provision" && FromCommand(Provisioning, rest) == FromProvision(rest)
  {
  }

  lemma AnsibleHasNoDash(provisioners: seq<string>)
    requires UpRequest.AllAnsible(provisioners)
    ensures UpRequest.NoDash(provisioners)
  {
    assert "ansible"[0] != "-"[0];
  }

  // In particular a request to create a jail never comes back: it cannot even be turned
  // into arguments.
  lemma JailNeverReturns(args: seq<string>, uid: nat, gid: nat)
    requires FromArgs(args).Some? && FromArgs(args).value.CreateJail?
    ensures RequestToArgs(RequestFromArgs(args, uid, gid).value) == None
  {
    JailNeverReads(FromArgs(args).value, uid, gid);
  }

  // Where no free-form value and not the VM's name is spelled like an option, a request to
  // create a VM survives.
  lemma PlainVmSurvives(v: VmRequest.VmSpec)
    requires forall i :: 0 <= i < |VmRequest.VmItems(v)| ==> PlainText(VmRequest.VmItems(v)[i])
    ensures Survives(CreateVm(v))
  {
    var items := VmRequest.VmItems(v);
    VmRequest.VmItemsAre(v);
    forall k | k != VmRequest.Start
      ensures Undisturbed(items, VmRequest.At(k))
    {
      VmRequest.IsOptionItem(items, v, VmRequest.At(k));
    }
  }

  // No free-form text that looks like an option.
  predicate PlainText(item: Item) {
    match item
    case Word(text) => !StartsWith(text, "--")
    case Opt(_, value) => value.Some? ==> !StartsWith(value.value, "--")
    case Switch(_, _) => true
  }

  // ---- Accepted requests that do not come back ----

  lemma VolumeExample()
    ensures FromCreateVolume(["volume", "--size", "5"]) == Some(CreateVolume("--size", 5))
    ensures FromCreateVolume(["volume", "--size", "--size", Print(5)]) != Some(CreateVolume("--size", 5))
  {
    var args := ["volume", "--size", "5"];
    assert IndexOf(args, "--size") == Some(1);
    assert Print(5) == "5" by {
      assert DIGITS[5] == '5';
    }
    ParseSizeOfPrint(5);
    VolumeDecodesIff("--size", 5);
  }

  lemma BaseExample()
    ensures var r := CreateBase("jail", "--set", Some("--version"), Some("9"));
            && FromCreateBase(["base", "jail", "--set", "--version", "9"]) == Some(r)
            && FromCreateBase(Operands(r)) != Some(r)
  {
    BaseExampleAccepted(["base", "jail", "--set", "--version", "9"]);
    BaseExampleFails(BaseItems("jail", "--set", Some("--version"), Some("9")));
  }

  lemma BaseExampleAccepted(args: seq<string>)
    requires args == ["base", "jail", "--set", "--version", "9"]
    ensures FromCreateBase(args) == Some(CreateBase("jail", "--set", Some("--version"), Some("9")))
  {
    assert IndexOf(args, "--set") == Some(2) && IndexOf(args, "--version") == Some(3);
    FromBase(args, "--set", Some("--version"), Some("9"));
  }

  lemma BaseExampleFails(items: seq<Item>)
    requires items == BaseItems("jail", "--set", Some("--version"), Some("9"))
    ensures FromCreateBase(Args(items)) != Some(CreateBase("jail", "--set", Some("--version"), Some("9")))
  {
    BaseDecodesIff("jail", "--set", Some("--version"), Some("9"));
    BaseDisturbed(items);
  }

  lemma BaseDisturbed(items: seq<Item>)
    requires items == BaseItems("jail", "--set", Some("--version"), Some("9"))
    ensures !BaseUndisturbed(items)
  {
    assert SaysFirst(items, "--set", 2);
    assert Diverted(items, 3, 2);
    assert Args(items[3..])[0] == "--set";
    assert !Undisturbed(items, 3);
  }

  lemma ProvisionExample()
    ensures var r := Provision("--container", "jail", "x", ["ansible"]);
            && FromProvision(["--container", "jail", "--service-dir", "--container", "--name", "x",
                              "--provisioner", "ansible"]) == Some(r)
            && FromProvision(Operands(r)) != Some(r)
  {
    var args := ["--container", "jail", "--service-dir", "--container", "--name", "x", "--provisioner", "ansible"];
    ProvisionExampleLookups(args);
    ProvisionExampleFails(args, "--container", "jail", "x", ["ansible"]);
  }

  lemma ProvisionExampleFails(args: seq<string>, d: string, c: string, n: string, provisioners: seq<string>)
    requires (c == "jail" || c == "vm") && provisioners != [] && d == "--container"
    requires NamedOption(args, "--service-dir") == Some(d) && NamedOption(args, "--container") == Some(c)
    requires NamedOption(args, "--name") == Some(n) && Repeated(args, "--provisioner") == Some(provisioners)
    ensures var r := Provision(d, c, n, provisioners);
            FromProvision(args) == Some(r) && FromProvision(Operands(r)) != Some(r)
  {
    ProvisionFrom(args, d, c, n, provisioners);
    ProvisionDecodesIff(d, c, n, provisioners);
  }

  lemma ProvisionExampleLookups(args: seq<string>)
    requires args == ["--container", "jail", "--service-dir", "--container", "--name", "x", "--provisioner", "ansible"]
    ensures NamedOption(args, "--service-dir") == Some("--container")
    ensures NamedOption(args, "--container") == Some("jail")
    ensures NamedOption(args, "--name") == Some("x") && Repeated(args, "--provisioner") == Some(["ansible"])
  {
    var third := ["--name", "x"] + ["--provisioner", "ansible"];
    var second := ["--service-dir", "--container"] + third;
    assert args == ["--container", "jail"] + second;
    UpRequest.LeadingOption("--container", "jail", second);
    UpRequest.SecondOption("--container", "jail", "--service-dir", "--container", third);
    SkipPrefix(["--container", "jail"], second, "--name");
    UpRequest.SecondOption("--service-dir", "--container", "--name", "x", ["--provisioner", "ansible"]);
    ProvisionExampleRepeats(args);
  }

  lemma ProvisionExampleRepeats(args: seq<string>)
    requires args == ["--container", "jail", "--service-dir", "--container", "--name", "x", "--provisioner", "ansible"]
    ensures Repeated(args, "--provisioner") == Some(["ansible"])
  {
    var front, tail := args[..6], args[6..];
    assert args == front + tail && "--provisioner" !in front && tail == ["--provisioner", "ansible"];
    UpRequest.RepeatedSkips(front, tail, "--provisioner");
    assert "ansible"[0] != "-"[0] && !StartsWith("ansible", "-");
    OneRepeated("--provisioner", "ansible", []);
    assert ["--provisioner", "ansible"] + [] == tail;
  }
}
