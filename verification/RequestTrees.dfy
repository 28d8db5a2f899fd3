/** Reading the tree of a request yields the request's own operands. */
module RequestTrees {
  import opened Wrappers
  import opened Text
  import opened Numbers
  import opened Arguments
  import opened Nvtree
  import opened Requests
  import SetRequest
  import UpRequest
  import VmRequest

  function Operands(r: Request): seq<string>
    requires !r.CreateJail?
  {
    match r
    case CreateDataset(dataset) => ["dataset", dataset]
    case CreateVolume(volume, size) => ["volume", volume, "--size", Print(size)]
    case CreateBase(resource, name, pkgSet, version) =>
      Args([Word("base"), Word(resource), Word(name), Opt("--set", pkgSet), Opt("--version", version)])
    case CreateVm(v) => Args(VmRequest.VmItems(v))
    case Destroy(kind, name) => [kind, name]
    case DestroyBase(resource, name) => ["base", resource, name]
    case Start(name, attach, wait) => Args([Word(name), Switch("--attach", attach), Switch("--wait", wait)])
    case Stop(name) => [name]
    case Attach(name) => [name]
    case Set(s) => SetRequest.ToArgs(s)
    case SetDependencies(kind, name, dependencies) => [kind, name, Join(dependencies, ',')]
    case Enable(name) => [name]
    case Disable(name) => [name]
    case ListResources(resource) => [resource]
    case Version => []
    case NetworkInit => []
    case Up(s) => UpRequest.ToArgs(true, s)
    case Down(s) => UpRequest.ToArgs(false, s)
    case Provision(serviceDir, container, name, provisioners) =>
      UpRequest.ProvisionOperands(serviceDir, container, name, provisioners)
  }

  ghost predicate TreeHolds(tree: Tree, fields: seq<Field>) {
    forall k :: 0 <= k < |fields| ==> Find(tree, fields[k].name) == fields[k].value
  }

  lemma HoldsAt(tree: Tree, fields: seq<Field>, k: nat, name: string)
    requires TreeHolds(tree, fields) && k < |fields| && fields[k].name == name
    ensures Find(tree, name) == fields[k].value
  {
  }

  // ---- A tree that holds the fields of a VM ----

  ghost predicate VmOrigin(tree: Tree, v: VmRequest.VmSpec) {
    && StringField(tree, "name") == Some(v.name)
    && StringField(tree, "disk") == Some(v.disk)
    && StringField(tree, "os") == Some(v.os)
  }

  lemma VmOriginRead(tree: Tree, v: VmRequest.VmSpec)
    requires TreeHolds(tree, VmFields(v))
    ensures VmOrigin(tree, v)
  {
    var f := VmFields(v);
    HoldsAt(tree, f, 1, "name");
    HoldsAt(tree, f, 2, "disk");
    HoldsAt(tree, f, 3, "os");
  }

  ghost predicate VmImage(tree: Tree, v: VmRequest.VmSpec) {
    && StringField(tree, "version") == v.version
    && StringField(tree, "firmware") == v.firmware
    && StringField(tree, "arch") == v.arch
  }

  lemma VmImageRead(tree: Tree, v: VmRequest.VmSpec)
    requires TreeHolds(tree, VmFields(v))
    ensures VmImage(tree, v)
  {
    var f := VmFields(v);
    HoldsAt(tree, f, 4, "version");
    HoldsAt(tree, f, 5, "firmware");
    HoldsAt(tree, f, 6, "arch");
  }

  ghost predicate VmSetup(tree: Tree, v: VmRequest.VmSpec) {
    && BoolField(tree, "cloud_init") == Some(v.cloudInit)
    && StringField(tree, "ssh_key") == v.sshKey
    && StringField(tree, "iso") == v.iso
    && NumberField(tree, "vnc_port") == v.vncPort
  }

  lemma VmSetupRead(tree: Tree, v: VmRequest.VmSpec)
    requires TreeHolds(tree, VmFields(v))
    ensures VmSetup(tree, v)
  {
    var f := VmFields(v);
    HoldsAt(tree, f, 7, "cloud_init");
    HoldsAt(tree, f, 8, "ssh_key");
    HoldsAt(tree, f, 9, "iso");
    HoldsAt(tree, f, 10, "vnc_port");
  }

  ghost predicate VmScreen(tree: Tree, v: VmRequest.VmSpec) {
    && StringField(tree, "vnc_bind") == v.vncBind
    && NumberField(tree, "vnc_width") == v.vncWidth
    && NumberField(tree, "vnc_height") == v.vncHeight
    && BoolField(tree, "tpm") == Some(v.tpm)
  }

  lemma VmScreenRead(tree: Tree, v: VmRequest.VmSpec)
    requires TreeHolds(tree, VmFields(v))
    ensures VmScreen(tree, v)
  {
    var f := VmFields(v);
    HoldsAt(tree, f, 11, "vnc_bind");
    HoldsAt(tree, f, 12, "vnc_width");
    HoldsAt(tree, f, 13, "vnc_height");
    HoldsAt(tree, f, 14, "tpm");
  }

  ghost predicate VmSize(tree: Tree, v: VmRequest.VmSpec) {
    && NumberField(tree, "cpus") == v.cpus
    && StringField(tree, "memory") == v.memory
    && BoolField(tree, "start") == Some(v.start)
    && BoolField(tree, "attach") == Some(v.attach)
  }

  lemma VmSizeRead(tree: Tree, v: VmRequest.VmSpec)
    requires TreeHolds(tree, VmFields(v))
    ensures VmSize(tree, v)
  {
    var f := VmFields(v);
    HoldsAt(tree, f, 15, "cpus");
    HoldsAt(tree, f, 16, "memory");
    HoldsAt(tree, f, 17, "start");
    HoldsAt(tree, f, 18, "attach");
  }

  lemma VmOperands(tree: Tree, v: VmRequest.VmSpec)
    requires VmOrigin(tree, v) && VmImage(tree, v) && VmSetup(tree, v) && VmScreen(tree, v) && VmSize(tree, v)
    ensures VmToArgs(tree) == Some(Args(VmRequest.VmItems(v)))
  {
  }

  lemma VmRead(tree: Tree, v: VmRequest.VmSpec)
    requires TreeHolds(tree, VmFields(v))
    ensures CreateToArgs(tree) == Some(Args(VmRequest.VmItems(v)))
  {
    VmOriginRead(tree, v);
    VmImageRead(tree, v);
    VmSetupRead(tree, v);
    VmScreenRead(tree, v);
    VmSizeRead(tree, v);
    VmOperands(tree, v);
    HoldsAt(tree, VmFields(v), 0, "type");
    VmKind(tree);
  }

  lemma VmKind(tree: Tree)
    requires StringField(tree, "type") == Some("vm")
    ensures CreateToArgs(tree) == VmToArgs(tree)
  {
  }

  // ---- A tree that holds the fields of settings ----

  ghost predicate SetMachine(tree: Tree, s: SetRequest.Settings) {
    && StringField(tree, "name") == Some(s.name)
    && NumberField(tree, "cpus") == s.cpus
    && StringField(tree, "memory") == s.memory
    && StringField(tree, "iso") == s.iso
    && BoolField(tree, "remove_cd") == Some(s.removeCd)
  }

  lemma SetMachineRead(tree: Tree, s: SetRequest.Settings)
    requires TreeHolds(tree, SetFields(s))
    ensures SetMachine(tree, s)
  {
    var f := SetFields(s);
    HoldsAt(tree, f, 0, "name");
    HoldsAt(tree, f, 1, "cpus");
    HoldsAt(tree, f, 2, "memory");
    HoldsAt(tree, f, 3, "iso");
    HoldsAt(tree, f, 4, "remove_cd");
  }

  ghost predicate SetDevices(tree: Tree, s: SetRequest.Settings) {
    && NumberField(tree, "vnc_port") == s.vncPort
    && StringField(tree, "vnc_bind") == s.vncBind
    && NumberField(tree, "vnc_width") == s.vncWidth
    && NumberField(tree, "vnc_height") == s.vncHeight
    && StringField(tree, "add_passthru") == s.addPassthru
    && StringField(tree, "remove_passthru") == s.removePassthru
    && StringField(tree, "dsp") == s.dsp
    && BoolField(tree, "tpm") == s.tpm
    && BoolField(tree, "sound") == s.sound
  }

  lemma SetDevicesRead(tree: Tree, s: SetRequest.Settings)
    requires TreeHolds(tree, SetFields(s))
    ensures SetDevices(tree, s)
  {
    var f := SetFields(s);
    HoldsAt(tree, f, 5, "vnc_port");
    HoldsAt(tree, f, 6, "vnc_bind");
    HoldsAt(tree, f, 7, "vnc_width");
    HoldsAt(tree, f, 8, "vnc_height");
    HoldsAt(tree, f, 9, "add_passthru");
    HoldsAt(tree, f, 10, "remove_passthru");
    HoldsAt(tree, f, 11, "dsp");
    HoldsAt(tree, f, 12, "tpm");
    HoldsAt(tree, f, 13, "sound");
  }

  lemma SetRead(tree: Tree, s: SetRequest.Settings)
    requires TreeHolds(tree, SetFields(s))
    ensures SetToArgs(tree) == Some(SetRequest.ToArgs(s))
  {
    SetMachineRead(tree, s);
    SetDevicesRead(tree, s);
  }

  // ---- Trees of the other requests ----

  lemma ServiceRead(up: bool, tree: Tree, s: UpRequest.Service)
    requires TreeHolds(tree, ServiceFields(s))
    ensures UpToArgs(up, tree) == Some(UpRequest.ToArgs(up, s))
  {
    var own := ServiceFields(s);
    HoldsAt(tree, own, 0, "container");
    HoldsAt(tree, own, 1, "develop");
    HoldsAt(tree, own, 2, "service_dir");
    HoldsAt(tree, own, 3, "provisioners");
    HoldsAt(tree, own, 4, "name");
    assert UpRequest.ProvisionerArgs([]) == [];
  }

  lemma DatasetRead(tree: Tree, r: Request, fields: seq<Field>)
    requires r.CreateDataset? && fields == Details(r) && TreeHolds(tree, fields)
    ensures CreateToArgs(tree) == Some(Operands(r))
  {
    HoldsAt(tree, fields, 0, "type");
    HoldsAt(tree, fields, 1, "dataset");
  }

  lemma VolumeRead(tree: Tree, r: Request, fields: seq<Field>)
    requires r.CreateVolume? && fields == Details(r) && TreeHolds(tree, fields)
    ensures CreateToArgs(tree) == Some(Operands(r))
  {
    HoldsAt(tree, fields, 0, "type");
    HoldsAt(tree, fields, 1, "volume");
    HoldsAt(tree, fields, 2, "size");
  }

  lemma BaseRead(tree: Tree, r: Request, fields: seq<Field>)
    requires r.CreateBase? && fields == Details(r) && TreeHolds(tree, fields)
    ensures CreateToArgs(tree) == Some(Operands(r))
  {
    HoldsAt(tree, fields, 0, "type");
    HoldsAt(tree, fields, 1, "resource");
    HoldsAt(tree, fields, 2, "name");
    HoldsAt(tree, fields, 3, "set");
    HoldsAt(tree, fields, 4, "version");
  }

  lemma ProvisionRead(tree: Tree, r: Request, fields: seq<Field>)
    requires r.Provision? && fields == Details(r) && TreeHolds(tree, fields)
    ensures ProvisionToArgs(tree) == Some(Operands(r))
  {
    HoldsAt(tree, fields, 0, "service_dir");
    HoldsAt(tree, fields, 1, "container");
    HoldsAt(tree, fields, 2, "name");
    HoldsAt(tree, fields, 3, "provisioners");
  }

  lemma DestroyRead(tree: Tree, r: Request, fields: seq<Field>)
    requires (r.Destroy? && r.kind != "base") || r.DestroyBase?
    requires fields == Details(r) && TreeHolds(tree, fields)
    ensures DestroyToArgs(tree) == Some(Operands(r))
  {
    HoldsAt(tree, fields, 0, "type");
    if r.Destroy? {
      HoldsAt(tree, fields, 1, "name");
    } else {
      HoldsAt(tree, fields, 1, "resource");
      HoldsAt(tree, fields, 2, "name");
    }
  }

  lemma StartRead(tree: Tree, r: Request, fields: seq<Field>)
    requires r.Start? && fields == Details(r) && TreeHolds(tree, fields)
    ensures StartToArgs(tree) == Some(Operands(r))
  {
    HoldsAt(tree, fields, 0, "name");
    HoldsAt(tree, fields, 1, "attach");
    HoldsAt(tree, fields, 2, "wait");
  }

  lemma DependenciesRead(tree: Tree, r: Request, fields: seq<Field>)
    requires r.SetDependencies? && fields == Details(r) && TreeHolds(tree, fields)
    ensures DependenciesToArgs(tree) == Some(Operands(r))
  {
    HoldsAt(tree, fields, 0, "type");
    HoldsAt(tree, fields, 1, "name");
    HoldsAt(tree, fields, 2, "dependencies");
  }

  predicate IsNamed(r: Request) {
    r.Stop? || r.Attach? || r.Enable? || r.Disable?
  }

  lemma NamedRead(tree: Tree, r: Request, fields: seq<Field>)
    requires IsNamed(r) && fields == Details(r) && TreeHolds(tree, fields)
    ensures OneField(tree, "name") == Some(Operands(r))
  {
    HoldsAt(tree, fields, 0, "name");
  }

  lemma ResourceRead(tree: Tree, r: Request, fields: seq<Field>)
    requires r.ListResources? && fields == Details(r) && TreeHolds(tree, fields)
    ensures OneField(tree, "resource") == Some(Operands(r))
  {
    HoldsAt(tree, fields, 0, "resource");
  }

  // ---- All requests ----

  lemma CreateRead(tree: Tree, r: Request, fields: seq<Field>)
    requires CommandFor(r) == Creating && !r.CreateJail? && fields == Details(r) && TreeHolds(tree, fields)
    ensures CreateToArgs(tree) == Some(Operands(r))
  {
    match r {
      case CreateDataset(_) => DatasetRead(tree, r, fields);
      case CreateVolume(_, _) => VolumeRead(tree, r, fields);
      case CreateBase(_, _, _, _) => BaseRead(tree, r, fields);
      case CreateVm(v) => VmRead(tree, v);
      case _ =>
    }
  }

  lemma OperandsRead(tree: Tree, r: Request, fields: seq<Field>)
    requires !r.CreateJail? && (r.Destroy? ==> r.kind != "base") && fields == Details(r) && TreeHolds(tree, fields)
    ensures OperandsOf(CommandFor(r), tree) == Some(Operands(r))
  {
    match CommandFor(r) {
      case Creating => CreateRead(tree, r, fields);
      case Destroying => DestroyRead(tree, r, fields);
      case Starting => StartRead(tree, r, fields);
      case Setting => SetRead(tree, r.settings);
      case BringingUp => ServiceRead(true, tree, r.service);
      case TakingDown => ServiceRead(false, tree, r.service);
      case Provisioning => ProvisionRead(tree, r, fields);
      case Listing => ResourceRead(tree, r, fields);
      case LinkingDependencies => DependenciesRead(tree, r, fields);
      case ShowingVersion =>
      case InitializingNetwork =>
      case _ => NamedRead(tree, r, fields);
    }
  }

  const VM_FIELDS: seq<string> := ["type", "name", "disk", "os", "version", "firmware", "arch",
                                   "cloud_init", "ssh_key", "iso", "vnc_port", "vnc_bind", "vnc_width", "vnc_height",
                                   "tpm", "cpus", "memory", "start", "attach"]

  lemma VmFieldNamesDiffer()
    ensures forall i, j :: 0 <= i < j < |VM_FIELDS| ==> VM_FIELDS[i] != VM_FIELDS[j]
    ensures forall i :: 0 <= i < |VM_FIELDS| ==> !IsReserved(VM_FIELDS[i])
  {
  }

  lemma VmFieldNames(v: VmRequest.VmSpec)
    ensures |VmFields(v)| == |VM_FIELDS|
    ensures forall i :: 0 <= i < |VmFields(v)| ==> VmFields(v)[i].name == VM_FIELDS[i]
  {
  }

  predicate IsReserved(name: string) {
    name == "command" || name == "caller_uid" || name == "caller_gid"
  }

  // The names are distinct and leave those of the command and the caller's ids alone.
  ghost predicate OwnNames(fields: seq<Field>) {
    NamesDiffer(fields) && forall i :: 0 <= i < |fields| ==> !IsReserved(fields[i].name)
  }

  lemma VmNames(v: VmRequest.VmSpec)
    ensures OwnNames(VmFields(v))
  {
    VmFieldNames(v);
    VmFieldNamesDiffer();
  }

  lemma SetNames(s: SetRequest.Settings)
    ensures OwnNames(SetFields(s))
  {
  }

  lemma ServiceNames(s: UpRequest.Service)
    ensures OwnNames(ServiceFields(s))
  {
  }

  lemma CreationNames(r: Request)
    requires CommandFor(r) == Creating
    ensures OwnNames(CreationFields(r))
  {
    if r.CreateVm? {
      VmNames(r.vm);
    } else if r.CreateJail? {
      JailNames(r);
    } else {
      OtherCreationNames(r);
    }
  }

  lemma JailNames(r: Request)
    requires r.CreateJail?
    ensures OwnNames(CreationFields(r))
  {
  }

  lemma OtherCreationNames(r: Request)
    requires CommandFor(r) == Creating && !r.CreateVm? && !r.CreateJail?
    ensures OwnNames(CreationFields(r))
  {
  }

  lemma DetailNames(r: Request)
    ensures OwnNames(Details(r))
  {
    if CommandFor(r) == Creating {
      CreationNames(r);
    } else if r.Set? {
      SetNames(r.settings);
    } else if r.Up? || r.Down? {
      ServiceNames(r.service);
    } else {
      OtherNames(r);
    }
  }

  lemma OtherNames(r: Request)
    requires CommandFor(r) != Creating && !r.Set? && !r.Up? && !r.Down?
    ensures OwnNames(Details(r))
  {
  }

  lemma AllNames(command: string, details: seq<Field>, uid: nat, gid: nat)
    requires OwnNames(details)
    ensures NamesDiffer([StrField("command", command)] + details)
    ensures NamesDiffer([StrField("command", command)] + details + CallerFields(uid, gid))
  {
  }

  // The tree of a request holds the request's own fields.
  lemma OwnFieldsHold(r: Request, uid: nat, gid: nat)
    ensures TreeHolds(Present(Fields(r, uid, gid)), OwnFields(r))
  {
    DetailNames(r);
    AllNames(CommandText(CommandFor(r)), Details(r), uid, gid);
    PrefixHolds(Fields(r, uid, gid), OwnFields(r));
  }

  lemma PrefixHolds(fields: seq<Field>, own: seq<Field>)
    requires NamesDiffer(fields) && own <= fields
    ensures TreeHolds(Present(fields), own)
  {
    FindFields(fields);
    forall k | 0 <= k < |own|
      ensures Find(Present(fields), own[k].name) == own[k].value
    {
      assert own[k] == fields[k];
    }
  }

  // The tree names its command and, where something is created or brought up, whoever asks.
  lemma CallerIsNamed(r: Request, uid: nat, gid: nat)
    ensures var tree := Present(Fields(r, uid, gid));
            && StringField(tree, "command") == Some(CommandText(CommandFor(r)))
            && if CommandFor(r).Creating? || CommandFor(r).BringingUp?
               then NumberField(tree, "caller_uid") == Some(uid) && NumberField(tree, "caller_gid") == Some(gid)
               else Find(tree, "caller_uid") == None && Find(tree, "caller_gid") == None
  {
    var fields := Fields(r, uid, gid);
    OwnFieldsHold(r, uid, gid);
    HoldsAt(Present(fields), OwnFields(r), 0, "command");
    DetailNames(r);
    AllNames(CommandText(CommandFor(r)), Details(r), uid, gid);
    if CommandFor(r).Creating? || CommandFor(r).BringingUp? {
      FindField(fields, |OwnFields(r)|);
      FindField(fields, |OwnFields(r)| + 1);
    } else {
      assert fields == OwnFields(r);
      forall i | 0 <= i < |fields|
        ensures fields[i].name != "caller_uid" && fields[i].name != "caller_gid"
      {
        if i > 0 { assert fields[i] == Details(r)[i - 1]; }
      }
      FindAbsent(fields, "caller_uid");
      FindAbsent(fields, "caller_gid");
    }
  }

  // What the daemon finds in the tree of a jail creation.
  lemma JailIsRead(r: Request, uid: nat, gid: nat)
    requires r.CreateJail?
    ensures var tree := Present(Fields(r, uid, gid));
            && StringField(tree, "type") == Some("jail") && StringField(tree, "name") == Some(r.name)
            && StringField(tree, "set") == r.pkgSet && StringField(tree, "base") == r.base
            && StringField(tree, "version") == r.version && StringField(tree, "ssh_key") == r.sshKey
            && BoolField(tree, "start") == Some(r.start) && BoolField(tree, "attach") == Some(r.attach)
  {
    var tree, f := Present(Fields(r, uid, gid)), Details(r);
    OwnFieldsHold(r, uid, gid);
    DetailsHold(tree, r);
    HoldsAt(tree, f, 0, "type");
    HoldsAt(tree, f, 1, "name");
    JailImageRead(tree, r, f);
    HoldsAt(tree, f, 5, "ssh_key");
    HoldsAt(tree, f, 6, "start");
    HoldsAt(tree, f, 7, "attach");
  }

  lemma JailImageRead(tree: Tree, r: Request, f: seq<Field>)
    requires r.CreateJail? && f == Details(r) && TreeHolds(tree, f)
    ensures StringField(tree, "set") == r.pkgSet && StringField(tree, "base") == r.base
    ensures StringField(tree, "version") == r.version
  {
    HoldsAt(tree, f, 2, "set");
    HoldsAt(tree, f, 3, "base");
    HoldsAt(tree, f, 4, "version");
  }

  lemma DetailsHold(tree: Tree, r: Request)
    requires TreeHolds(tree, OwnFields(r))
    ensures TreeHolds(tree, Details(r))
  {
    forall k | 0 <= k < |Details(r)|
      ensures Find(tree, Details(r)[k].name) == Details(r)[k].value
    {
      assert OwnFields(r)[k + 1] == Details(r)[k];
    }
  }

  lemma Dispatch(tree: Tree, command: Command)
    requires StringField(tree, "command") == Some(CommandText(command))
    ensures RequestToArgs(tree) ==
            match OperandsOf(command, tree) case None => None case Some(a) => Some([CommandText(command)] + a)
  {
    CommandTexts(command);
  }

  lemma Dispatched(tree: Tree, r: Request)
    requires TreeHolds(tree, OwnFields(r))
    ensures RequestToArgs(tree) ==
            match OperandsOf(CommandFor(r), tree)
            case None => None
            case Some(a) => Some([CommandText(CommandFor(r))] + a)
  {
    HoldsAt(tree, OwnFields(r), 0, "command");
    Dispatch(tree, CommandFor(r));
  }

  // Turning the tree of a request into arguments gives its command and operands.
  lemma TreeReads(r: Request, uid: nat, gid: nat)
    requires !r.CreateJail? && (r.Destroy? ==> r.kind != "base")
    ensures RequestToArgs(Present(Fields(r, uid, gid))) == Some([CommandText(CommandFor(r))] + Operands(r))
  {
    OwnFieldsHold(r, uid, gid);
    DetailsHold(Present(Fields(r, uid, gid)), r);
    OperandsRead(Present(Fields(r, uid, gid)), r, Details(r));
    Dispatched(Present(Fields(r, uid, gid)), r);
  }

  // The tree of a request to create a jail lacks a field that turning it into arguments
  // asks for.
  lemma JailNeverReads(r: Request, uid: nat, gid: nat)
    requires r.CreateJail?
    ensures RequestToArgs(Present(Fields(r, uid, gid))) == None
  {
    var tree := Present(Fields(r, uid, gid));
    OwnFieldsHold(r, uid, gid);
    NoCloudInit(r, uid, gid);
    FindAbsent(Fields(r, uid, gid), "cloud_init");
    DetailsHold(tree, r);
    JailKind(tree, Details(r), r);
    Dispatched(tree, r);
  }

  lemma NoCloudInit(r: Request, uid: nat, gid: nat)
    requires r.CreateJail?
    ensures forall i :: 0 <= i < |Fields(r, uid, gid)| ==> Fields(r, uid, gid)[i].name != "cloud_init"
  {
  }

  lemma JailKind(tree: Tree, fields: seq<Field>, r: Request)
    requires r.CreateJail? && fields == Details(r) && TreeHolds(tree, fields)
    requires Find(tree, "cloud_init") == None
    ensures CreateToArgs(tree) == None
  {
    HoldsAt(tree, fields, 0, "type");
    assert JailToArgs(tree) == None;
  }
}
