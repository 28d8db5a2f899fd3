/**
 Requests as trees: `request_from_args` builds one from an argument vector,
 `request_to_args` turns it back. Errors are not told apart.
 */
module Requests {
  import opened Wrappers
  import opened Text
  import opened Numbers
  import opened Arguments
  import opened Nvtree
  import SetRequest
  import UpRequest
  import VmRequest

  datatype Request =
    | CreateDataset(dataset: string)
    | CreateVolume(volume: string, size: nat)
    | CreateJail(name: string, pkgSet: Option<string>, base: Option<string>, version: Option<string>,
                 sshKey: Option<string>, start: bool, attach: bool)
    | CreateBase(resource: string, name: string, pkgSet: Option<string>, version: Option<string>)
    | CreateVm(vm: VmRequest.VmSpec)
    | Destroy(kind: string, name: string)
    | DestroyBase(resource: string, name: string)
    | Start(name: string, attach: bool, wait: bool)
    | Stop(name: string)
    | Attach(name: string)
    | Set(settings: SetRequest.Settings)
    | SetDependencies(kind: string, name: string, dependencies: seq<string>)
    | Enable(name: string)
    | Disable(name: string)
    | ListResources(resource: string)
    | Version
    | NetworkInit
    | Up(service: UpRequest.Service)
    | Down(service: UpRequest.Service)
    | Provision(serviceDir: string, container: string, name: string, provisioners: seq<string>)

  // The supported commands.
  datatype Command =
    | Creating | Destroying | Starting | Setting | Stopping | Attaching | ShowingVersion | InitializingNetwork
    | BringingUp | TakingDown | Provisioning | Listing | LinkingDependencies | Enabling | Disabling

  function CommandText(c: Command): string {
    match c
    case Creating => "create"
    case Destroying => "destroy"
    case Starting => "start"
    case Setting => "set"
    case Stopping => "stop"
    case Attaching => "attach"
    case ShowingVersion => "version"
    case InitializingNetwork => "network-init"
    case BringingUp => "up"
    case TakingDown => "down"
    case Provisioning => "provision"
    case Listing => "list"
    case LinkingDependencies => "dependencies"
    case Enabling => "enable"
    case Disabling => "disable"
  }

  function CommandOf(text: string): Option<Command> {
    if text == "create" then Some(Creating)
    else if text == "destroy" then Some(Destroying)
    else if text == "start" then Some(Starting)
    else if text == "set" then Some(Setting)
    else if text == "stop" then Some(Stopping)
    else if text == "attach" then Some(Attaching)
    else if text == "version" then Some(ShowingVersion)
    else if text == "network-init" then Some(InitializingNetwork)
    else if text == "up" then Some(BringingUp)
    else if text == "down" then Some(TakingDown)
    else if text == "provision" then Some(Provisioning)
    else if text == "list" then Some(Listing)
    else if text == "dependencies" then Some(LinkingDependencies)
    else if text == "enable" then Some(Enabling)
    else if text == "disable" then Some(Disabling)
    else None
  }

  lemma CommandTexts(c: Command)
    ensures CommandOf(CommandText(c)) == Some(c)
  {
  }

  // The command that a request belongs to.
  function CommandFor(r: Request): Command {
    match r
    case CreateDataset(_) => Creating
    case CreateVolume(_, _) => Creating
    case CreateJail(_, _, _, _, _, _, _) => Creating
    case CreateBase(_, _, _, _) => Creating
    case CreateVm(_) => Creating
    case Destroy(_, _) => Destroying
    case DestroyBase(_, _) => Destroying
    case Start(_, _, _) => Starting
    case Stop(_) => Stopping
    case Attach(_) => Attaching
    case Set(_) => Setting
    case SetDependencies(_, _, _) => LinkingDependencies
    case Enable(_) => Enabling
    case Disable(_) => Disabling
    case ListResources(_) => Listing
    case Version => ShowingVersion
    case NetworkInit => InitializingNetwork
    case Up(_) => BringingUp
    case Down(_) => TakingDown
    case Provision(_, _, _, _) => Provisioning
  }

  // ---- From arguments ----

  function Unflagged(args: seq<string>): seq<string> {
    if args == [] then []
    else (if args[0] == "--attach" || args[0] == "--wait" then [] else [args[0]]) + Unflagged(args[1..])
  }

  function FromCreate(rest: seq<string>): Option<Request> {
    var kind :- Arg(rest, 0);
    if kind == "dataset" then FromCreateDataset(rest)
    else if kind == "volume" then FromCreateVolume(rest)
    else if kind == "jail" then FromCreateJail(rest)
    else if kind == "base" then FromCreateBase(rest)
    else if kind == "vm" then FromCreateVm(rest)
    else None
  }

  function FromCreateDataset(rest: seq<string>): (r: Option<Request>)
    ensures r.Some? ==> r.value.CreateDataset?
  {
    var dataset :- Arg(rest, 1);
    if |rest| > 2 then None else Some(CreateDataset(dataset))
  }

  function FromCreateVolume(rest: seq<string>): (r: Option<Request>)
    ensures r.Some? ==> r.value.CreateVolume? && r.value.size < U64
  {
    var volume :- Arg(rest, 1);
    var sizeText :- NamedOption(rest, "--size");
    var size :- ParseSize(sizeText);
    Some(CreateVolume(volume, size))
  }

  function FromCreateJail(rest: seq<string>): (r: Option<Request>)
    ensures r.Some? ==> r.value.CreateJail?
  {
    var name :- Arg(rest, 1);
    var pkgSet :- OptionalOption(rest, "--set");
    var base :- OptionalOption(rest, "--base");
    var version :- OptionalOption(rest, "--version");
    var sshKey :- OptionalOption(rest, "--ssh-key");
    var start, attach := HasFlag(rest, "--start"), HasFlag(rest, "--attach");
    if attach && !start then None
    else Some(CreateJail(name, pkgSet, base, version, sshKey, start, attach))
  }

  function FromCreateVm(rest: seq<string>): (r: Option<Request>)
    ensures r.Some? ==> r.value.CreateVm?
  {
    var v :- VmRequest.EncodeVm(rest);
    Some(CreateVm(v))
  }

  function FromCreateBase(rest: seq<string>): (r: Option<Request>)
    ensures r.Some? ==> r.value.CreateBase?
  {
    var resource :- Arg(rest, 1);
    var name :- Arg(rest, 2);
    if resource == "jail" then
      var pkgSet :- OptionalOption(rest, "--set");
      var version :- OptionalOption(rest, "--version");
      Some(CreateBase(resource, name, pkgSet, version))
    else if resource == "vm" && |rest| <= 3 then Some(CreateBase(resource, name, None, None))
    else None
  }

  function FromDestroy(rest: seq<string>): Option<Request> {
    var kind :- Arg(rest, 0);
    if kind == "base" then
      var resource :- Arg(rest, 1);
      var name :- Arg(rest, 2);
      Some(DestroyBase(resource, name))
    else
      var name :- Arg(rest, 1);
      Some(Destroy(kind, name))
  }

  function FromStart(rest: seq<string>): Option<Request> {
    var name :- Arg(rest, 0);
    if |Unflagged(rest)| > 1 then None
    else Some(Start(name, HasFlag(rest, "--attach"), HasFlag(rest, "--wait")))
  }

  function FromDependencies(rest: seq<string>): Option<Request> {
    var kind :- Arg(rest, 0);
    var name :- Arg(rest, 1);
    var text :- Arg(rest, 2);
    Some(SetDependencies(kind, name, ParseList(text)))
  }

  function FromProvision(rest: seq<string>): Option<Request> {
    var serviceDir :- NamedOption(rest, "--service-dir");
    var container :- NamedOption(rest, "--container");
    if container != "jail" && container != "vm" then None
    else
      var name :- NamedOption(rest, "--name");
      var provisioners :- Repeated(rest, "--provisioner");
      if provisioners == [] then None else Some(Provision(serviceDir, container, name, provisioners))
  }

  function FromUp(up: bool, rest: seq<string>): Option<Request> {
    var s :- UpRequest.Decode(up, rest);
    Some(if up then Up(s) else Down(s))
  }

  function FromSet(rest: seq<string>): Option<Request> {
    var s :- SetRequest.Encode(rest);
    Some(Set(s))
  }

  function FromCommand(command: Command, rest: seq<string>): Option<Request> {
    match command
    case Creating => FromCreate(rest)
    case Destroying => FromDestroy(rest)
    case Starting => FromStart(rest)
    case Stopping => (var name :- Arg(rest, 0); Some(Stop(name)))
    case Attaching => (var name :- Arg(rest, 0); Some(Attach(name)))
    case Setting => FromSet(rest)
    case LinkingDependencies => FromDependencies(rest)
    case Enabling => if |rest| > 1 then None else (var name :- Arg(rest, 0); Some(Enable(name)))
    case Disabling => if |rest| > 1 then None else (var name :- Arg(rest, 0); Some(Disable(name)))
    case Listing => (var resource :- Arg(rest, 0); Some(ListResources(resource)))
    case ShowingVersion => if rest == [] then Some(Version) else None
    case InitializingNetwork => if rest == [] then Some(NetworkInit) else None
    case BringingUp => FromUp(true, rest)
    case TakingDown => FromUp(false, rest)
    case Provisioning => FromProvision(rest)
  }

  function FromArgs(args: seq<string>): Option<Request> {
    if args == [] then None
    else
      var command :- CommandOf(args[0]);
      FromCommand(command, args[1..])
  }

  // ---- The tree ----

  function OptStr(o: Option<string>): Option<Value> {
    if o.Some? then Some(Str(o.value)) else None
  }

  function OptNum(o: Option<nat>): Option<Value> {
    if o.Some? then Some(Num(o.value)) else None
  }

  function OptBool(o: Option<bool>): Option<Value> {
    if o.Some? then Some(Bool(o.value)) else None
  }

  function StrField(name: string, text: string): Field {
    Field(name, Some(Str(text)))
  }

  function ServiceFields(s: UpRequest.Service): seq<Field> {
    [StrField("container", "jail"), Field("develop", Some(Bool(s.develop))),
     StrField("service_dir", s.serviceDir), Field("provisioners", Some(List(s.provisioners))), StrField("name", s.name)]
  }

  function CallerFields(uid: nat, gid: nat): seq<Field> {
    [Field("caller_uid", Some(Num(uid))), Field("caller_gid", Some(Num(gid)))]
  }

  function VmFields(v: VmRequest.VmSpec): seq<Field> {
    [
      StrField("type", "vm"),
      Field("name", Some(Str(v.name))),
      Field("disk", Some(Str(v.disk))),
      Field("os", Some(Str(v.os))),
      Field("version", OptStr(v.version)),
      Field("firmware", OptStr(v.firmware)),
      Field("arch", OptStr(v.arch)),
      Field("cloud_init", Some(Bool(v.cloudInit))),
      Field("ssh_key", OptStr(v.sshKey)),
      Field("iso", OptStr(v.iso)),
      Field("vnc_port", OptNum(v.vncPort)),
      Field("vnc_bind", OptStr(v.vncBind)),
      Field("vnc_width", OptNum(v.vncWidth)),
      Field("vnc_height", OptNum(v.vncHeight)),
      Field("tpm", Some(Bool(v.tpm))),
      Field("cpus", OptNum(v.cpus)),
      Field("memory", OptStr(v.memory)),
      Field("start", Some(Bool(v.start))),
      Field("attach", Some(Bool(v.attach)))
    ]
  }

  function SetFields(s: SetRequest.Settings): seq<Field> {
    [
      Field("name", Some(Str(s.name))),
      Field("cpus", OptNum(s.cpus)),
      Field("memory", OptStr(s.memory)),
      Field("iso", OptStr(s.iso)),
      Field("remove_cd", Some(Bool(s.removeCd))),
      Field("vnc_port", OptNum(s.vncPort)),
      Field("vnc_bind", OptStr(s.vncBind)),
      Field("vnc_width", OptNum(s.vncWidth)),
      Field("vnc_height", OptNum(s.vncHeight)),
      Field("add_passthru", OptStr(s.addPassthru)),
      Field("remove_passthru", OptStr(s.removePassthru)),
      Field("dsp", OptStr(s.dsp)),
      Field("tpm", OptBool(s.tpm)),
      Field("sound", OptBool(s.sound))
    ]
  }

  function CreationFields(r: Request): seq<Field>
    requires CommandFor(r) == Creating
  {
    match r
    case CreateDataset(dataset) =>
      [StrField("type", "dataset"), StrField("dataset", dataset)]
    case CreateVolume(volume, size) =>
      [StrField("type", "volume"), StrField("volume", volume),
       Field("size", Some(Num(size)))]
    case CreateJail(name, pkgSet, base, version, sshKey, start, attach) =>
      [StrField("type", "jail"), StrField("name", name), Field("set", OptStr(pkgSet)),
       Field("base", OptStr(base)), Field("version", OptStr(version)), Field("ssh_key", OptStr(sshKey)),
       Field("start", Some(Bool(start))), Field("attach", Some(Bool(attach)))]
    case CreateBase(resource, name, pkgSet, version) =>
      [StrField("type", "base"), StrField("resource", resource), StrField("name", name),
       Field("set", OptStr(pkgSet)), Field("version", OptStr(version))]
    case CreateVm(v) => VmFields(v)
  }

  // The fields of a request after its command, in the order in which they are added.
  function Details(r: Request): seq<Field> {
    if CommandFor(r) == Creating then CreationFields(r)
    else match r
    case Destroy(kind, name) => [StrField("type", kind), StrField("name", name)]
    case DestroyBase(resource, name) =>
      [StrField("type", "base"), StrField("resource", resource), StrField("name", name)]
    case Start(name, attach, wait) =>
      [StrField("name", name), Field("attach", Some(Bool(attach))), Field("wait", Some(Bool(wait)))]
    case Stop(name) => [StrField("name", name)]
    case Attach(name) => [StrField("name", name)]
    case Set(s) => SetFields(s)
    case SetDependencies(kind, name, dependencies) =>
      [StrField("type", kind), StrField("name", name),
       Field("dependencies", Some(List(dependencies)))]
    case Enable(name) => [StrField("name", name)]
    case Disable(name) => [StrField("name", name)]
    case ListResources(resource) => [StrField("resource", resource)]
    case Version => []
    case NetworkInit => []
    case Up(s) => ServiceFields(s)
    case Down(s) => ServiceFields(s)
    case Provision(serviceDir, container, name, provisioners) =>
      [StrField("service_dir", serviceDir), StrField("container", container),
       StrField("name", name), Field("provisioners", Some(List(provisioners)))]
  }

  function OwnFields(r: Request): seq<Field> {
    [StrField("command", CommandText(CommandFor(r)))] + Details(r)
  }

  // A request to create or bring up something ends with the caller's ids.
  function Fields(r: Request, uid: nat, gid: nat): seq<Field> {
    OwnFields(r) + (if CommandFor(r).Creating? || CommandFor(r).BringingUp? then CallerFields(uid, gid) else [])
  }

  // `request_from_args`, run by the user `uid` of the group `gid`.
  function RequestFromArgs(args: seq<string>, uid: nat, gid: nat): Option<Tree> {
    var r :- FromArgs(args);
    Some(Present(Fields(r, uid, gid)))
  }

  // ---- Back to arguments ----

  function VmToArgs(tree: Tree): Option<seq<string>> {
    var name :- StringField(tree, "name");
    var disk :- StringField(tree, "disk");
    var os :- StringField(tree, "os");
    var cloudInit :- BoolField(tree, "cloud_init");
    var tpm :- BoolField(tree, "tpm");
    Some(Args(VmRequest.VmItems(VmRequest.VmSpec(
      name, disk, os, StringField(tree, "version"), StringField(tree, "firmware"), StringField(tree, "arch"),
      cloudInit, StringField(tree, "ssh_key"), StringField(tree, "iso"),
      NumberField(tree, "vnc_port"), StringField(tree, "vnc_bind"),
      NumberField(tree, "vnc_width"), NumberField(tree, "vnc_height"),
      tpm, NumberField(tree, "cpus"), StringField(tree, "memory"),
      BoolField(tree, "start") == Some(true), BoolField(tree, "attach") == Some(true)))))
  }

  function SetToArgs(tree: Tree): Option<seq<string>> {
    var name :- StringField(tree, "name");
    Some(SetRequest.ToArgs(SetRequest.Settings(
      name, NumberField(tree, "cpus"), StringField(tree, "memory"), StringField(tree, "iso"),
      BoolField(tree, "remove_cd") == Some(true),
      NumberField(tree, "vnc_port"), StringField(tree, "vnc_bind"),
      NumberField(tree, "vnc_width"), NumberField(tree, "vnc_height"),
      StringField(tree, "add_passthru"), StringField(tree, "remove_passthru"), StringField(tree, "dsp"),
      BoolField(tree, "tpm"), BoolField(tree, "sound"))))
  }

  // The branch for a jail asks for `cloud_init`, which encoding a jail never adds.
  function JailToArgs(tree: Tree): Option<seq<string>> {
    var name :- StringField(tree, "name");
    var cloudInit :- BoolField(tree, "cloud_init");
    Some(Args([
      Word("jail"), Word(name), Opt("--set", StringField(tree, "set")), Opt("--base", StringField(tree, "base")),
      Opt("--version", StringField(tree, "version")), Opt("--ssh-key", StringField(tree, "ssh_key")),
      Switch("--start", cloudInit), Switch("--attach", BoolField(tree, "attach") == Some(true))]))
  }

  function BaseToArgs(tree: Tree): Option<seq<string>> {
    var resource :- StringField(tree, "resource");
    var name :- StringField(tree, "name");
    Some(Args([Word("base"), Word(resource), Word(name),
               Opt("--set", StringField(tree, "set")), Opt("--version", StringField(tree, "version"))]))
  }

  function CreateToArgs(tree: Tree): Option<seq<string>> {
    var kind :- StringField(tree, "type");
    if kind == "dataset" then (var dataset :- StringField(tree, "dataset"); Some(["dataset", dataset]))
    else if kind == "volume" then
      var volume :- StringField(tree, "volume");
      var size :- NumberField(tree, "size");
      Some(["volume", volume, "--size", Print(size)])
    else if kind == "jail" then JailToArgs(tree)
    else if kind == "base" then BaseToArgs(tree)
    else if kind == "vm" then VmToArgs(tree)
    else None
  }

  function DestroyToArgs(tree: Tree): Option<seq<string>> {
    var kind :- StringField(tree, "type");
    var name :- StringField(tree, "name");
    if kind == "base" then (var resource :- StringField(tree, "resource"); Some([kind, resource, name]))
    else Some([kind, name])
  }

  function StartToArgs(tree: Tree): Option<seq<string>> {
    var name :- StringField(tree, "name");
    Some(Args([Word(name), Switch("--attach", BoolField(tree, "attach") == Some(true)),
               Switch("--wait", BoolField(tree, "wait") == Some(true))]))
  }

  function UpToArgs(up: bool, tree: Tree): Option<seq<string>> {
    var container :- StringField(tree, "container");
    var develop :- BoolField(tree, "develop");
    var serviceDir :- StringField(tree, "service_dir");
    var provisioners :- if up then ListField(tree, "provisioners") else Some([]);
    var name :- StringField(tree, "name");
    Some(["--container", container, "--develop", BoolText(develop), "--service-dir", serviceDir]
         + UpRequest.ProvisionerArgs(provisioners) + [name])
  }

  function ProvisionToArgs(tree: Tree): Option<seq<string>> {
    var serviceDir :- StringField(tree, "service_dir");
    var container :- StringField(tree, "container");
    var name :- StringField(tree, "name");
    var provisioners :- ListField(tree, "provisioners");
    Some(UpRequest.ProvisionOperands(serviceDir, container, name, provisioners))
  }

  function DependenciesToArgs(tree: Tree): Option<seq<string>> {
    var kind :- StringField(tree, "type");
    var name :- StringField(tree, "name");
    var dependencies :- ListField(tree, "dependencies");
    Some([kind, name, Join(dependencies, ',')])
  }

  function OneField(tree: Tree, field: string): Option<seq<string>> {
    var text :- StringField(tree, field);
    Some([text])
  }

  // `request_to_args`, after the command.
  function OperandsOf(command: Command, tree: Tree): Option<seq<string>> {
    match command
    case Creating => CreateToArgs(tree)
    case Destroying => DestroyToArgs(tree)
    case Starting => StartToArgs(tree)
    case Stopping => OneField(tree, "name")
    case Attaching => OneField(tree, "name")
    case Setting => SetToArgs(tree)
    case LinkingDependencies => DependenciesToArgs(tree)
    case Enabling => OneField(tree, "name")
    case Disabling => OneField(tree, "name")
    case Listing => OneField(tree, "resource")
    case ShowingVersion => Some([])
    case InitializingNetwork => Some([])
    case BringingUp => UpToArgs(true, tree)
    case TakingDown => UpToArgs(false, tree)
    case Provisioning => ProvisionToArgs(tree)
  }

  function RequestToArgs(tree: Tree): Option<seq<string>> {
    var text :- StringField(tree, "command");
    var command :- CommandOf(text);
    var operands :- OperandsOf(command, tree);
    Some([text] + operands)
  }
}
