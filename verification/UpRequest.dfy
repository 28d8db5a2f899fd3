/**
 The `up` and `down` requests: the producer of their arguments in the service manifest
 code and the three scans that decode them, by first occurrence, by repetition and by
 position.
 */
module UpRequest {
  import opened Wrappers
  import opened Text
  import opened Arguments

  datatype Manifest = Manifest(name: string, container: string, develop: bool, provisioners: seq<string>)

  // A decoded request; its container is always "jail".
  datatype Service = Service(name: string, develop: bool, serviceDir: string, provisioners: seq<string>)

  predicate IsServiceOption(text: string) {
    text == "--container" || text == "--develop" || text == "--service-dir" || text == "--provisioner"
  }

  // The positional scan: the one argument that is neither an option nor an option's value.
  function ScanName(rest: seq<string>, found: Option<string>): Option<Option<string>>
    decreases |rest|
  {
    if rest == [] then Some(found)
    else if IsServiceOption(rest[0]) then
      ScanName(if |rest| >= 2 then rest[2..] else [], found)
    else if StartsWith(rest[0], "-") || found.Some? then None
    else ScanName(rest[1..], Some(rest[0]))
  }

  method FindName(args: seq<string>) returns (r: Option<Option<string>>)
    ensures r == ScanName(args, None)
  {
    var name: Option<string> := None;
    var index := 0;
    while index < |args|
      invariant 0 <= index
      invariant ScanName(args, None) == ScanName(if index <= |args| then args[index..] else [], name)
    {
      assert args[index..][1..] == args[index + 1..];
      if IsServiceOption(args[index]) {
        assert index + 2 <= |args| ==> args[index..][2..] == args[index + 2..];
        index := index + 2;
      } else if StartsWith(args[index], "-") || name.Some? {
        return None;
      } else {
        name := Some(args[index]);
        index := index + 1;
      }
    }
    return Some(name);
  }

  // The decoding of the arguments after the command; `up` also collects provisioners.
  function Decode(up: bool, args: seq<string>): Option<Service> {
    var container :- OptionalOption(args, "--container");
    if container.GetOr("jail") != "jail" then None
    else
      var developText :- OptionalOption(args, "--develop");
      var develop :- ParseBool(developText.GetOr("false"));
      var serviceDirOption :- OptionalOption(args, "--service-dir");
      var serviceDir :- serviceDirOption;
      var provisioners :- if up then Repeated(args, "--provisioner") else Some([]);
      var nameOption :- ScanName(args, None);
      var name :- nameOption;
      if StartsWith(name, "-") then None else Some(Service(name, develop, serviceDir, provisioners))
  }

  // `request_to_args` for these requests, after the command.
  function ToArgs(up: bool, s: Service): seq<string> {
    ["--container", "jail", "--develop", BoolText(s.develop), "--service-dir", s.serviceDir]
    + (if up then ProvisionerArgs(s.provisioners) else [])
    + [s.name]
  }

  function ProvisionerArgs(provisioners: seq<string>): seq<string> {
    if provisioners == [] then []
    else ["--provisioner", provisioners[0]] + ProvisionerArgs(provisioners[1..])
  }

  // `up_args`: what the client derives from a manifest in directory `dir`.
  method UpArgs(m: Manifest, dir: string) returns (r: Option<seq<string>>)
    ensures r == if m.container == "jail"
                 then Some(["up"] + ToArgs(true, Service(m.name, m.develop, dir, m.provisioners))) else None
  {
    if m.container != "jail" {
      return None;
    }
    var args := ["up", "--container", m.container, "--develop", BoolText(m.develop), "--service-dir", dir];
    ghost var start := args;
    var i := 0;
    while i < |m.provisioners|
      invariant 0 <= i <= |m.provisioners|
      invariant args + ProvisionerArgs(m.provisioners[i..]) == start + ProvisionerArgs(m.provisioners)
    {
      assert m.provisioners[i..][1..] == m.provisioners[i + 1..];
      assert args + (["--provisioner", m.provisioners[i]] + ProvisionerArgs(m.provisioners[i + 1..]))
          == args + ["--provisioner", m.provisioners[i]] + ProvisionerArgs(m.provisioners[i + 1..]);
      args := args + ["--provisioner", m.provisioners[i]];
      i := i + 1;
    }
    assert args == start + ProvisionerArgs(m.provisioners);
    assert start == ["up"] + ["--container", "jail", "--develop", BoolText(m.develop), "--service-dir", dir];
    assert args + [m.name] == ["up"] + ToArgs(true, Service(m.name, m.develop, dir, m.provisioners));
    return Some(args + [m.name]);
  }

  // `provision_args`: only "ansible" can be listed, and something must be.
  method ProvisionArgs(m: Manifest, dir: string) returns (r: Option<seq<string>>)
    ensures r == if m.provisioners != [] && AllAnsible(m.provisioners)
                 then Some(["provision"] + ProvisionOperands(dir, m.container, m.name, m.provisioners)) else None
  {
    if m.provisioners == [] || !AllAnsible(m.provisioners) {
      return None;
    }
    var args := ["provision", "--service-dir", dir, "--container", m.container, "--name", m.name];
    ghost var start := args;
    var i := 0;
    while i < |m.provisioners|
      invariant 0 <= i <= |m.provisioners|
      invariant args + ProvisionerArgs(m.provisioners[i..]) == start + ProvisionerArgs(m.provisioners)
    {
      assert m.provisioners[i..][1..] == m.provisioners[i + 1..];
      assert args + (["--provisioner", m.provisioners[i]] + ProvisionerArgs(m.provisioners[i + 1..]))
          == args + ["--provisioner", m.provisioners[i]] + ProvisionerArgs(m.provisioners[i + 1..]);
      args := args + ["--provisioner", m.provisioners[i]];
      i := i + 1;
    }
    assert args == start + ProvisionerArgs(m.provisioners);
    assert start == ["provision"] + ["--service-dir", dir, "--container", m.container, "--name", m.name];
    assert args == ["provision"] + ProvisionOperands(dir, m.container, m.name, m.provisioners);
    return Some(args);
  }

  predicate AllAnsible(provisioners: seq<string>) {
    forall i :: 0 <= i < |provisioners| ==> provisioners[i] == "ansible"
  }

  function ProvisionOperands(dir: string, container: string, name: string, provisioners: seq<string>): seq<string> {
    ["--service-dir", dir, "--container", container, "--name", name] + ProvisionerArgs(provisioners)
  }

  predicate NoDash(texts: seq<string>) {
    forall i :: 0 <= i < |texts| ==> !StartsWith(texts[i], "-")
  }

  lemma {:induction false} RepeatedSkips(a: seq<string>, b: seq<string>, o: string)
    requires o !in a
    ensures Repeated(a + b, o) == Repeated(b, o)
    decreases |a|
  {
    if a == [] {
      assert a + b == b;
    } else {
      assert (a + b)[1..] == a[1..] + b && a[0] in a;
      RepeatedSkips(a[1..], b, o);
    }
  }

  // The repeated scan over provisioners followed by a word.
  lemma {:induction false} RepeatedProvisioners(provisioners: seq<string>, name: string)
    ensures Repeated(ProvisionerArgs(provisioners) + [name], "--provisioner") ==
            if NoDash(provisioners) && name != "--provisioner" then Some(provisioners) else None
  {
    var o := "--provisioner";
    if provisioners != [] {
      var rest := ProvisionerArgs(provisioners[1..]) + [name];
      var args := ProvisionerArgs(provisioners) + [name];
      assert args == ["--provisioner", provisioners[0]] + rest;
      assert args[2..] == rest;
      RepeatedProvisioners(provisioners[1..], name);
      NoDashStep(provisioners);
      assert [provisioners[0]] + provisioners[1..] == provisioners;
    } else {
      assert ProvisionerArgs(provisioners) + [name] == [name];
      assert Repeated([], o) == Some([]);
    }
  }

  lemma NoDashStep(texts: seq<string>)
    requires texts != []
    ensures NoDash(texts) <==> !StartsWith(texts[0], "-") && NoDash(texts[1..])
  {
    if NoDash(texts[1..]) && !StartsWith(texts[0], "-") {
      forall i | 0 <= i < |texts|
        ensures !StartsWith(texts[i], "-")
      {
        if i > 0 { assert texts[i] == texts[1..][i - 1]; }
      }
    }
  }

  // The positional scan over the same.
  lemma {:induction false} ScanProvisioners(provisioners: seq<string>, name: string)
    ensures ScanName(ProvisionerArgs(provisioners) + [name], None) ==
            if IsServiceOption(name) then Some(None)
            else if StartsWith(name, "-") then None else Some(Some(name))
  {
    if provisioners != [] {
      var rest := ProvisionerArgs(provisioners[1..]) + [name];
      var args := ProvisionerArgs(provisioners) + [name];
      assert args == ["--provisioner", provisioners[0]] + rest;
      assert args[2..] == rest;
      ScanProvisioners(provisioners[1..], name);
    } else {
      assert ProvisionerArgs(provisioners) + [name] == [name];
      assert [name][1..] == [];
      assert ScanName([], Some(name)) == Some(Some(name));
    }
  }

  function Head(develop: bool, serviceDir: string): seq<string> {
    ["--container", "jail", "--develop", BoolText(develop), "--service-dir", serviceDir]
  }

  lemma LeadingOption(o: string, v: string, rest: seq<string>)
    ensures OptionalOption([o, v] + rest, o) == Some(Some(v))
  {
    assert IndexOf([o, v] + rest, o) == Some(0);
  }

  lemma SecondOption(a: string, b: string, o: string, v: string, rest: seq<string>)
    requires o != a && o != b
    ensures OptionalOption([a, b] + ([o, v] + rest), o) == Some(Some(v))
  {
    SkipPrefix([a, b], [o, v] + rest, o);
    LeadingOption(o, v, rest);
  }

  // Whatever follows, the three single options are found where they were put.
  lemma HeadLookups(develop: bool, serviceDir: string, tail: seq<string>)
    ensures var args := Head(develop, serviceDir) + tail;
            && OptionalOption(args, "--container") == Some(Some("jail"))
            && OptionalOption(args, "--develop") == Some(Some(BoolText(develop)))
            && OptionalOption(args, "--service-dir") == Some(Some(serviceDir))
  {
    var args := Head(develop, serviceDir) + tail;
    var third := ["--service-dir", serviceDir] + tail;
    var second := ["--develop", BoolText(develop)] + third;
    assert args == ["--container", "jail"] + second;
    LeadingOption("--container", "jail", second);
    SecondOption("--container", "jail", "--develop", BoolText(develop), third);
    SecondOption("--develop", BoolText(develop), "--service-dir", serviceDir, tail);
    SkipPrefix(["--container", "jail"], second, "--service-dir");
  }

  lemma HeadScan(develop: bool, serviceDir: string, tail: seq<string>)
    ensures ScanName(Head(develop, serviceDir) + tail, None) == ScanName(tail, None)
  {
    var args := Head(develop, serviceDir) + tail;
    var third := ["--service-dir", serviceDir] + tail;
    var second := ["--develop", BoolText(develop)] + third;
    assert args == ["--container", "jail"] + second;
    assert args[2..] == second && second[2..] == third && third[2..] == tail;
    assert ScanName(args, None) == ScanName(second, None);
    assert ScanName(second, None) == ScanName(third, None);
  }

  lemma ValueTakenForOption(provisioners: seq<string>, name: string)
    ensures Repeated(["--provisioner"] + (ProvisionerArgs(provisioners) + [name]), "--provisioner")
            != Some(provisioners)
  {
    var tail := ProvisionerArgs(provisioners) + [name];
    var args := ["--provisioner"] + tail;
    assert args[1] == tail[0];
    if provisioners != [] {
      assert tail[0] == "--provisioner";
    } else if Repeated(args, "--provisioner").Some? {
      assert |Repeated(args, "--provisioner").value| >= 1;
    }
  }

  lemma DecodedProvisioners(args: seq<string>, s: Service)
    requires Decode(true, args) == Some(s)
    ensures Repeated(args, "--provisioner") == Some(s.provisioners)
  {
  }

  // A directory that is called like the repeated option is taken for that option.
  lemma DirectoryTakenForOption(s: Service)
    requires s.serviceDir == "--provisioner"
    ensures Decode(true, ToArgs(true, s)) != Some(s)
  {
    var front := ["--container", "jail", "--develop", BoolText(s.develop), "--service-dir"];
    var tail := ProvisionerArgs(s.provisioners) + [s.name];
    assert ToArgs(true, s) == front + (["--provisioner"] + tail);
    RepeatedSkips(front, ["--provisioner"] + tail, "--provisioner");
    ValueTakenForOption(s.provisioners, s.name);
    if Decode(true, ToArgs(true, s)) == Some(s) {
      DecodedProvisioners(ToArgs(true, s), s);
    }
  }

  // Decoding the arguments produced for a service gives back the service exactly if its
  // directory is not called "--provisioner" and neither its name nor a provisioner
  // starts with a dash.
  lemma DecodeOfToArgsIff(s: Service)
    ensures Decode(true, ToArgs(true, s)) == Some(s) <==>
            s.serviceDir != "--provisioner" && NoDash(s.provisioners) && !StartsWith(s.name, "-")
  {
    if s.serviceDir == "--provisioner" {
      DirectoryTakenForOption(s);
    } else {
      HeadOfArgs(s, ToArgs(true, s));
      TailOfArgs(s, ToArgs(true, s));
      ScanProvisioners(s.provisioners, s.name);
      RepeatedProvisioners(s.provisioners, s.name);
    }
  }

  lemma HeadOfArgs(s: Service, args: seq<string>)
    requires args == ToArgs(true, s)
    ensures OptionalOption(args, "--container") == Some(Some("jail"))
    ensures OptionalOption(args, "--develop") == Some(Some(BoolText(s.develop)))
    ensures OptionalOption(args, "--service-dir") == Some(Some(s.serviceDir))
  {
    var tail := ProvisionerArgs(s.provisioners) + [s.name];
    assert args == Head(s.develop, s.serviceDir) + tail;
    HeadLookups(s.develop, s.serviceDir, tail);
  }

  // The scans for the name and the provisioners go through the head to what follows.
  lemma TailOfArgs(s: Service, args: seq<string>)
    requires args == ToArgs(true, s) && s.serviceDir != "--provisioner"
    ensures var tail := ProvisionerArgs(s.provisioners) + [s.name];
            && ScanName(args, None) == ScanName(tail, None)
            && Repeated(args, "--provisioner") == Repeated(tail, "--provisioner")
  {
    var head, tail := Head(s.develop, s.serviceDir), ProvisionerArgs(s.provisioners) + [s.name];
    assert args == head + tail;
    HeadScan(s.develop, s.serviceDir, tail);
    RepeatedSkips(head, tail, "--provisioner");
  }

  lemma {:induction false} RepeatedNoDash(args: seq<string>, o: string)
    ensures Repeated(args, o).Some? ==> NoDash(Repeated(args, o).value)
    decreases |args|
  {
    if args != [] {
      if args[0] != o {
        RepeatedNoDash(args[1..], o);
      } else if |args| >= 2 {
        RepeatedNoDash(args[2..], o);
      }
    }
  }

  lemma DecodedShape(up: bool, args: seq<string>, s: Service)
    requires Decode(up, args) == Some(s)
    ensures NoDash(s.provisioners) && !StartsWith(s.name, "-") && (!up ==> s.provisioners == [])
  {
    RepeatedNoDash(args, "--provisioner");
  }

  lemma DownRoundTrip(s: Service)
    requires s.provisioners == [] && !StartsWith(s.name, "-")
    ensures Decode(false, ToArgs(false, s)) == Some(s)
  {
    assert ToArgs(false, s) == Head(s.develop, s.serviceDir) + [s.name];
    HeadLookups(s.develop, s.serviceDir, [s.name]);
    HeadScan(s.develop, s.serviceDir, [s.name]);
    ScanProvisioners([], s.name);
    assert ProvisionerArgs([]) + [s.name] == [s.name];
  }

  // The same for `down`, which lists no provisioners.
  lemma DownDecodesIff(s: Service)
    ensures Decode(false, ToArgs(false, s)) == Some(s) <==> s.provisioners == [] && !StartsWith(s.name, "-")
  {
    if s.provisioners == [] && !StartsWith(s.name, "-") {
      DownRoundTrip(s);
    } else if Decode(false, ToArgs(false, s)) == Some(s) {
      DecodedShape(false, ToArgs(false, s), s);
    }
  }

  // Only jails can be brought up or down, and neither without a directory.
  lemma OnlyJails(up: bool, args: seq<string>)
    ensures Decode(up, args).Some? ==>
              && (|| OptionalOption(args, "--container") == Some(None)
                  || OptionalOption(args, "--container") == Some(Some("jail")))
              && NamedOption(args, "--service-dir").Some?
  {
  }

  // An accepted request survives the way to arguments and back, except for an `up` from
  // that one directory.
  lemma RoundTripIff(up: bool, args: seq<string>, s: Service)
    requires Decode(up, args) == Some(s)
    ensures Decode(up, ToArgs(up, s)) == Some(s) <==> !(up && s.serviceDir == "--provisioner")
  {
    DecodedShape(up, args, s);
    if up {
      DecodeOfToArgsIff(s);
    } else {
      DownRoundTrip(s);
    }
  }

  // There are such requests: the directory is called like the repeated option.
  lemma DirectoryExample() returns (s: Service)
    ensures Decode(true, ["--service-dir", "--provisioner", "web"]) == Some(s)
    ensures Decode(true, ToArgs(true, s)) != Some(s)
  {
    var args := ["--service-dir", "--provisioner", "web"];
    s := Service("web", false, "--provisioner", ["web"]);
    LeadingOption("--service-dir", "--provisioner", ["web"]);
    assert ["--service-dir", "--provisioner"] + ["web"] == args;
    assert "--container" !in args && "--develop" !in args;
    assert args[2..] == ["web"] && args[1..] == ["--provisioner", "web"];
    assert ["--provisioner", "web"][2..] == [] && ["web"][1..] == [];
    assert Repeated([], "--provisioner") == Some([]);
    assert "web"[0] != "-"[0] && !StartsWith("web", "-");
    assert args[1..][2..] == [] && args[1..][1] == "web";
    assert Repeated(args[1..], "--provisioner") == Prepend(["web"], Repeated([], "--provisioner"));
    assert Repeated(args[1..], "--provisioner") == Some(["web"]);
    assert ScanName([], Some("web")) == Some(Some("web"));
    assert ScanName(args[2..], None) == Some(Some("web"));
    DirectoryTakenForOption(s);
  }
}
