/**
 Provisioning: the `provisioned` property over creation, `up`, `provision` and destroy. How each
 external call turns out is a parameter.
 */
module Provisioning {
  import opened Wrappers
  import opened Text

  // One call of `provision_at`: what it was asked to do and how the commands turn out, two for
  // each provisioner.
  datatype Attempt = Attempt(isDirectory: bool, listed: seq<string>, works: seq<bool>)

  // There is something to run, all of it is known, and all of it works.
  predicate Complete(a: Attempt) {
    && a.isDirectory && a.listed != [] && |a.works| == 2 * |a.listed|
    && (forall i :: 0 <= i < |a.listed| ==> a.listed[i] == "ansible")
    && forall i :: 0 <= i < |a.works| ==> a.works[i]
  }

  lemma FlagLiterals()
    ensures ReadBool("true", false) == Some(true) && ReadBool("false", false) == Some(false)
    ensures ReadBool("", false) == Some(false)
  {
    TrimResult("true");
    TrimResult("false");
    TrimResult("");
  }

  // The n-th command of a provisioning.
  function Command(n: nat): string {
    if n % 2 == 0 then "ansible-galaxy" else "ansible-playbook"
  }

  // The loop of `provision_at`: in order, stopping at the first failure. Only "ansible" is
  // known, and it takes two commands. `ran` are the commands that were run.
  method ProvisionAt(isDirectory: bool, provisioners: seq<string>, works: seq<bool>)
    returns (ok: bool, ran: seq<string>)
    requires |works| == 2 * |provisioners|
    ensures ok <==> Complete(Attempt(isDirectory, provisioners, works))
    ensures |ran| <= |works| && (ok ==> |ran| == |works|)
    ensures forall i :: 0 <= i < |ran| ==> ran[i] == Command(i)
    ensures forall i :: 0 <= i < |ran| - 1 ==> works[i]
  {
    ran := [];
    if !isDirectory || provisioners == [] {
      return false, ran;
    }
    var i := 0;
    while i < |provisioners|
      invariant 0 <= i <= |provisioners| && |ran| == 2 * i
      invariant forall k :: 0 <= k < i ==> provisioners[k] == "ansible"
      invariant forall k :: 0 <= k < |ran| ==> works[k] && ran[k] == Command(k)
    {
      if provisioners[i] != "ansible" {
        return false, ran;
      }
      ran := ran + ["ansible-galaxy"];
      if !works[2 * i] {
        return false, ran;
      }
      ran := ran + ["ansible-playbook"];
      if !works[2 * i + 1] {
        return false, ran;
      }
      i := i + 1;
    }
    return true, ran;
  }

  // How the calls of an `up` turn out: creating the dataset, writing its properties, installing;
  // setting `enabled`, mounting and starting; reading `provisioned`; the commands; writing it.
  datatype UpCalls = UpCalls(makes: bool, writes: bool, installs: bool, starts: bool, canRead: bool,
                             commands: seq<bool>, records: bool)

  // One resource: whether its dataset exists, its `provisioned` text, and the record of
  // the provisioning attempts made since it was created.
  class Service {
    var exists_: bool
    var provisioned: string
    ghost var attempts: seq<Attempt>

    constructor ()
      ensures Valid() && !exists_
    {
      exists_, provisioned, attempts := false, "", [];
    }

    // `provisioned = true` is backed by a complete attempt on this very resource.
    ghost predicate Valid()
      reads this
    {
      && (provisioned == "true" || provisioned == "false" || provisioned == "")
      && (provisioned == "true" ==> exists_ && exists i :: 0 <= i < |attempts| && Complete(attempts[i]))
    }

    // Creation resets the property; it may stop before writing it.
    method Create(makes: bool, writes: bool, installs: bool) returns (ok: bool)
      requires Valid()
      modifies this
      ensures Valid() && (ok <==> !old(exists_) && makes && writes && installs)
      ensures exists_ <==> old(exists_) || makes
      ensures old(exists_) == exists_ ==> provisioned == old(provisioned) && attempts == old(attempts)
      ensures !old(exists_) && exists_ ==> provisioned == (if writes then "false" else "") && attempts == []
    {
      ok := false;
      if exists_ || !makes {
        return;
      }
      exists_, provisioned, attempts := true, "", [];
      if !writes {
        return;
      }
      provisioned := "false";
      ok := installs;
    }

    // What remains of a destroyed resource may still resist.
    method Destroy(removes: bool, finishes: bool) returns (ok: bool)
      requires Valid()
      modifies this
      ensures Valid() && (ok <==> old(exists_) && removes && finishes)
      ensures exists_ <==> old(exists_) && !removes
      ensures exists_ ==> provisioned == old(provisioned) && attempts == old(attempts)
      ensures old(exists_) && !exists_ ==> provisioned == "" && attempts == []
    {
      ok := false;
      if !exists_ || !removes {
        return;
      }
      exists_, provisioned, attempts := false, "", [];
      ok := finishes;
    }

    // `provision_service`: run, then record success; the record may fail to be written.
    method Provision(isDirectory: bool, provisioners: seq<string>, works: seq<bool>, records: bool) returns (ok: bool)
      requires Valid() && |works| == 2 * |provisioners|
      modifies this
      ensures Valid() && exists_ == old(exists_)
      ensures attempts == old(attempts) + [Attempt(isDirectory, provisioners, works)]
      ensures ok <==> Complete(Attempt(isDirectory, provisioners, works)) && records && exists_
      ensures provisioned == if ok then "true" else old(provisioned)
    {
      var ran;
      ok, ran := ProvisionAt(isDirectory, provisioners, works);
      attempts := attempts + [Attempt(isDirectory, provisioners, works)];
      assert attempts[|attempts| - 1] == Attempt(isDirectory, provisioners, works);
      assert forall i :: 0 <= i < |old(attempts)| ==> attempts[i] == old(attempts)[i];
      if !ok {
        return;
      }
      if !records || !exists_ {
        return false;
      }
      provisioned := "true";
    }

    // Whether `up` finds the service provisioned: a property that cannot be read counts as false.
    predicate Skips(canRead: bool)
      reads this
    {
      exists_ && canRead && provisioned == "true"
    }

    // `up`: create if needed, start, and provision unless that has been done.
    method Up(isDirectory: bool, provisioners: seq<string>, calls: UpCalls) returns (ok: bool)
      requires Valid() && |calls.commands| == 2 * |provisioners|
      modifies this
      ensures Valid()
      // It succeeds exactly if all works that is needed.
      ensures ok <==>
              && (old(exists_) || (calls.makes && calls.writes && calls.installs)) && calls.starts
              && (old(Skips(calls.canRead)) || provisioners == []
                  || (Complete(Attempt(isDirectory, provisioners, calls.commands)) && calls.records))
      // Once provisioned, never again, if that can be read.
      ensures old(Skips(calls.canRead)) ==> attempts == old(attempts) && provisioned == "true"
      // A success leaves it provisioned, after an attempt if it was not.
      ensures ok && provisioners != [] ==> provisioned == "true"
      ensures ok && provisioners != [] && !old(Skips(calls.canRead)) ==>
                attempts == (if old(exists_) then old(attempts) else [])
                            + [Attempt(isDirectory, provisioners, calls.commands)]
      ensures ok && provisioners == [] && old(exists_) ==>
                provisioned == old(provisioned) && attempts == old(attempts)
      // A failure leaves the property as it is; the next `up` tries again.
      ensures !ok && old(exists_) ==> provisioned == old(provisioned)
      ensures !ok && !old(exists_) ==> provisioned != "true"
    {
      FlagLiterals();
      ok := true;
      if !exists_ {
        ok := Create(calls.makes, calls.writes, calls.installs);
        if !ok {
          return;
        }
      }
      // Setting `enabled`, mounting the source directory and starting the jail.
      if !calls.starts {
        return false;
      }
      var flag := if calls.canRead then ReadBool(provisioned, false) else Some(false);
      if flag.None? {
        return false;
      }
      if !flag.value && provisioners != [] {
        ok := Provision(isDirectory, provisioners, calls.commands, calls.records);
      }
    }
  }
}
