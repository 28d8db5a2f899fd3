/** The PCI passthrough list of a VM, and the PCI slots its start hands out. */
module Passthru {
  import opened Text
  import opened Graphs

  predicate IsHexDigit(c: char) {
    '0' <= c <= '9' || 'a' <= c <= 'f' || 'A' <= c <= 'F'
  }

  predicate ValidPciId(id: string) {
    var parts := Split(id, '/');
    && |parts| == 3
    && forall i :: 0 <= i < 3 ==> parts[i] != "" && forall c :: c in parts[i] ==> IsHexDigit(c)
  }

  // A valid id survives being stored in a comma-separated list.
  lemma ValidPciIdIsClean(id: string)
    requires ValidPciId(id)
    ensures Clean(id) && id != "-"
  {
    var parts := Split(id, '/');
    JoinOfSplit(id, '/');
    assert parts[1..] == [parts[1], parts[2]] && parts[1..][1..] == [parts[2]];
    assert Join(parts[1..], '/') == parts[1] + ['/'] + parts[2];
    assert id == parts[0] + ['/'] + (parts[1] + ['/'] + parts[2]);
    assert id[0] == parts[0][0] && id[0] in parts[0];
    assert id[|id| - 1] == parts[2][|parts[2]| - 1] && id[|id| - 1] in parts[2];
    forall c | c in id
      ensures c != ','
    {
      assert c in parts[0] || c == '/' || c in parts[1] || c in parts[2];
    }
  }

  datatype Request = Add(id: string) | Remove(id: string)

  // The stored text is what joining a duplicate-free list of valid ids gives.
  ghost predicate Stores(text: string, devices: seq<string>) {
    text == Join(devices, ',') && Storable(devices)
  }

  // Reading the property back, as `read_config` does, gives the list that was written.
  lemma StoredListIsRead(text: string, devices: seq<string>)
    requires Stores(text, devices)
    ensures ReadList(text) == devices
  {
    forall d | d in devices
      ensures Clean(d) && d != "-"
    {
      ValidPciIdIsClean(d);
    }
    if devices != [] {
      assert devices[0] in devices;
    }
    ReadListOfJoin(devices);
  }

  function Removed(devices: seq<string>, index: nat): seq<string>
    requires index < |devices|
  {
    devices[..index] + devices[index + 1..]
  }

  // What one request does to the set of configured devices. If the stored list could not be
  // read, it counts as empty.
  function Applied(devices: set<string>, request: Request, ok: bool, read: bool): set<string> {
    if !ok then devices
    else match request
      case Add(id) => (if read then devices else {}) + {id}
      case Remove(id) => devices - {id}
  }

  // Nothing is lost exactly if the list was read, or nothing else was in it.
  lemma NothingLostIff(devices: set<string>, request: Request, ok: bool, read: bool)
    ensures Applied(devices, request, ok, read) == Applied(devices, request, ok, true) <==>
            read || !ok || request.Remove? || devices <= {request.id}
  {
    if !read && ok && request.Add? && !(devices <= {request.id}) {
      var d :| d in devices && d != request.id;
      assert d in Applied(devices, request, ok, true) && d !in Applied(devices, request, ok, read);
    }
    if request.Add? && devices <= {request.id} {
      assert devices + {request.id} == {} + {request.id};
    }
  }

  // The set that a series of requests leaves, counting the successful ones.
  function AppliedAll(requests: seq<Request>, oks: seq<bool>, seen: seq<bool>): set<string>
    requires |oks| == |seen| == |requests|
  {
    if requests == [] then {}
    else
      var last := |requests| - 1;
      Applied(AppliedAll(requests[..last], oks[..last], seen[..last]), requests[last], oks[last], seen[last])
  }

  class VmProperties {
    var passthru: string

    constructor ()
      ensures passthru == ""
    {
      passthru := "";
    }

    // The passthrough part of `set_vm_options`. It fails for an invalid id, a device that
    // is already there or not there, or a property that cannot be written. If the property
    // cannot be read, nothing is there.
    method Set(request: Request, read: bool, writes: bool, ghost devices: seq<string>)
      returns (ok: bool, ghost now: seq<string>)
      requires Stores(passthru, devices)
      modifies this
      ensures Stores(passthru, now)
      ensures !ok ==> now == devices
      ensures ok <==> writes && ValidPciId(request.id) && (request.Add? <==> !(read && request.id in devices))
      ensures ok && request.Add? ==> now == (if read then devices else []) + [request.id]
      ensures ok && request.Remove? ==>
                exists i :: 0 <= i < |devices| && devices[i] == request.id && now == Removed(devices, i)
      ensures Members(now) == Applied(Members(devices), request, ok, read)
    {
      ok, now := false, devices;
      if !ValidPciId(request.id) {
        return;
      }
      StoredListIsRead(passthru, devices);
      var current := if read then ReadList(passthru) else [];
      match request {
        case Add(id) =>
          if id in current || !writes {
            return;
          }
          AddedIsStored(current, id);
          passthru := Join(current + [id], ',');
          return true, current + [id];
        case Remove(id) =>
          if id !in current || !writes {
            return;
          }
          var index := Find(current, id);
          var rest := Removed(current, index);
          RemovedIsStored(current, index);
          passthru := if rest == [] then "" else Join(rest, ',');
          return true, rest;
      }
    }

    method Find(devices: seq<string>, id: string) returns (index: nat)
      requires id in devices
      ensures index < |devices| && devices[index] == id
    {
      index := 0;
      while devices[index] != id
        invariant index < |devices| && id in devices[index..]
        decreases |devices| - index
      {
        assert devices[index..] == [devices[index]] + devices[index + 1..];
        index := index + 1;
      }
    }

    // Any series of requests from an empty list: what is stored has no duplicates, holds
    // valid ids only, and is the set that the successful requests describe.
    method SetAll(requests: seq<Request>, seen: seq<bool>, writes: seq<bool>)
      returns (oks: seq<bool>, ghost devices: seq<string>)
      requires passthru == "" && |seen| == |writes| == |requests|
      modifies this
      ensures |oks| == |requests| && Stores(passthru, devices) && ReadList(passthru) == devices
      ensures Members(devices) == AppliedAll(requests, oks, seen)
      ensures forall i :: 0 <= i < |requests| ==> (oks[i] <==> writes[i] && Accepted(requests, oks, seen, i))
    {
      oks, devices := [], [];
      var i := 0;
      while i < |requests|
        invariant 0 <= i <= |requests| && |oks| == i
        invariant Stores(passthru, devices)
        invariant Members(devices) == AppliedAll(requests[..i], oks, seen[..i])
        invariant forall k :: 0 <= k < i ==> (oks[k] <==> writes[k] && Accepted(requests, oks, seen, k))
      {
        var ok; ghost var before := devices;
        ok, devices := Set(requests[i], seen[i], writes[i], devices);
        assert requests[..i + 1][..i] == requests[..i] && (oks + [ok])[..i] == oks && seen[..i + 1][..i] == seen[..i];
        assert forall k :: 0 <= k <= i ==> (oks + [ok])[..k] == oks[..k];
        assert oks[..i] == oks && (requests[i].id in Members(before) <==> requests[i].id in before);
        oks := oks + [ok];
        i := i + 1;
      }
      assert requests[..i] == requests && seen[..i] == seen && oks[..i] == oks;
      StoredListIsRead(passthru, devices);
    }
  }

  // The i-th request is for a valid id, and adds what is not there or removes what is.
  predicate Accepted(requests: seq<Request>, oks: seq<bool>, seen: seq<bool>, i: nat)
    requires i < |requests| == |seen| && i <= |oks|
  {
    var there := AppliedAll(requests[..i], oks[..i], seen[..i]);
    ValidPciId(requests[i].id) && (requests[i].Add? <==> !(seen[i] && requests[i].id in there))
  }

  // The i-th request succeeded in adding the device, and no later one in removing it.
  ghost predicate AddedLast(requests: seq<Request>, oks: seq<bool>, id: string, i: nat)
    requires |oks| == |requests|
  {
    && i < |requests| && oks[i] && requests[i] == Add(id)
    && forall j :: i < j < |requests| && oks[j] ==> requests[j] != Remove(id)
  }

  // If every list was read, a device is in the set exactly if some request added it for good.
  lemma {:induction false} AllReadKeepsAdded(requests: seq<Request>, oks: seq<bool>, seen: seq<bool>, id: string)
    requires |oks| == |seen| == |requests| && forall i :: 0 <= i < |seen| ==> seen[i]
    ensures id in AppliedAll(requests, oks, seen) <==> exists i :: AddedLast(requests, oks, id, i)
  {
    if requests != [] {
      var last := |requests| - 1;
      var before, oksBefore := requests[..last], oks[..last];
      AllReadKeepsAdded(before, oksBefore, seen[..last], id);
      if oks[last] && requests[last] == Add(id) {
        assert AddedLast(requests, oks, id, last);
      } else {
        forall i: nat
          ensures AddedLast(requests, oks, id, i) <==>
                  AddedLast(before, oksBefore, id, i) && !(oks[last] && requests[last] == Remove(id))
        {
          assert forall j :: 0 <= j < last ==> before[j] == requests[j] && oksBefore[j] == oks[j];
        }
      }
    }
  }

  // An unread list is overwritten.
  lemma UnreadListIsLost()
    ensures Stores("1/0/0", ["1/0/0"]) && ValidPciId("2/0/0")
    ensures Applied({"1/0/0"}, Add("2/0/0"), true, false) == {"2/0/0"}
    ensures Applied({"1/0/0"}, Add("2/0/0"), true, true) == {"1/0/0", "2/0/0"}
  {
    DigitsAreValid("1");
    DigitsAreValid("2");
    assert Join(["1/0/0"], ',') == "1/0/0";
  }

  lemma DigitsAreValid(bus: string)
    requires bus != "" && forall c :: c in bus ==> IsHexDigit(c)
    ensures ValidPciId(bus + "/0/0")
  {
    var parts := [bus, "0", "0"];
    assert parts[1..] == ["0", "0"] && parts[1..][1..] == ["0"];
    assert Join(parts[1..], '/') == "0" + ['/'] + "0" == "0/0";
    assert bus + ['/'] + "0/0" == bus + "/0/0";
    assert Join(parts, '/') == bus + "/0/0";
    SplitOfJoin(parts, '/');
  }

  ghost predicate Storable(devices: seq<string>) {
    Distinct(devices) && forall i :: 0 <= i < |devices| ==> ValidPciId(devices[i])
  }

  lemma AddedIsStored(devices: seq<string>, id: string)
    requires Storable(devices) && id !in devices && ValidPciId(id)
    ensures Members(devices + [id]) == Members(devices) + {id} && Storable(devices + [id])
  {
  }

  lemma RemovedIsStored(devices: seq<string>, index: nat)
    requires Storable(devices) && index < |devices|
    ensures Members(Removed(devices, index)) == Members(devices) - {devices[index]} && Storable(Removed(devices, index))
  {
    RemovedMembers(devices, index);
    var rest := Removed(devices, index);
    forall i | 0 <= i < |rest|
      ensures ValidPciId(rest[i])
    {
      assert rest[i] == devices[if i < index then i else i + 1];
    }
  }

  lemma RemovedMembers(devices: seq<string>, index: nat)
    requires index < |devices| && Distinct(devices)
    ensures Members(Removed(devices, index)) == Members(devices) - {devices[index]}
    ensures Distinct(Removed(devices, index))
  {
    var rest := Removed(devices, index);
    forall i | 0 <= i < |rest|
      ensures rest[i] == devices[if i < index then i else i + 1]
    {
    }
    forall k | 0 <= k < |devices| && k != index
      ensures devices[k] in rest
    {
      assert rest[if k < index then k else k - 1] == devices[k];
    }
  }

  // ---- PCI slots ----

  datatype Disc = NoDisc | Seed | Iso

  predicate InRange(slots: seq<nat>) {
    forall i :: 0 <= i < |slots| ==> slots[i] <= 31
  }

  function Capacity(vnc: bool): nat {
    if vnc then 23 else 25
  }

  // The bridge, the disk, the network, LPC, one per passthrough device; then the disc, the screen
  // with its tablet, the sound.
  function FirstSlots(passthru: nat): (slots: seq<nat>)
    ensures |slots| == 4 + passthru && slots[0] == 0 && slots[1] == 3 && slots[2] == 2 && slots[3] == 31
    ensures forall i :: 4 <= i < 4 + passthru ==> slots[i] == i + 2
  {
    [0, 3, 2, 31] + seq(passthru, i => i + 6)
  }

  function LastSlots(disc: Disc, vnc: bool, sound: bool): seq<nat> {
    (if disc.NoDisc? then [] else [4]) + (if vnc then [30, 29] else []) + (if sound then [5] else [])
  }

  // The slots of a VM's devices in the order in which its start emits them. Nothing checks how
  // many passthrough devices there are; the slots are distinct and exist exactly up to this number.
  method AssignSlots(passthru: nat, disc: Disc, vnc: bool, sound: bool) returns (slots: seq<nat>)
    ensures slots == FirstSlots(passthru) + LastSlots(disc, vnc, sound)
    ensures Distinct(slots) && InRange(slots) <==> passthru <= Capacity(vnc)
  {
    slots := [0, 3, 2, 31];
    var index := 0;
    while index < passthru
      invariant 0 <= index <= passthru && slots == FirstSlots(index)
    {
      slots := slots + [6 + index];
      index := index + 1;
    }
    ghost var last: seq<nat> := [];
    if !disc.NoDisc? {
      slots, last := slots + [4], last + [4];
    }
    if vnc {
      slots, last := slots + [30, 29], last + [30, 29];
    }
    if sound {
      slots, last := slots + [5], last + [5];
    }
    assert last == LastSlots(disc, vnc, sound);
    SlotsFitIff(passthru, disc, vnc, sound);
  }

  lemma SlotsFitIff(passthru: nat, disc: Disc, vnc: bool, sound: bool)
    ensures var slots := FirstSlots(passthru) + LastSlots(disc, vnc, sound);
            Distinct(slots) && InRange(slots) <==> passthru <= Capacity(vnc)
  {
    var first, last := FirstSlots(passthru), LastSlots(disc, vnc, sound);
    var slots := first + last;
    LastSlotsAre(disc, vnc, sound);
    if passthru <= Capacity(vnc) {
      forall i | 4 + passthru <= i < |slots|
        ensures slots[i] == last[i - 4 - passthru]
      {
      }
      SlotsFit(slots, passthru, vnc);
    } else if passthru > 25 {
      assert slots[4 + 25] == 31 == slots[3];
    } else {
      var n := if disc.NoDisc? then 1 else 2;
      assert slots[4 + 23] == 29 == last[n] == slots[4 + passthru + n];
    }
  }

  lemma LastSlotsAre(disc: Disc, vnc: bool, sound: bool)
    ensures var last := LastSlots(disc, vnc, sound);
            && (forall i :: 0 <= i < |last| ==> last[i] in (if vnc then {4, 5, 29, 30} else {4, 5}))
            && (forall i, j :: 0 <= i < j < |last| ==> last[i] != last[j])
            && (vnc ==> |last| > (if disc.NoDisc? then 1 else 2) && last[if disc.NoDisc? then 1 else 2] == 29)
  {
  }

  lemma SlotsFit(slots: seq<nat>, passthru: nat, vnc: bool)
    requires |slots| >= 4 + passthru && slots[..4] == [0, 3, 2, 31] && passthru <= Capacity(vnc)
    requires forall i :: 4 <= i < 4 + passthru ==> slots[i] == i + 2
    requires forall i :: 4 + passthru <= i < |slots| ==> slots[i] in (if vnc then {4, 5, 29, 30} else {4, 5})
    requires forall i, j :: 4 + passthru <= i < j < |slots| ==> slots[i] != slots[j]
    ensures Distinct(slots) && InRange(slots)
  {
    assert slots[0] == 0 && slots[1] == 3 && slots[2] == 2 && slots[3] == 31 by {
      assert slots[..4][0] == slots[0] && slots[..4][1] == slots[1];
      assert slots[..4][2] == slots[2] && slots[..4][3] == slots[3];
    }
  }
}
