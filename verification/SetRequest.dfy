/**
 The `set` request: `encode_set` finds every option by its first occurrence anywhere and
 separately walks the arguments to validate them. A left-to-right parser in which the
 first binding wins does the same; and turning the request back into arguments and
 encoding it again gives the same request, except for one kind of VM name.
 */
module SetRequest {
  import opened Wrappers
  import opened Numbers
  import opened Arguments

  datatype Key =
    | Cpus | Memory | Iso | VncPort | VncBind | VncWidth | VncHeight | AddPassthru | RemovePassthru | Dsp
    | Tpm | NoTpm | RemoveCd | Sound | NoSound

  predicate TakesValue(k: Key) {
    !k.Tpm? && !k.NoTpm? && !k.RemoveCd? && !k.Sound? && !k.NoSound?
  }

  function Text(k: Key): string {
    match k
    case Cpus => "--cpus"
    case Memory => "--memory"
    case Iso => "--iso"
    case VncPort => "--vnc-port"
    case VncBind => "--vnc-bind"
    case VncWidth => "--vnc-width"
    case VncHeight => "--vnc-height"
    case AddPassthru => "--add-passthru"
    case RemovePassthru => "--remove-passthru"
    case Dsp => "--dsp"
    case Tpm => "--tpm"
    case NoTpm => "--no-tpm"
    case RemoveCd => "--remove-cd"
    case Sound => "--sound"
    case NoSound => "--no-sound"
  }

  function KeyOf(text: string): Option<Key> {
    if text == "--cpus" then Some(Cpus)
    else if text == "--memory" then Some(Memory)
    else if text == "--iso" then Some(Iso)
    else if text == "--vnc-port" then Some(VncPort)
    else if text == "--vnc-bind" then Some(VncBind)
    else if text == "--vnc-width" then Some(VncWidth)
    else if text == "--vnc-height" then Some(VncHeight)
    else if text == "--add-passthru" then Some(AddPassthru)
    else if text == "--remove-passthru" then Some(RemovePassthru)
    else if text == "--dsp" then Some(Dsp)
    else if text == "--tpm" then Some(Tpm)
    else if text == "--no-tpm" then Some(NoTpm)
    else if text == "--remove-cd" then Some(RemoveCd)
    else if text == "--sound" then Some(Sound)
    else if text == "--no-sound" then Some(NoSound)
    else None
  }

  lemma KeyTexts(k: Key)
    ensures KeyOf(Text(k)) == Some(k) && StartsWith(Text(k), "--")
  {
  }

  lemma TextOfKey(text: string)
    ensures KeyOf(text).Some? ==> Text(KeyOf(text).value) == text
  {
  }

  // Membership in the two option tables of the source.
  predicate IsValueOption(text: string) {
    KeyOf(text).Some? && TakesValue(KeyOf(text).value)
  }

  predicate IsFlagOption(text: string) {
    KeyOf(text).Some? && !TakesValue(KeyOf(text).value)
  }

  datatype Settings = Settings(
    name: string,
    cpus: Option<nat>, memory: Option<string>, iso: Option<string>, removeCd: bool,
    vncPort: Option<nat>, vncBind: Option<string>, vncWidth: Option<nat>, vncHeight: Option<nat>,
    addPassthru: Option<string>, removePassthru: Option<string>, dsp: Option<string>,
    tpm: Option<bool>, sound: Option<bool>)

  // Everything `encode_set` looks up: for each option its value, if any, or a failure; and
  // which flags occur.
  datatype Lookups = Lookups(
    cpus: Option<Option<string>>, memory: Option<Option<string>>, iso: Option<Option<string>>,
    vncPort: Option<Option<string>>, vncBind: Option<Option<string>>,
    vncWidth: Option<Option<string>>, vncHeight: Option<Option<string>>,
    addPassthru: Option<Option<string>>, removePassthru: Option<Option<string>>, dsp: Option<Option<string>>,
    tpm: bool, noTpm: bool, removeCd: bool, sound: bool, noSound: bool, hasIso: bool)

  function LookUpAll(args: seq<string>): Lookups {
    Lookups(
      OptionalOption(args, Text(Cpus)),
      OptionalOption(args, Text(Memory)),
      OptionalOption(args, Text(Iso)),
      OptionalOption(args, Text(VncPort)),
      OptionalOption(args, Text(VncBind)),
      OptionalOption(args, Text(VncWidth)),
      OptionalOption(args, Text(VncHeight)),
      OptionalOption(args, Text(AddPassthru)),
      OptionalOption(args, Text(RemovePassthru)),
      OptionalOption(args, Text(Dsp)),
      HasFlag(args, Text(Tpm)),
      HasFlag(args, Text(NoTpm)),
      HasFlag(args, Text(RemoveCd)),
      HasFlag(args, Text(Sound)),
      HasFlag(args, Text(NoSound)),
      HasFlag(args, Text(Iso)))
  }

  function Tristate(on: bool, off: bool): Option<bool> {
    if on || off then Some(on) else None
  }

  // The walk over the arguments after the name.
  predicate WellFormed(rest: seq<string>) {
    if rest == [] then true
    else if IsValueOption(rest[0]) then
      |rest| >= 2 && !StartsWith(rest[1], "--") && WellFormed(rest[2..])
    else IsFlagOption(rest[0]) && WellFormed(rest[1..])
  }

  method Walk(args: seq<string>) returns (ok: bool)
    requires |args| > 0
    ensures ok == WellFormed(args[1..])
  {
    var index := 1;
    while index < |args|
      invariant 1 <= index
      invariant index <= |args| ==> WellFormed(args[1..]) == WellFormed(args[index..])
      invariant index <= |args|
    {
      assert args[index..][1..] == args[index + 1..];
      if IsValueOption(args[index]) {
        if index + 1 >= |args| || StartsWith(args[index + 1], "--") {
          return false;
        }
        assert args[index..][2..] == args[index + 2..];
        index := index + 2;
      } else if IsFlagOption(args[index]) {
        index := index + 1;
      } else {
        return false;
      }
    }
    return true;
  }

  // `encode_set`.
  function Encode(args: seq<string>): Option<Settings> {
    if |args| <= 1 then None
    else
      var settings :- Assemble(args[0], LookUpAll(args));
      if WellFormed(args[1..]) then Some(settings) else None
  }

  function Assemble(name: string, l: Lookups): Option<Settings> {
    if (l.tpm && l.noTpm) || (l.sound && l.noSound) || (l.removeCd && l.hasIso) then None
    else
      var cpus :- NumberOption(l.cpus);
      var memory :- l.memory;
      var iso :- l.iso;
      var vncPort :- NumberOption(l.vncPort);
      var vncBind :- l.vncBind;
      var vncWidth :- NumberOption(l.vncWidth);
      var vncHeight :- NumberOption(l.vncHeight);
      var addPassthru :- l.addPassthru;
      var removePassthru :- l.removePassthru;
      var dsp :- l.dsp;
      Some(Settings(name, cpus, memory, iso, l.removeCd, vncPort, vncBind, vncWidth, vncHeight,
                    addPassthru, removePassthru, dsp, Tristate(l.tpm, l.noTpm), Tristate(l.sound, l.noSound)))
  }

  // ---- The left-to-right parser ----

  datatype Bindings = Bindings(values: map<Key, string>, flags: set<Key>)

  // Options are consumed from the left; the first binding of an option wins.
  function Parse(rest: seq<string>): Option<Bindings> {
    if rest == [] then Some(Bindings(map[], {}))
    else if IsValueOption(rest[0]) then
      if |rest| < 2 || StartsWith(rest[1], "--") then None
      else
        var b :- Parse(rest[2..]);
        Some(b.(values := b.values[KeyOf(rest[0]).value := rest[1]]))
    else if IsFlagOption(rest[0]) then
      var b :- Parse(rest[1..]);
      Some(b.(flags := b.flags + {KeyOf(rest[0]).value}))
    else None
  }

  function Bound(b: Bindings, k: Key): Option<string> {
    if k in b.values then Some(b.values[k]) else None
  }

  // Searching anywhere agrees with the bindings, for one option.
  ghost predicate Agrees(args: seq<string>, b: Bindings, k: Key) {
    if TakesValue(k) then
      && OptionalOption(args, Text(k)) == Some(Bound(b, k))
      && (HasFlag(args, Text(k)) <==> k in b.values)
    else
      HasFlag(args, Text(k)) <==> k in b.flags
  }

  // Where the walk succeeds, searching anywhere agrees with parsing from the left: no
  // option value is mistaken for a flag or an option.
  lemma {:induction false} LookupsAgree(rest: seq<string>, k: Key)
    requires Parse(rest).Some?
    ensures Agrees(rest, Parse(rest).value, k)
    decreases |rest|
  {
    if rest != [] {
      if IsValueOption(rest[0]) {
        LookupsAgree(rest[2..], k);
        AgreesAfterValue(rest, k);
      } else {
        LookupsAgree(rest[1..], k);
        AgreesAfterFlag(rest, k);
      }
    }
  }

  lemma AgreesAfterValue(rest: seq<string>, k: Key)
    requires Parse(rest).Some? && rest != [] && IsValueOption(rest[0])
    requires Agrees(rest[2..], Parse(rest[2..]).value, k)
    ensures Agrees(rest, Parse(rest).value, k)
  {
    KeyTexts(k);
    TextOfKey(rest[0]);
    assert rest == [rest[0], rest[1]] + rest[2..];
    if Text(k) != rest[0] {
      SkipPrefix([rest[0], rest[1]], rest[2..], Text(k));
    }
  }

  lemma AgreesAfterFlag(rest: seq<string>, k: Key)
    requires Parse(rest).Some? && rest != [] && !IsValueOption(rest[0])
    requires Agrees(rest[1..], Parse(rest[1..]).value, k)
    ensures Agrees(rest, Parse(rest).value, k)
  {
    KeyTexts(k);
    TextOfKey(rest[0]);
    assert rest == [rest[0]] + rest[1..];
    if Text(k) != rest[0] {
      SkipPrefix([rest[0]], rest[1..], Text(k));
    }
  }

  lemma {:induction false} ParseIffWellFormed(rest: seq<string>)
    ensures Parse(rest).Some? <==> WellFormed(rest)
    ensures Parse(rest).Some? && rest != [] ==>
              KeyOf(rest[0]).Some? &&
              (KeyOf(rest[0]).value in Parse(rest).value.values || KeyOf(rest[0]).value in Parse(rest).value.flags)
    ensures Parse(rest).Some? ==>
              forall k :: k in Parse(rest).value.values ==> !StartsWith(Parse(rest).value.values[k], "--")
    decreases |rest|
  {
    if rest != [] {
      if IsValueOption(rest[0]) {
        if |rest| >= 2 { ParseIffWellFormed(rest[2..]); }
      } else {
        ParseIffWellFormed(rest[1..]);
      }
    }
  }

  // ---- Acceptance ----

  predicate Compatible(b: Bindings) {
    && !(Tpm in b.flags && NoTpm in b.flags)
    && !(Sound in b.flags && NoSound in b.flags)
    && !(RemoveCd in b.flags && Iso in b.values)
    && IsNumber(Bound(b, Cpus)) && IsNumber(Bound(b, VncPort))
    && IsNumber(Bound(b, VncWidth)) && IsNumber(Bound(b, VncHeight))
  }

  // The settings that the parsed bindings describe.
  function FromBindings(name: string, b: Bindings): Settings {
    Settings(name, Number(Bound(b, Cpus)), Bound(b, Memory), Bound(b, Iso), RemoveCd in b.flags,
             Number(Bound(b, VncPort)), Bound(b, VncBind), Number(Bound(b, VncWidth)), Number(Bound(b, VncHeight)),
             Bound(b, AddPassthru), Bound(b, RemovePassthru), Bound(b, Dsp),
             Tristate(Tpm in b.flags, NoTpm in b.flags), Tristate(Sound in b.flags, NoSound in b.flags))
  }

  // A name that is itself a flag switches that flag on.
  function WithName(name: string, b: Bindings): Bindings {
    if IsFlagOption(name) then b.(flags := b.flags + {KeyOf(name).value}) else b
  }

  // What looking everything up must find if it is to agree with the bindings.
  function LookupsIn(b: Bindings): Lookups {
    Lookups(
      Some(Bound(b, Cpus)),
      Some(Bound(b, Memory)),
      Some(Bound(b, Iso)),
      Some(Bound(b, VncPort)),
      Some(Bound(b, VncBind)),
      Some(Bound(b, VncWidth)),
      Some(Bound(b, VncHeight)),
      Some(Bound(b, AddPassthru)),
      Some(Bound(b, RemovePassthru)),
      Some(Bound(b, Dsp)),
      Tpm in b.flags,
      NoTpm in b.flags,
      RemoveCd in b.flags,
      Sound in b.flags,
      NoSound in b.flags,
      Iso in b.values)
  }

  lemma AssembleBindings(name: string, b: Bindings)
    ensures Assemble(name, LookupsIn(b)) == if Compatible(b) then Some(FromBindings(name, b)) else None
  {
    NumberFound(Bound(b, Cpus));
    NumberFound(Bound(b, VncPort));
    NumberFound(Bound(b, VncWidth));
    NumberFound(Bound(b, VncHeight));
  }

  lemma LookupsAgreeAfterName(name: string, rest: seq<string>, k: Key)
    requires !IsValueOption(name) && Parse(rest).Some?
    ensures Agrees([name] + rest, WithName(name, Parse(rest).value), k)
  {
    LookupsAgree(rest, k);
    KeyTexts(k);
    TextOfKey(name);
    if Text(k) != name {
      SkipPrefix([name], rest, Text(k));
    }
  }

  lemma LookupsFind(args: seq<string>, b: Bindings)
    requires forall k :: Agrees(args, b, k)
    ensures LookUpAll(args) == LookupsIn(b)
  {
    assert Agrees(args, b, Cpus);
    assert Agrees(args, b, Memory);
    assert Agrees(args, b, Iso);
    assert Agrees(args, b, VncPort);
    assert Agrees(args, b, VncBind);
    assert Agrees(args, b, VncWidth);
    assert Agrees(args, b, VncHeight);
    assert Agrees(args, b, AddPassthru);
    assert Agrees(args, b, RemovePassthru);
    assert Agrees(args, b, Dsp);
    assert Agrees(args, b, Tpm);
    assert Agrees(args, b, NoTpm);
    assert Agrees(args, b, RemoveCd);
    assert Agrees(args, b, Sound);
    assert Agrees(args, b, NoSound);
  }

  // Unless the VM's name is a value option, `encode_set` accepts exactly what the parser
  // accepts and finds compatible, and yields the settings the parser found.
  lemma EncodeIsParse(args: seq<string>)
    requires args != [] && !IsValueOption(args[0])
    ensures var b := Parse(args[1..]);
            Encode(args) == if |args| > 1 && b.Some? && Compatible(WithName(args[0], b.value))
                            then Some(FromBindings(args[0], WithName(args[0], b.value))) else None
  {
    var rest := args[1..];
    ParseIffWellFormed(rest);
    if Parse(rest).Some? {
      var b := WithName(args[0], Parse(rest).value);
      assert args == [args[0]] + rest;
      forall k ensures Agrees(args, b, k) {
        LookupsAgreeAfterName(args[0], rest, k);
      }
      LookupsFind(args, b);
      AssembleBindings(args[0], b);
    }
  }

  // `encode_set` as it runs: look everything up, then walk the arguments. Unless the VM's name
  // is a value option, this yields the settings that the parser finds, and nothing where the
  // parser rejects the arguments or finds them incompatible.
  method EncodeSet(args: seq<string>) returns (r: Option<Settings>)
    ensures |args| <= 1 ==> r == None
    ensures |args| > 1 && !IsValueOption(args[0]) ==>
              match Parse(args[1..])
              case None => r == None
              case Some(b) =>
                var named := WithName(args[0], b);
                r == if Compatible(named) then Some(FromBindings(args[0], named)) else None
    ensures r == Encode(args)
  {
    if |args| <= 1 {
      return None;
    }
    r := Assemble(args[0], LookUpAll(args));
    if r.Some? {
      var ok := Walk(args);
      if !ok {
        r := None;
      }
    }
    if !IsValueOption(args[0]) {
      EncodeIsParse(args);
    }
  }

  // ---- Back to arguments ----

  // `request_to_args` for a `set` request, after the command.
  function ToArgs(s: Settings): seq<string> {
    [s.name] + Args(OptionItems(s))
  }

  // The item of each option and its place.
  function ItemFor(s: Settings, k: Key): Item {
    match k
    case Cpus => Opt(Text(Cpus), Printed(s.cpus))
    case Memory => Opt(Text(Memory), s.memory)
    case Iso => Opt(Text(Iso), s.iso)
    case RemoveCd => Switch(Text(RemoveCd), s.removeCd)
    case VncPort => Opt(Text(VncPort), Printed(s.vncPort))
    case VncBind => Opt(Text(VncBind), s.vncBind)
    case VncWidth => Opt(Text(VncWidth), Printed(s.vncWidth))
    case VncHeight => Opt(Text(VncHeight), Printed(s.vncHeight))
    case AddPassthru => Opt(Text(AddPassthru), s.addPassthru)
    case RemovePassthru => Opt(Text(RemovePassthru), s.removePassthru)
    case Dsp => Opt(Text(Dsp), s.dsp)
    case Tpm => Switch(Text(Tpm), s.tpm == Some(true))
    case NoTpm => Switch(Text(NoTpm), s.tpm == Some(false))
    case Sound => Switch(Text(Sound), s.sound == Some(true))
    case NoSound => Switch(Text(NoSound), s.sound == Some(false))
  }

  function At(k: Key): (i: nat)
    ensures i < 15
  {
    match k
    case Cpus => 0
    case Memory => 1
    case Iso => 2
    case RemoveCd => 3
    case VncPort => 4
    case VncBind => 5
    case VncWidth => 6
    case VncHeight => 7
    case AddPassthru => 8
    case RemovePassthru => 9
    case Dsp => 10
    case Tpm => 11
    case NoTpm => 12
    case Sound => 13
    case NoSound => 14
  }

  function KeyAt(i: nat): (k: Key)
    requires i < 15
    ensures At(k) == i
  {
    if i == 0 then Cpus
    else if i == 1 then Memory
    else if i == 2 then Iso
    else if i == 3 then RemoveCd
    else if i == 4 then VncPort
    else if i == 5 then VncBind
    else if i == 6 then VncWidth
    else if i == 7 then VncHeight
    else if i == 8 then AddPassthru
    else if i == 9 then RemovePassthru
    else if i == 10 then Dsp
    else if i == 11 then Tpm
    else if i == 12 then NoTpm
    else if i == 13 then Sound
    else NoSound
  }

  function Keys(): seq<Key> {
    seq(15, i requires 0 <= i < 15 => KeyAt(i))
  }

  function OptionItems(s: Settings): seq<Item> {
    seq(15, i requires 0 <= i < 15 => ItemFor(s, KeyAt(i)))
  }

  lemma SamePlace(i: Key, j: Key)
    requires At(i) == At(j)
    ensures i == j
  {
  }

  ghost predicate IsSetItem(item: Item, k: Key) {
    match item
    case Word(_) => false
    case Opt(name, _) => name == Text(k) && TakesValue(k)
    case Switch(name, _) => name == Text(k) && !TakesValue(k)
  }

  ghost predicate AreSetItems(items: seq<Item>, keys: seq<Key>) {
    |items| == |keys| && forall i :: 0 <= i < |items| ==> IsSetItem(items[i], keys[i])
  }

  predicate Acceptable(item: Item) {
    item.Opt? && item.value.Some? ==> !StartsWith(item.value.value, "--")
  }

  predicate AllAcceptable(items: seq<Item>) {
    forall i :: 0 <= i < |items| ==> Acceptable(items[i])
  }

  // The bindings hold what one item says.
  ghost predicate Holds(b: Bindings, item: Item, k: Key) {
    match item
    case Word(_) => false
    case Opt(_, value) => Bound(b, k) == value
    case Switch(_, on) => k in b.flags <==> on
  }

  ghost predicate HoldsItems(b: Bindings, items: seq<Item>, keys: seq<Key>) {
    |items| == |keys| && forall i :: 0 <= i < |items| ==> Holds(b, items[i], keys[i])
  }

  // Bindings that differ from `c` only in the first item's option hold all items if they
  // hold the first and `c` the others.
  lemma HeldWithFirst(items: seq<Item>, keys: seq<Key>, b: Bindings, c: Bindings)
    requires items != [] && |items| == |keys| && forall i, j :: 0 <= i < j < |keys| ==> keys[i] != keys[j]
    requires HoldsItems(c, items[1..], keys[1..]) && Holds(b, items[0], keys[0])
    requires forall j :: j != keys[0] ==> Bound(b, j) == Bound(c, j) && (j in b.flags <==> j in c.flags)
    ensures HoldsItems(b, items, keys)
  {
    forall i | 0 <= i < |items|
      ensures Holds(b, items[i], keys[i])
    {
      if i > 0 {
        assert Holds(c, items[1..][i - 1], keys[1..][i - 1]);
      }
    }
  }

  // The arguments of such items are walked successfully exactly if no value looks like an
  // option; then the parser binds exactly what the items say.
  lemma {:induction false} ParseOfItems(items: seq<Item>, keys: seq<Key>)
    requires AreSetItems(items, keys) && forall i, j :: 0 <= i < j < |keys| ==> keys[i] != keys[j]
    ensures Parse(Args(items)).Some? <==> AllAcceptable(items)
    ensures AllAcceptable(items) ==> HoldsItems(Parse(Args(items)).value, items, keys)
    ensures AllAcceptable(items) ==>
              forall k :: k !in keys ==> k !in Parse(Args(items)).value.values && k !in Parse(Args(items)).value.flags
  {
    if items != [] {
      ParseOfItems(items[1..], keys[1..]);
      assert forall i :: 0 < i < |items| ==> items[i] == items[1..][i - 1] && keys[i] == keys[1..][i - 1];
      ParseOfItem(items[0], Args(items[1..]), keys[0]);
      assert AllAcceptable(items) <==> Acceptable(items[0]) && AllAcceptable(items[1..]);
      assert keys == [keys[0]] + keys[1..];
      if AllAcceptable(items) {
        HeldWithFirst(items, keys, Parse(Args(items)).value, Parse(Args(items[1..])).value);
      }
    }
  }

  // One item in front of arguments that parse.
  lemma ParseOfItem(item: Item, tail: seq<string>, k: Key)
    requires IsSetItem(item, k)
    ensures Parse(ItemArgs(item) + tail).Some? <==> Acceptable(item) && Parse(tail).Some?
    ensures Acceptable(item) && Parse(tail).Some? ==>
              var b, c := Parse(ItemArgs(item) + tail).value, Parse(tail).value;
              && (forall j :: j != k ==> Bound(b, j) == Bound(c, j) && (j in b.flags <==> j in c.flags))
              && (k !in c.values && k !in c.flags ==> Holds(b, item, k))
  {
    KeyTexts(k);
    var args := ItemArgs(item) + tail;
    if ItemArgs(item) == [] {
      assert args == tail;
    } else if item.Opt? {
      assert args[0] == Text(k) && args[1] == item.value.value && args[2..] == tail;
    } else {
      assert args[0] == Text(k) && args[1..] == tail;
    }
  }

  predicate NumbersFit(s: Settings) {
    && (s.cpus.Some? ==> s.cpus.value < U64) && (s.vncPort.Some? ==> s.vncPort.value < U64)
    && (s.vncWidth.Some? ==> s.vncWidth.value < U64) && (s.vncHeight.Some? ==> s.vncHeight.value < U64)
  }

  // The bindings hold the settings, option by option.
  ghost predicate HoldsAll(b: Bindings, s: Settings) {
    forall k :: Holds(b, ItemFor(s, k), k)
  }

  lemma HeldNumbers(again: Bindings, s: Settings)
    requires HoldsAll(again, s) && NumbersFit(s)
    ensures Number(Bound(again, Cpus)) == s.cpus && Number(Bound(again, VncPort)) == s.vncPort
    ensures Number(Bound(again, VncWidth)) == s.vncWidth && Number(Bound(again, VncHeight)) == s.vncHeight
    ensures IsNumber(Bound(again, Cpus)) && IsNumber(Bound(again, VncPort))
    ensures IsNumber(Bound(again, VncWidth)) && IsNumber(Bound(again, VncHeight))
  {
    assert Holds(again, ItemFor(s, Cpus), Cpus) && Holds(again, ItemFor(s, VncPort), VncPort);
    assert Holds(again, ItemFor(s, VncWidth), VncWidth) && Holds(again, ItemFor(s, VncHeight), VncHeight);
    PrintedIsNumber(s.cpus);
    PrintedIsNumber(s.vncPort);
    PrintedIsNumber(s.vncWidth);
    PrintedIsNumber(s.vncHeight);
  }

  lemma FoundNumbersFit(name: string, b: Bindings)
    ensures NumbersFit(FromBindings(name, b))
  {
  }

  lemma HeldTexts(again: Bindings, s: Settings)
    requires HoldsAll(again, s)
    ensures Bound(again, Memory) == s.memory && Bound(again, Iso) == s.iso && Bound(again, VncBind) == s.vncBind
    ensures Bound(again, AddPassthru) == s.addPassthru && Bound(again, RemovePassthru) == s.removePassthru
    ensures Bound(again, Dsp) == s.dsp
  {
    assert Holds(again, ItemFor(s, Memory), Memory) && Holds(again, ItemFor(s, Iso), Iso);
    assert Holds(again, ItemFor(s, VncBind), VncBind) && Holds(again, ItemFor(s, Dsp), Dsp);
    assert Holds(again, ItemFor(s, AddPassthru), AddPassthru);
    assert Holds(again, ItemFor(s, RemovePassthru), RemovePassthru);
  }

  lemma HeldSwitches(again: Bindings, s: Settings)
    requires HoldsAll(again, s)
    ensures (Tpm in again.flags <==> s.tpm == Some(true)) && (NoTpm in again.flags <==> s.tpm == Some(false))
    ensures (Sound in again.flags <==> s.sound == Some(true)) && (NoSound in again.flags <==> s.sound == Some(false))
    ensures RemoveCd in again.flags <==> s.removeCd
  {
    assert Holds(again, ItemFor(s, Tpm), Tpm) && Holds(again, ItemFor(s, NoTpm), NoTpm);
    assert Holds(again, ItemFor(s, Sound), Sound) && Holds(again, ItemFor(s, NoSound), NoSound);
    assert Holds(again, ItemFor(s, RemoveCd), RemoveCd);
  }

  lemma IsItemFor(s: Settings, k: Key)
    ensures IsSetItem(ItemFor(s, k), k)
  {
  }

  lemma AreItems(s: Settings)
    ensures AreSetItems(OptionItems(s), Keys())
  {
    forall i | 0 <= i < 15
      ensures IsSetItem(OptionItems(s)[i], Keys()[i])
    {
      IsItemFor(s, KeyAt(i));
    }
  }

  // The arguments of the settings parse exactly if every item is acceptable, and then to
  // what the items say.
  lemma ParseOfSettings(s: Settings)
    ensures Parse(Args(OptionItems(s))).Some? <==> forall k :: Acceptable(ItemFor(s, k))
    ensures Parse(Args(OptionItems(s))).Some? ==> HoldsAll(Parse(Args(OptionItems(s))).value, s)
  {
    AreItems(s);
    ParseOfItems(OptionItems(s), Keys());
    forall k
      ensures OptionItems(s)[At(k)] == ItemFor(s, k) && Keys()[At(k)] == k
    {
      SamePlace(k, KeyAt(At(k)));
    }
  }

  // Whatever the parser bound, the items of the settings are acceptable arguments.
  lemma ItemsAcceptable(name: string, b: Bindings, k: Key)
    requires forall j :: j in b.values ==> !StartsWith(b.values[j], "--")
    ensures Acceptable(ItemFor(FromBindings(name, b), k))
  {
    var s := FromBindings(name, b);
    FoundNumbersFit(name, b);
    assert Bound(b, k).Some? ==> !StartsWith(Bound(b, k).value, "--");
    match k {
      case Cpus => PrintedIsNumber(s.cpus);
      case VncPort => PrintedIsNumber(s.vncPort);
      case VncWidth => PrintedIsNumber(s.vncWidth);
      case VncHeight => PrintedIsNumber(s.vncHeight);
      case _ =>
    }
  }

  // What a `set` request must be like: its numbers fit, no value looks like an option, something
  // is set, a disc is not removed and inserted at once, and a name that is itself a flag agrees
  // with what is set.
  ghost predicate Fits(s: Settings) {
    && NumbersFit(s) && (forall k :: Acceptable(ItemFor(s, k))) && (exists k :: !IsAbsent(ItemFor(s, k)))
    && !(s.removeCd && s.iso.Some?)
    && (IsFlagOption(s.name) ==> !IsAbsent(ItemFor(s, KeyOf(s.name).value)))
  }

  lemma BoundSomewhere(rest: seq<string>)
    requires Parse(rest).Some? && rest != []
    ensures KeyOf(rest[0]).Some?
    ensures var k := KeyOf(rest[0]).value;
            if TakesValue(k) then k in Parse(rest).value.values else k in Parse(rest).value.flags
  {
  }

  // Bindings that hold fitting settings are compatible and describe them.
  lemma HeldIsFound(s: Settings, b: Bindings)
    requires Fits(s) && HoldsAll(b, s)
    ensures Compatible(b) && FromBindings(s.name, b) == s
  {
    HeldNumbers(b, s);
    HeldTexts(b, s);
    HeldSwitches(b, s);
    SwitchSaid(s.tpm);
    SwitchSaid(s.sound);
  }

  lemma SwitchSaid(o: Option<bool>)
    ensures Tristate(o == Some(true), o == Some(false)) == o
  {
    match o {
      case None =>
      case Some(on) => assert on == true || on == false;
    }
  }

  // A flag for a name adds nothing to the bindings of fitting settings.
  lemma NameAgrees(s: Settings, b: Bindings)
    requires Fits(s) && HoldsAll(b, s)
    ensures WithName(s.name, b) == b
  {
    if IsFlagOption(s.name) {
      var k := KeyOf(s.name).value;
      IsItemFor(s, k);
      assert Holds(b, ItemFor(s, k), k);
      assert b.flags + {k} == b.flags;
    }
  }

  lemma {:induction false} PresentIsPrinted(items: seq<Item>, i: nat)
    requires i < |items| && !IsAbsent(items[i])
    ensures Args(items) != []
  {
    if i > 0 {
      PresentIsPrinted(items[1..], i - 1);
    }
  }

  lemma SomethingPrinted(s: Settings, k: Key)
    requires !IsAbsent(ItemFor(s, k))
    ensures Args(OptionItems(s)) != []
  {
    SamePlace(k, KeyAt(At(k)));
    assert OptionItems(s)[At(k)] == ItemFor(s, k);
    PresentIsPrinted(OptionItems(s), At(k));
  }

  // The arguments of fitting settings decode to them.
  lemma FittingDecodes(s: Settings)
    requires Fits(s) && !IsValueOption(s.name)
    ensures Encode(ToArgs(s)) == Some(s)
  {
    ParseOfSettings(s);
    var b := Parse(Args(OptionItems(s))).value;
    HeldIsFound(s, b);
    NameAgrees(s, b);
    var k :| !IsAbsent(ItemFor(s, k));
    SomethingPrinted(s, k);
    assert ToArgs(s)[1..] == Args(OptionItems(s));
    EncodeIsParse(ToArgs(s));
  }

  // What is bound is present among the items.
  lemma BoundIsPresent(name: string, b: Bindings, k: Key)
    requires Compatible(b) && if TakesValue(k) then k in b.values else k in b.flags
    ensures !IsAbsent(ItemFor(FromBindings(name, b), k))
  {
    if TakesValue(k) {
      assert Bound(b, k).Some?;
    }
  }

  // Every accepted request fits, unless its name is a value option.
  lemma AcceptedFits(args: seq<string>, s: Settings)
    requires Encode(args) == Some(s) && !IsValueOption(args[0])
    ensures Fits(s)
  {
    EncodeIsParse(args);
    var name, rest := args[0], args[1..];
    ParseIffWellFormed(rest);
    var b := WithName(name, Parse(rest).value);
    forall k ensures Acceptable(ItemFor(s, k)) { ItemsAcceptable(name, b, k); }
    FoundNumbersFit(name, b);
    BoundSomewhere(rest);
    BoundIsPresent(name, b, KeyOf(rest[0]).value);
    if IsFlagOption(name) { BoundIsPresent(name, b, KeyOf(name).value); }
  }

  // If the VM is named like an option that takes a value, the lookup of that option finds
  // the next argument, an option itself, and the request does not come back.
  lemma OptionNameFails(args: seq<string>, s: Settings)
    requires Encode(args) == Some(s) && IsValueOption(args[0])
    ensures Encode(ToArgs(s)) == None
  {
    var k, rest := KeyOf(args[0]).value, args[1..];
    TextOfKey(args[0]);
    ParseIffWellFormed(rest);
    var taken := rest[0];
    TextOfKey(taken);
    KeyTexts(KeyOf(taken).value);
    OptionIsNoNumber(taken);
    assert IndexOf(args, Text(k)) == Some(0);
    assert OptionalOption(args, Text(k)) == Some(Some(taken));
    TakenShows(args, s, k, taken);
    var items := OptionItems(s);
    ParseOfSettings(s);
    ParseIffWellFormed(Args(items));
    assert ToArgs(s)[1..] == Args(items);
  }

  lemma AssembledFields(name: string, l: Lookups, s: Settings)
    requires Assemble(name, l) == Some(s)
    ensures NumberOption(l.cpus).Some? && NumberOption(l.vncPort).Some?
    ensures NumberOption(l.vncWidth).Some? && NumberOption(l.vncHeight).Some?
    ensures l.memory == Some(s.memory) && l.iso == Some(s.iso) && l.vncBind == Some(s.vncBind)
    ensures l.addPassthru == Some(s.addPassthru) && l.removePassthru == Some(s.removePassthru)
    ensures l.dsp == Some(s.dsp)
  {
  }

  lemma TakenShows(args: seq<string>, s: Settings, k: Key, taken: string)
    requires Encode(args) == Some(s) && TakesValue(k)
    requires OptionalOption(args, Text(k)) == Some(Some(taken)) && ParseU64(taken).None?
    requires StartsWith(taken, "--")
    ensures exists j :: !Acceptable(ItemFor(s, j))
  {
    var l := LookUpAll(args);
    AssembledFields(args[0], l, s);
    assert s.memory == Some(taken) || s.iso == Some(taken) || s.vncBind == Some(taken)
        || s.addPassthru == Some(taken) || s.removePassthru == Some(taken) || s.dsp == Some(taken) by {
      assert NumberOption(Some(Some(taken))).None?;
    }
    UnacceptableItem(s, taken);
  }

  lemma UnacceptableItem(s: Settings, taken: string)
    requires StartsWith(taken, "--")
    requires s.memory == Some(taken) || s.iso == Some(taken) || s.vncBind == Some(taken)
          || s.addPassthru == Some(taken) || s.removePassthru == Some(taken) || s.dsp == Some(taken)
    ensures exists j :: !Acceptable(ItemFor(s, j))
  {
    var j := if s.memory == Some(taken) then Memory else if s.iso == Some(taken) then Iso
      else if s.vncBind == Some(taken) then VncBind else if s.addPassthru == Some(taken) then AddPassthru
      else if s.removePassthru == Some(taken) then RemovePassthru else Dsp;
    assert !Acceptable(ItemFor(s, j));
  }

  // The arguments of settings, whatever these are, decode to them exactly if they fit and the VM's
  // name is not an option that takes a value.
  lemma DecodesIff(s: Settings)
    ensures Encode(ToArgs(s)) == Some(s) <==> Fits(s) && !IsValueOption(s.name)
  {
    if Fits(s) && !IsValueOption(s.name) {
      FittingDecodes(s);
    } else if Encode(ToArgs(s)) == Some(s) {
      if IsValueOption(s.name) {
        OptionNameFails(ToArgs(s), s);
      } else {
        AcceptedFits(ToArgs(s), s);
      }
    }
  }

  // Turning an accepted `set` request into arguments and encoding those again gives back
  // the request exactly if the VM's name is not an option that takes a value.
  lemma RoundTripIff(args: seq<string>, s: Settings)
    requires Encode(args) == Some(s)
    ensures Encode(ToArgs(s)) == Some(s) <==> !IsValueOption(s.name)
    ensures !IsValueOption(s.name) ==> Fits(s)
  {
    NamedFirst(args, s);
    DecodesIff(s);
    if !IsValueOption(s.name) {
      AcceptedFits(args, s);
    }
  }

  lemma NamedFirst(args: seq<string>, s: Settings)
    requires Encode(args) == Some(s)
    ensures |args| > 1 && s.name == args[0]
  {
    AssembledName(args[0], LookUpAll(args), s);
  }

  lemma AssembledName(name: string, l: Lookups, s: Settings)
    requires Assemble(name, l) == Some(s)
    ensures s.name == name
  {
  }

  // There are such requests: the VM is called like the option that looks like its value.
  lemma OptionNameExample() returns (s: Settings)
    ensures Encode(["--memory", "--tpm"]) == Some(s) && Encode(ToArgs(s)) == None
  {
    var args := ["--memory", "--tpm"];
    var l := LookUpAll(args);
    assert IndexOf(args, "--memory") == Some(0);
    assert OptionalOption(args, "--memory") == Some(Some("--tpm"));
    ExampleLookups(args, l);
    assert args[1..] == ["--tpm"] && args[1..][1..] == [];
    assert WellFormed(args[1..]);
    s := Assemble("--memory", l).value;
    OptionNameFails(args, s);
  }

  lemma ExampleLookups(args: seq<string>, l: Lookups)
    requires args == ["--memory", "--tpm"] && l == LookUpAll(args)
    ensures l == Lookups(Some(None), Some(Some("--tpm")), Some(None), Some(None), Some(None), Some(None), Some(None),
                         Some(None), Some(None), Some(None), true, false, false, false, false, false)
  {
    assert forall k :: k != Memory && k != Tpm ==> Text(k) !in args by {
      forall k | k != Memory && k != Tpm
        ensures Text(k) !in args
      {
        KeyTexts(k);
      }
    }
    assert IndexOf(args, "--memory") == Some(0);
    assert args[1] == "--tpm";
  }
}
