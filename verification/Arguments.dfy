/**
 Looking options up in an argument vector: always the first occurrence anywhere, in any
 position. Against it stands the vector as a list of items, which is how requests are
 turned back into arguments.
 */
module Arguments {
  import opened Wrappers
  import opened Numbers

  function IndexOf(args: seq<string>, o: string): (at: Option<nat>)
    ensures at.Some? ==> at.value < |args| && args[at.value] == o && o !in args[..at.value]
    ensures at.None? <==> o !in args
  {
    if args == [] then None
    else if args[0] == o then Some(0)
    else match IndexOf(args[1..], o)
      case None => None
      case Some(i) =>
        assert args[..i + 1] == [args[0]] + args[1..][..i];
        Some(i + 1)
  }

  function Arg(args: seq<string>, i: nat): Option<string> {
    if i < |args| then Some(args[i]) else None
  }

  // `optional_option`: None if the option comes last, without a value.
  function OptionalOption(args: seq<string>, o: string): Option<Option<string>> {
    match IndexOf(args, o)
    case None => Some(None)
    case Some(i) => if i + 1 < |args| then Some(Some(args[i + 1])) else None
  }

  // `named_option`: the option must be there.
  function NamedOption(args: seq<string>, o: string): Option<string> {
    match OptionalOption(args, o)
    case None => None
    case Some(v) => v
  }

  predicate HasFlag(args: seq<string>, f: string) {
    f in args
  }

  predicate StartsWith(s: string, prefix: string) {
    prefix <= s
  }

  // `encode_optional_number`: no option, or one whose value is a number.
  function NumberOption(found: Option<Option<string>>): Option<Option<nat>> {
    match found
    case None => None
    case Some(None) => Some(None)
    case Some(Some(text)) => (match ParseU64(text) case None => None case Some(n) => Some(Some(n)))
  }

  predicate IsNumber(text: Option<string>) {
    text.Some? ==> ParseU64(text.value).Some?
  }

  function Number(text: Option<string>): Option<nat> {
    if text.Some? then ParseU64(text.value) else None
  }

  lemma NumberFound(text: Option<string>)
    ensures NumberOption(Some(text)) == if IsNumber(text) then Some(Number(text)) else None
  {
  }

  function Printed(n: Option<nat>): Option<string> {
    if n.Some? then Some(Print(n.value)) else None
  }

  lemma PrintedIsNumber(n: Option<nat>)
    requires n.Some? ==> n.value < U64
    ensures IsNumber(Printed(n)) && Number(Printed(n)) == n
    ensures n.Some? ==> !StartsWith(Print(n.value), "--")
  {
    if n.Some? {
      ParseOfPrint(n.value);
      assert IsDigit(Print(n.value)[0]);
    }
  }

  lemma {:induction false} ParsedDigits(text: string)
    requires ParseDigits(text).Some?
    ensures forall i :: 0 <= i < |text| ==> IsDigit(text[i])
  {
    if text != "" {
      ParsedDigits(text[..|text| - 1]);
    }
  }

  lemma OptionIsNoNumber(text: string)
    requires StartsWith(text, "--")
    ensures ParseU64(text).None?
  {
    assert !IsDigit(text[0]);
    if ParseDigits(text).Some? {
      ParsedDigits(text);
    }
  }

  // `repeated_options` as a recursion over the rest of the arguments.
  function Repeated(args: seq<string>, o: string): Option<seq<string>> {
    if args == [] then Some([])
    else if args[0] != o then Repeated(args[1..], o)
    else if |args| < 2 || StartsWith(args[1], "-") then None
    else Prepend([args[1]], Repeated(args[2..], o))
  }

  method RepeatedOptions(args: seq<string>, o: string) returns (r: Option<seq<string>>)
    ensures r == Repeated(args, o)
  {
    var values: seq<string> := [];
    var index := 0;
    while index < |args|
      invariant 0 <= index <= |args|
      invariant Repeated(args, o) == Prepend(values, Repeated(args[index..], o))
    {
      assert args[index..][1..] == args[index + 1..];
      if args[index] == o {
        if index + 1 >= |args| || StartsWith(args[index + 1], "-") {
          return None;
        }
        assert args[index..][2..] == args[index + 2..];
        PrependTwice(values, [args[index + 1]], Repeated(args[index + 2..], o));
        values := values + [args[index + 1]];
        index := index + 2;
      } else {
        index := index + 1;
      }
    }
    return Some(values);
  }

  function Prepend(values: seq<string>, rest: Option<seq<string>>): (r: Option<seq<string>>)
    ensures values == [] ==> r == rest
    ensures rest == Some([]) ==> r == Some(values)
  {
    match rest
    case None => None
    case Some(tail) =>
      assert [] + tail == tail && values + [] == values;
      Some(values + tail)
  }

  lemma PrependTwice(a: seq<string>, b: seq<string>, rest: Option<seq<string>>)
    ensures Prepend(a, Prepend(b, rest)) == Prepend(a + b, rest)
  {
    if rest.Some? {
      assert a + (b + rest.value) == a + b + rest.value;
    }
  }

  // A free-form word, an option with its value if present, a switch if on.
  datatype Item = Word(text: string) | Opt(name: string, value: Option<string>) | Switch(name: string, on: bool)

  function ItemArgs(item: Item): seq<string> {
    match item
    case Word(text) => [text]
    case Opt(name, value) => if value.Some? then [name, value.value] else []
    case Switch(name, on) => if on then [name] else []
  }

  function Args(items: seq<Item>): seq<string> {
    if items == [] then [] else ItemArgs(items[0]) + Args(items[1..])
  }

  // No free-form text of the item is the option name `o`.
  predicate FreeOf(item: Item, o: string) {
    match item
    case Word(text) => text != o
    case Opt(_, value) => value != Some(o)
    case Switch(_, _) => true
  }

  predicate Named(item: Item, o: string) {
    !item.Word? && item.name == o
  }

  lemma {:induction false} SkipPrefix(a: seq<string>, b: seq<string>, o: string)
    requires o !in a
    ensures OptionalOption(a + b, o) == OptionalOption(b, o)
    ensures HasFlag(a + b, o) == HasFlag(b, o)
    decreases |a|
  {
    if a == [] {
      assert a + b == b;
    } else {
      assert (a + b)[1..] == a[1..] + b;
      assert a == [a[0]] + a[1..];
      SkipPrefix(a[1..], b, o);
    }
  }

  // ---- What looking up the name of an item finds ----

  // The j-th item is the first whose free-form text is the option name `o`.
  ghost predicate SaysFirst(items: seq<Item>, o: string, j: nat) {
    j < |items| && !FreeOf(items[j], o) && forall i :: 0 <= i < j ==> FreeOf(items[i], o)
  }

  predicate IsAbsent(item: Item) {
    ItemArgs(item) == []
  }

  // The lookup of the k-th item's name stops at the text of the j-th item instead.
  ghost predicate Diverted(items: seq<Item>, k: nat, j: nat) {
    && k < |items| && !items[k].Word?
    && SaysFirst(items, items[k].name, j) && j != k && (j < k || IsAbsent(items[k]))
  }

  // What the lookup finds there: whatever argument comes next.
  function After(items: seq<Item>, j: nat): Option<string>
    requires j < |items|
  {
    Arg(Args(items[j + 1..]), 0)
  }

  // The lookup of the k-th item's name yields what the item says, because no text diverts
  // it or because the argument after that text happens to be the same.
  ghost predicate Undisturbed(items: seq<Item>, k: nat) {
    forall j :: Diverted(items, k, j) ==>
      match items[k]
      case Opt(_, value) => value.Some? && After(items, j) == value
      case Switch(_, on) => on
  }

  // No other item has the k-th item's name.
  ghost predicate NamedOnce(items: seq<Item>, k: nat) {
    && k < |items| && !items[k].Word?
    && forall i :: 0 <= i < |items| && i != k ==> !Named(items[i], items[k].name)
  }

  lemma {:induction false} NotThere(items: seq<Item>, o: string)
    requires forall i :: 0 <= i < |items| ==> FreeOf(items[i], o) && !Named(items[i], o)
    ensures o !in Args(items)
  {
    if items != [] {
      NotThere(items[1..], o);
    }
  }

  lemma Regroup(a: seq<string>, b: seq<string>, c: seq<string>)
    ensures a + (b + c) == (a + b) + c
  {
  }

  lemma {:induction false} ArgsConcat(a: seq<Item>, b: seq<Item>)
    ensures Args(a + b) == Args(a) + Args(b)
  {
    if a == [] {
      assert a + b == b;
    } else {
      ArgsConcat(a[1..], b);
      assert (a + b)[1..] == a[1..] + b;
      Regroup(ItemArgs(a[0]), Args(a[1..]), Args(b));
    }
  }

  lemma ArgsSplit(items: seq<Item>, j: nat)
    requires j < |items|
    ensures Args(items) == Args(items[..j]) + (ItemArgs(items[j]) + Args(items[j + 1..]))
  {
    assert items == items[..j] + items[j..];
    ArgsConcat(items[..j], items[j..]);
    assert items[j..][1..] == items[j + 1..];
  }

  lemma Stops(first: seq<string>, o: string, rest: seq<string>)
    requires o !in first
    ensures OptionalOption(first + ([o] + rest), o) == if rest == [] then None else Some(Some(rest[0]))
    ensures HasFlag(first + ([o] + rest), o)
  {
    SkipPrefix(first, [o] + rest, o);
    assert IndexOf([o] + rest, o) == Some(0);
  }

  // Where a text stands before the option it names, the lookup finds what follows the text.
  lemma DivertedLookUp(items: seq<Item>, k: nat, j: nat)
    requires NamedOnce(items, k) && Diverted(items, k, j)
    ensures var o := items[k].name;
            && OptionalOption(Args(items), o) == (if After(items, j).None? then None else Some(After(items, j)))
            && HasFlag(Args(items), o)
  {
    NothingBefore(items, k, j);
    ArgsSplit(items, j);
    StopsAtText(Args(items[..j]), items[j], items[k].name, Args(items[j + 1..]));
  }

  lemma NothingBefore(items: seq<Item>, k: nat, j: nat)
    requires NamedOnce(items, k) && Diverted(items, k, j)
    ensures items[k].name !in Args(items[..j])
  {
    var o, before := items[k].name, items[..j];
    forall i | 0 <= i < |before|
      ensures FreeOf(before[i], o) && (!IsAbsent(before[i]) ==> !Named(before[i], o))
    {
      assert before[i] == items[i];
    }
    BeforeText(before, o);
  }

  lemma StopsAtText(before: seq<string>, item: Item, o: string, rest: seq<string>)
    requires !FreeOf(item, o) && !Named(item, o) && o !in before
    ensures var args := before + (ItemArgs(item) + rest);
            && OptionalOption(args, o) == (if rest == [] then None else Some(Some(rest[0])))
            && HasFlag(args, o)
  {
    match item {
      case Word(_) =>
        Stops(before, o, rest);
      case Opt(name, _) =>
        assert before + ([name, o] + rest) == (before + [name]) + ([o] + rest);
        Stops(before + [name], o, rest);
    }
  }

  lemma {:induction false} BeforeText(items: seq<Item>, o: string)
    requires forall i :: 0 <= i < |items| ==> FreeOf(items[i], o) && (!IsAbsent(items[i]) ==> !Named(items[i], o))
    ensures o !in Args(items)
  {
    if items != [] {
      BeforeText(items[1..], o);
    }
  }

  // A text that names the item diverts the lookup, or an earlier such text does.
  lemma {:induction false} TextDiverts(items: seq<Item>, k: nat, i: nat)
    requires NamedOnce(items, k) && i < |items| && (i < k || IsAbsent(items[k]))
    requires !FreeOf(items[i], items[k].name)
    ensures exists j :: Diverted(items, k, j)
    decreases i
  {
    if h :| 0 <= h < i && !FreeOf(items[h], items[k].name) {
      TextDiverts(items, k, h);
    } else {
      assert Diverted(items, k, i);
    }
  }

  // Otherwise the lookup finds what the item says.
  lemma UndivertedLookUp(items: seq<Item>, k: nat)
    requires NamedOnce(items, k) && !exists j :: Diverted(items, k, j)
    ensures items[k].Opt? ==> OptionalOption(Args(items), items[k].name) == Some(items[k].value)
    ensures items[k].Switch? ==> HasFlag(Args(items), items[k].name) == items[k].on
  {
    forall i | 0 <= i < |items| && (i < k || IsAbsent(items[k]))
      ensures FreeOf(items[i], items[k].name)
    {
      if !FreeOf(items[i], items[k].name) { TextDiverts(items, k, i); }
    }
    if IsAbsent(items[k]) {
      BeforeText(items, items[k].name);
    } else {
      OwnOption(items, k);
    }
  }

  lemma OwnOption(items: seq<Item>, k: nat)
    requires NamedOnce(items, k) && !IsAbsent(items[k])
    requires forall i :: 0 <= i < k ==> FreeOf(items[i], items[k].name)
    ensures items[k].Opt? ==> OptionalOption(Args(items), items[k].name) == Some(items[k].value)
    ensures items[k].Switch? ==> HasFlag(Args(items), items[k].name)
  {
    BeforeText(items[..k], items[k].name);
    ArgsSplit(items, k);
    StopsAtItem(Args(items[..k]), items[k], Args(items[k + 1..]));
  }

  lemma StopsAtItem(before: seq<string>, item: Item, rest: seq<string>)
    requires !item.Word? && !IsAbsent(item) && item.name !in before
    ensures var args := before + (ItemArgs(item) + rest);
            && (item.Opt? ==> OptionalOption(args, item.name) == Some(item.value))
            && HasFlag(args, item.name)
  {
    match item {
      case Opt(o, value) =>
        assert [o, value.value] + rest == [o] + ([value.value] + rest);
        Stops(before, o, [value.value] + rest);
      case Switch(o, _) =>
        Stops(before, o, rest);
    }
  }

  // Looking the name of an item up in the arguments finds what the item says exactly if
  // the lookup is not disturbed.
  lemma LookUpIff(items: seq<Item>, k: nat)
    requires NamedOnce(items, k)
    ensures items[k].Opt? ==>
              (OptionalOption(Args(items), items[k].name) == Some(items[k].value) <==> Undisturbed(items, k))
    ensures items[k].Switch? ==> (HasFlag(Args(items), items[k].name) == items[k].on <==> Undisturbed(items, k))
  {
    if j :| Diverted(items, k, j) {
      DivertedLookUp(items, k, j);
    } else {
      UndivertedLookUp(items, k);
    }
  }
}
