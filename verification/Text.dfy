/** Option and Result types used by every module. */
module Wrappers {
  datatype Option<+T> = None | Some(value: T) {
    predicate IsFailure() {
      None?
    }

    function PropagateFailure<U>(): Option<U>
      requires None?
    {
      None
    }

    function Extract(): T
      requires Some?
    {
      value
    }

    function GetOr(default: T): T {
      match this
      case Some(v) => v
      case None => default
    }
  }

  datatype Result<+T, +E> = Ok(value: T) | Err(error: E)
}

/**
 The string operations the daemon and the client rely on: `trim`, `split(',')`,
 `join(",")` and the filter that drops empty parts, together with the rule by which
 a ZFS user property is read back.
 */
module Text {
  import opened Wrappers

  // The Unicode White_Space property, which is what `str::trim` removes.
  predicate IsWhitespace(c: char) {
    || '\t' <= c <= '\r'
    || c == ' '
    || c == '\U{0085}'
    || c == '\U{00A0}'
    || c == '\U{1680}'
    || '\U{2000}' <= c <= '\U{200A}'
    || c == '\U{2028}'
    || c == '\U{2029}'
    || c == '\U{202F}'
    || c == '\U{205F}'
    || c == '\U{3000}'
  }

  function TrimStart(s: string): string {
    if s != "" && IsWhitespace(s[0]) then TrimStart(s[1..]) else s
  }

  function TrimEnd(s: string): string {
    if s != "" && IsWhitespace(s[|s| - 1]) then TrimEnd(s[..|s| - 1]) else s
  }

  function Trim(s: string): string {
    TrimEnd(TrimStart(s))
  }

  // No leading and no trailing whitespace.
  predicate Trimmed(s: string) {
    s != "" ==> !IsWhitespace(s[0]) && !IsWhitespace(s[|s| - 1])
  }

  lemma {:induction false} TrimStartSuffix(s: string)
    ensures TrimStart(s) != "" ==> !IsWhitespace(TrimStart(s)[0])
    ensures forall c :: c in TrimStart(s) ==> c in s
  {
    if s != "" && IsWhitespace(s[0]) {
      TrimStartSuffix(s[1..]);
    }
  }

  lemma {:induction false} TrimEndPrefix(s: string)
    ensures TrimEnd(s) <= s
    ensures TrimEnd(s) != "" ==> !IsWhitespace(TrimEnd(s)[|TrimEnd(s)| - 1])
  {
    if s != "" && IsWhitespace(s[|s| - 1]) {
      TrimEndPrefix(s[..|s| - 1]);
    }
  }

  // Trimming yields a trimmed text made of characters of the argument, and a trimmed
  // text is left alone.
  lemma TrimResult(s: string)
    ensures Trimmed(Trim(s))
    ensures forall c :: c in Trim(s) ==> c in s
    ensures Trimmed(s) ==> Trim(s) == s
  {
    TrimStartSuffix(s);
    TrimEndPrefix(TrimStart(s));
  }

  predicate Blank(s: string) {
    forall i :: 0 <= i < |s| ==> IsWhitespace(s[i])
  }

  // What it takes away is whitespace at the two ends.
  lemma TrimTakesWhitespace(s: string) returns (before: string, after: string)
    ensures s == before + Trim(s) + after && Blank(before) && Blank(after)
  {
    before := StartTaken(s);
    after := EndTaken(TrimStart(s));
    assert before + (Trim(s) + after) == before + Trim(s) + after;
  }

  lemma {:induction false} StartTaken(s: string) returns (before: string)
    ensures s == before + TrimStart(s) && Blank(before)
  {
    before := "";
    if s != "" && IsWhitespace(s[0]) {
      var rest := StartTaken(s[1..]);
      before := [s[0]] + rest;
    }
  }

  lemma {:induction false} EndTaken(s: string) returns (after: string)
    ensures s == TrimEnd(s) + after && Blank(after)
  {
    after := "";
    if s != "" && IsWhitespace(s[|s| - 1]) {
      var rest := EndTaken(s[..|s| - 1]);
      after := rest + [s[|s| - 1]];
      assert s == s[..|s| - 1] + [s[|s| - 1]];
    }
  }

  function Split(s: string, sep: char): (parts: seq<string>)
    ensures |parts| >= 1
  {
    if s == "" then [""]
    else
      var rest := Split(s[1..], sep);
      if s[0] == sep then [""] + rest else [[s[0]] + rest[0]] + rest[1..]
  }

  function Join(parts: seq<string>, sep: char): string {
    if parts == [] then ""
    else if |parts| == 1 then parts[0]
    else parts[0] + [sep] + Join(parts[1..], sep)
  }

  function NonEmpty(parts: seq<string>): (kept: seq<string>)
    ensures forall p :: p in kept <==> p in parts && p != ""
    ensures |kept| <= |parts|
  {
    if parts == [] then []
    else (if parts[0] == "" then [] else [parts[0]]) + NonEmpty(parts[1..])
  }

  function TrimAll(parts: seq<string>): (trimmed: seq<string>)
    ensures |trimmed| == |parts|
    ensures forall i :: 0 <= i < |parts| ==> trimmed[i] == Trim(parts[i])
  {
    if parts == [] then [] else [Trim(parts[0])] + TrimAll(parts[1..])
  }

  lemma {:induction false} SplitPartsLackSeparator(s: string, sep: char)
    ensures forall p :: p in Split(s, sep) ==> sep !in p
  {
    if s != "" {
      SplitPartsLackSeparator(s[1..], sep);
      var rest := Split(s[1..], sep);
      assert rest[0] in rest;
      assert forall p :: p in rest[1..] ==> p in rest;
    }
  }

  // Splitting a text without separators gives that text alone; a separator-free prefix
  // is glued to the first part of the split.
  lemma {:induction false} SplitPrefix(a: string, s: string, sep: char)
    requires sep !in a
    ensures Split(a + s, sep) == [a + Split(s, sep)[0]] + Split(s, sep)[1..]
    decreases |a|
  {
    if a == "" {
      assert a + s == s;
      assert a + Split(s, sep)[0] == Split(s, sep)[0];
    } else {
      assert (a + s)[1..] == a[1..] + s;
      SplitPrefix(a[1..], s, sep);
      assert [a[0]] + (a[1..] + Split(s, sep)[0]) == a + Split(s, sep)[0];
    }
  }

  // Splitting undoes joining.
  lemma {:induction false} SplitOfJoin(parts: seq<string>, sep: char)
    requires parts != []
    requires forall p :: p in parts ==> sep !in p
    ensures Split(Join(parts, sep), sep) == parts
  {
    if |parts| == 1 {
      SplitPrefix(parts[0], "", sep);
      assert parts[0] + "" == parts[0];
    } else {
      SplitOfJoin(parts[1..], sep);
      var tail := Join(parts[1..], sep);
      assert parts[0] + [sep] + tail == parts[0] + ([sep] + tail);
      assert ([sep] + tail)[1..] == tail;
      SplitPrefix(parts[0], [sep] + tail, sep);
      assert Split([sep] + tail, sep) == [""] + parts[1..];
      assert parts[0] + "" == parts[0];
    }
  }

  // Joining undoes splitting.
  lemma {:induction false} JoinOfSplit(s: string, sep: char)
    ensures Join(Split(s, sep), sep) == s
  {
    if s == "" {
      assert Join([""], sep) == "";
    } else {
      JoinOfSplit(s[1..], sep);
      JoinOfSplitStep(s, Split(s[1..], sep), sep);
    }
  }

  lemma JoinOfSplitStep(s: string, rest: seq<string>, sep: char)
    requires s != "" && rest == Split(s[1..], sep) && Join(rest, sep) == s[1..]
    ensures Join(Split(s, sep), sep) == s
  {
    assert s == [s[0]] + s[1..];
    if s[0] == sep {
      assert Split(s, sep) == [""] + rest;
      JoinAfterEmpty(rest, sep);
    } else {
      assert Split(s, sep) == [[s[0]] + rest[0]] + rest[1..];
      JoinLongerFirst(rest, s[0], sep);
    }
  }

  lemma JoinAfterEmpty(parts: seq<string>, sep: char)
    requires parts != []
    ensures Join([""] + parts, sep) == [sep] + Join(parts, sep)
  {
    assert ([""] + parts)[1..] == parts;
  }

  lemma JoinLongerFirst(parts: seq<string>, c: char, sep: char)
    requires parts != []
    ensures Join([[c] + parts[0]] + parts[1..], sep) == [c] + Join(parts, sep)
  {
    var longer := [[c] + parts[0]] + parts[1..];
    if |parts| > 1 {
      assert longer[1..] == parts[1..];
      assert ([c] + parts[0]) + [sep] + Join(parts[1..], sep) == [c] + (parts[0] + [sep] + Join(parts[1..], sep));
    }
  }

  // A name that can stand in a dependency list: what is left after the client has
  // split its argument at commas, trimmed the parts and dropped the empty ones.
  predicate Clean(name: string) {
    name != "" && ',' !in name && Trimmed(name)
  }

  predicate AllClean(names: seq<string>) {
    forall n :: n in names ==> Clean(n)
  }

  // What `metadata::get` returns for a property whose stored text is `stored`.
  function ReadProperty(stored: string): (value: Option<string>) {
    var v := Trim(stored);
    if v == "" || v == "-" then None else Some(v)
  }

  function BoolText(b: bool): string {
    if b then "true" else "false"
  }

  function ParseBool(text: string): Option<bool> {
    if text == "true" then Some(true) else if text == "false" then Some(false) else None
  }

  // `metadata::get_bool`: the default if there is no value, nothing if it is no boolean.
  function ReadBool(stored: string, default: bool): Option<bool> {
    match ReadProperty(stored)
    case None => Some(default)
    case Some(value) => ParseBool(value)
  }

  // How every reader decodes the `dependencies` (and `passthru`) property.
  function ReadList(stored: string): seq<string> {
    NonEmpty(Split(ReadProperty(stored).GetOr(""), ','))
  }

  // How the client decodes the list given on its command line.
  function ParseList(argument: string): seq<string> {
    NonEmpty(TrimAll(Split(argument, ',')))
  }

  lemma {:induction false} NonEmptyKeepsAll(parts: seq<string>)
    requires forall i :: 0 <= i < |parts| ==> parts[i] != ""
    ensures NonEmpty(parts) == parts
  {
    if parts != [] {
      NonEmptyKeepsAll(parts[1..]);
    }
  }

  lemma {:induction false} JoinEnds(parts: seq<string>, sep: char)
    requires parts != []
    requires forall i :: 0 <= i < |parts| ==> parts[i] != ""
    ensures var j, last := Join(parts, sep), parts[|parts| - 1];
            j != "" && j[0] == parts[0][0] && j[|j| - 1] == last[|last| - 1] && (|parts| > 1 ==> |j| >= 3)
  {
    if |parts| > 1 {
      var rest := parts[1..];
      JoinEnds(rest, sep);
      var j, k := Join(parts, sep), Join(rest, sep);
      assert j == parts[0] + [sep] + k;
      assert j[0] == parts[0][0];
      assert j[|j| - 1] == k[|k| - 1];
      assert rest[|rest| - 1] == parts[|parts| - 1];
    }
  }

  lemma JoinOfCleanIsTrimmed(names: seq<string>)
    requires AllClean(names)
    ensures Trimmed(Join(names, ','))
    ensures names != [] ==> Join(names, ',') != ""
  {
    if names != [] {
      assert forall i :: 0 <= i < |names| ==> names[i] in names;
      JoinEnds(names, ',');
      assert names[0] in names && names[|names| - 1] in names;
    }
  }

  // Writing a clean list as a property and reading it back gives the list, except that
  // the one-element list ["-"] reads back as empty.
  lemma ReadListOfJoin(names: seq<string>)
    requires AllClean(names)
    ensures ReadList(Join(names, ',')) == if names == ["-"] then [] else names
  {
    var j := Join(names, ',');
    JoinOfCleanIsTrimmed(names);
    TrimResult(j);
    if names == [] {
    } else {
      SplitOfJoin(names, ',');
      assert forall i :: 0 <= i < |names| ==> names[i] in names;
      NonEmptyKeepsAll(names);
      if |names| > 1 {
        JoinEnds(names, ',');
      }
    }
  }

  // The client's decoding always yields clean names, and leaves a joined clean list
  // as it is, so decoding twice (once when the request is built, once in the child
  // process) is the same as decoding once.
  lemma ParseListIsClean(argument: string)
    ensures AllClean(ParseList(argument))
  {
    var parts := Split(argument, ',');
    SplitPartsLackSeparator(argument, ',');
    forall n | n in ParseList(argument)
      ensures Clean(n)
    {
      var i :| 0 <= i < |parts| && TrimAll(parts)[i] == n;
      assert parts[i] in parts;
      TrimResult(parts[i]);
    }
  }

  lemma ParseListOfJoin(names: seq<string>)
    requires AllClean(names)
    ensures ParseList(Join(names, ',')) == names
  {
    if names != [] {
      SplitOfJoin(names, ',');
      forall i | 0 <= i < |names|
        ensures TrimAll(names)[i] == names[i]
      {
        assert names[i] in names;
        TrimResult(names[i]);
      }
      assert TrimAll(names) == names;
      assert forall i :: 0 <= i < |names| ==> names[i] in names;
      NonEmptyKeepsAll(names);
    }
  }

  // The child's command line takes a text that starts with a dash for an option, unless it
  // is a single dash.
  predicate IsOperand(text: string) {
    text == "-" || text == "" || text[0] != '-'
  }

  // A dependency list on its whole way: command-line text, request array, argument of the
  // child process, ZFS property, dependency graph. The child may reject it.
  function Journey(argument: string): Option<seq<string>> {
    var requestArray := ParseList(argument);
    var childArgument := Join(requestArray, ',');
    if !IsOperand(childArgument) then None
    else
      var values := ParseList(childArgument);
      var stored := Join(values, ',');
      Some(ReadList(stored))
  }

  // The names that arrive are the names that were typed. The list ["-"] gets lost, and any
  // other list whose first name starts with a dash is rejected.
  lemma JourneyKeepsNames(argument: string)
    ensures var names := ParseList(argument);
            Journey(argument) == if names == ["-"] then Some([])
                                 else if names != [] && "-" <= names[0] then None
                                 else Some(names)
  {
    var names := ParseList(argument);
    ParseListIsClean(argument);
    ParseListOfJoin(names);
    ReadListOfJoin(names);
    if names != [] {
      assert forall i :: 0 <= i < |names| ==> names[i] in names;
      JoinEnds(names, ',');
    }
    assert Join(["-"], ',') == "-";
  }
}
