/** Request trees: named fields in order of insertion, looked up by first match. */
module Nvtree {
  import opened Wrappers

  datatype Value = Str(text: string) | Num(n: nat) | Bool(b: bool) | List(items: seq<string>)

  datatype Pair = Pair(name: string, value: Value)

  type Tree = seq<Pair>

  function Find(tree: Tree, name: string): Option<Value> {
    if tree == [] then None
    else if tree[0].name == name then Some(tree[0].value)
    else Find(tree[1..], name)
  }

  function StringField(tree: Tree, name: string): Option<string> {
    match Find(tree, name)
    case Some(Str(text)) => Some(text)
    case _ => None
  }

  function NumberField(tree: Tree, name: string): Option<nat> {
    match Find(tree, name)
    case Some(Num(n)) => Some(n)
    case _ => None
  }

  function BoolField(tree: Tree, name: string): Option<bool> {
    match Find(tree, name)
    case Some(Bool(b)) => Some(b)
    case _ => None
  }

  function ListField(tree: Tree, name: string): Option<seq<string>> {
    match Find(tree, name)
    case Some(List(items)) => Some(items)
    case _ => None
  }

  // A field that is added only if it has a value.
  datatype Field = Field(name: string, value: Option<Value>)

  function Present(fields: seq<Field>): Tree {
    if fields == [] then []
    else
      (match fields[0].value
       case None => []
       case Some(v) => [Pair(fields[0].name, v)]) + Present(fields[1..])
  }

  ghost predicate NamesDiffer(fields: seq<Field>) {
    forall i, j :: 0 <= i < j < |fields| ==> fields[i].name != fields[j].name
  }

  lemma PresentStep(fields: seq<Field>)
    requires fields != []
    ensures fields[0].value.None? ==> Present(fields) == Present(fields[1..])
    ensures fields[0].value.Some? ==> Present(fields) != []
    ensures fields[0].value.Some? ==> Present(fields)[0] == Pair(fields[0].name, fields[0].value.value)
    ensures fields[0].value.Some? ==> Present(fields)[1..] == Present(fields[1..])
  {
  }

  lemma {:induction false} FindAbsent(fields: seq<Field>, name: string)
    requires forall i :: 0 <= i < |fields| ==> fields[i].name != name
    ensures Find(Present(fields), name) == None
  {
    if fields != [] {
      FindAbsent(fields[1..], name);
      PresentStep(fields);
    }
  }

  // Every field of a tree with distinct field names is found with its value.
  lemma {:induction false} FindField(fields: seq<Field>, k: nat)
    requires NamesDiffer(fields) && k < |fields|
    ensures Find(Present(fields), fields[k].name) == fields[k].value
    decreases k
  {
    PresentStep(fields);
    if k == 0 {
      FindAbsent(fields[1..], fields[0].name);
    } else {
      FindField(fields[1..], k - 1);
    }
  }

  lemma FindFields(fields: seq<Field>)
    requires NamesDiffer(fields)
    ensures forall k :: 0 <= k < |fields| ==> Find(Present(fields), fields[k].name) == fields[k].value
  {
    forall k | 0 <= k < |fields|
      ensures Find(Present(fields), fields[k].name) == fields[k].value
    {
      FindField(fields, k);
    }
  }
}
