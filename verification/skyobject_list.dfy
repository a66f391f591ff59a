/** The list model behind the object-search views: an ordered list of
    (name, sky object) pairs with first-match lookup by name, name filtering
    and role-based data access. The object pointer is an opaque handle and the
    regular-expression match is an arbitrary predicate on names. */
module SkyObjectList {

  /** Stands for a `const SkyObject *`. */
  type ObjectRef = nat

  datatype Entry = Entry(name: string, obj: ObjectRef)

  /** The model's state: the stored vector of pairs. */
  datatype ListModel = ListModel(entries: seq<Entry>)

  /** A model index: invalid, or valid and pointing at a row. */
  datatype ModelIndex = Invalid | At(row: nat)

  /** The roles the model tells apart; every other role code is `OtherRole`. */
  datatype Role = DisplayRole | SkyObjectRole | OtherRole(code: int)

  /** What `data` hands back: an empty variant, a name, or an object handle. */
  datatype Value = Empty | Name(name: string) | Object(obj: ObjectRef)

  /** Reference definition of the lookup: position of the first entry called
      `name`, or -1 when there is none. */
  function Find(entries: seq<Entry>, name: string): (i: int)
    ensures -1 <= i < |entries|
  {
    if |entries| == 0 then -1
    else if entries[0].name == name then 0
    else var j := Find(entries[1..], name); if j < 0 then -1 else j + 1
  }

  /** Find returns -1 exactly when no entry has the name, and otherwise the first
      position that has it. */
  lemma {:induction false} FindSpec(entries: seq<Entry>, name: string)
    ensures Find(entries, name) == -1 <==> forall k :: 0 <= k < |entries| ==> entries[k].name != name
    ensures Find(entries, name) >= 0 ==>
      entries[Find(entries, name)].name == name &&
      forall k :: 0 <= k < Find(entries, name) ==> entries[k].name != name
  {
    if |entries| > 0 && entries[0].name != name {
      var rest := entries[1..];
      FindSpec(rest, name);
      assert forall k :: 0 < k < |entries| ==> entries[k] == rest[k - 1];
    }
  }

  /** `indexOf`: linear search from the front. */
  method IndexOf(m: ListModel, name: string) returns (i: int)
    ensures -1 <= i < |m.entries|
    ensures i == -1 <==> forall k :: 0 <= k < |m.entries| ==> m.entries[k].name != name
    ensures i >= 0 ==> m.entries[i].name == name
    ensures forall k :: 0 <= k < i ==> m.entries[k].name != name
  {
    var n := 0;
    while n < |m.entries|
      invariant 0 <= n <= |m.entries|
      invariant forall k :: 0 <= k < n ==> m.entries[k].name != name
    {
      if m.entries[n].name == name {
        return n;
      }
      n := n + 1;
    }
    return -1;
  }

  /** The method and the reference definition agree on every input. */
  lemma IndexOfIsFind(m: ListModel, name: string, i: int)
    requires -1 <= i < |m.entries|
    requires i == -1 <==> forall k :: 0 <= k < |m.entries| ==> m.entries[k].name != name
    requires i >= 0 ==> m.entries[i].name == name
    requires forall k :: 0 <= k < i ==> m.entries[k].name != name
    ensures i == Find(m.entries, name)
  {
    FindSpec(m.entries, name);
  }

  /** Reference definition of `filter`: the names that match, in list order,
      duplicates kept. Defined from the back so that it grows the way the loop
      appends. */
  function Matching(entries: seq<Entry>, matches: string -> bool): seq<string> {
    if |entries| == 0 then []
    else
      var last := entries[|entries| - 1];
      Matching(entries[..|entries| - 1], matches) + (if matches(last.name) then [last.name] else [])
  }

  /** `filter`: one pass over the list, appending every name the pattern
      matches exactly. */
  method Filter(m: ListModel, matches: string -> bool) returns (names: seq<string>)
    ensures names == Matching(m.entries, matches)
    ensures forall x :: x in names ==> matches(x)
    ensures |names| <= |m.entries|
  {
    names := [];
    var i := 0;
    while i < |m.entries|
      invariant 0 <= i <= |m.entries|
      invariant names == Matching(m.entries[..i], matches)
      invariant forall x :: x in names ==> matches(x)
      invariant |names| <= i
    {
      assert m.entries[..i + 1][..i] == m.entries[..i];
      if matches(m.entries[i].name) {
        names := names + [m.entries[i].name];
      }
      i := i + 1;
    }
    assert m.entries[..i] == m.entries;
  }

  /** Filtering keeps list order: the result on a concatenation is the
      concatenation of the results. */
  lemma {:induction false} MatchingAppend(a: seq<Entry>, b: seq<Entry>, matches: string -> bool)
    ensures Matching(a + b, matches) == Matching(a, matches) + Matching(b, matches)
  {
    if |b| > 0 {
      var b' := b[..|b| - 1];
      MatchingAppend(a, b', matches);
      assert (a + b)[..|a + b| - 1] == a + b';
      assert (a + b)[|a + b| - 1] == b[|b| - 1];
    } else {
      assert a + b == a;
    }
  }

  /** The number of entries called x. */
  function Occurrences(entries: seq<Entry>, x: string): nat {
    if |entries| == 0 then 0
    else Occurrences(entries[..|entries| - 1], x) + (if entries[|entries| - 1].name == x then 1 else 0)
  }

  /** Filtering keeps duplicates: a matching name occurs in the result as often
      as in the list, a non-matching one not at all. */
  lemma {:induction false} MatchingCounts(entries: seq<Entry>, matches: string -> bool, x: string)
    ensures multiset(Matching(entries, matches))[x] == if matches(x) then Occurrences(entries, x) else 0
  {
    if |entries| > 0 {
      MatchingCounts(entries[..|entries| - 1], matches, x);
    }
  }

  /** `setSkyObjectsList`: the stored vector is replaced wholesale. */
  function SetSkyObjects(m: ListModel, objects: seq<Entry>): (r: ListModel)
    ensures r.entries == objects
  {
    ListModel(objects)
  }

  /** Nothing of the previous list survives a reset: the new model does not
      depend on the old one. */
  lemma SetForgetsOld(m1: ListModel, m2: ListModel, objects: seq<Entry>, name: string)
    ensures SetSkyObjects(m1, objects) == SetSkyObjects(m2, objects)
    ensures Find(SetSkyObjects(m1, objects).entries, name) == Find(objects, name)
  {
  }

  /** `data`: empty for an invalid index or an unknown role, otherwise the
      entry's name or its object. A valid index names a row of the list. */
  function Data(m: ListModel, index: ModelIndex, role: Role): (v: Value)
    requires index.At? ==> index.row < |m.entries|
    ensures v.Name? <==> index.At? && role.DisplayRole?
    ensures v.Object? <==> index.At? && role.SkyObjectRole?
    ensures v.Name? ==> v.name == m.entries[index.row].name
    ensures v.Object? ==> v.obj == m.entries[index.row].obj
  {
    match index
    case Invalid => Empty
    case At(row) =>
      match role
      case DisplayRole => Name(m.entries[row].name)
      case SkyObjectRole => Object(m.entries[row].obj)
      case OtherRole(_) => Empty
  }

  /** The row `indexOf` finds displays the name that was looked up. */
  lemma {:induction false} DataAtFind(m: ListModel, name: string)
    requires Find(m.entries, name) >= 0
    ensures Data(m, At(Find(m.entries, name)), DisplayRole) == Name(name)
  {
    FindSpec(m.entries, name);
  }
}
