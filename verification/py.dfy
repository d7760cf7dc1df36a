/** Python values as the dashboard server sees them: optional values, the
    difference between returning and raising, and decoded JSON documents
    with the few dictionary operations the server uses on them. */
module Py {

  datatype Option<+T> = None | Some(value: T)

  /** How a Python call ended: with a value, or with an exception that the
      caller does not catch. */
  datatype Outcome<+T> = Returned(value: T) | Raised

  /** A decoded JSON value. Objects keep their members in document order,
      as a Python dict built by `json.load` does. */
  datatype Json =
    | JNull
    | JBool(b: bool)
    | JNum(x: real)
    | JStr(s: string)
    | JArr(items: seq<Json>)
    | JObj(fields: seq<(string, Json)>)

  /** The value a dict built from `fields` holds for `key`: a later
      duplicate key overwrites an earlier one, so the last occurrence wins. */
  function Lookup(fields: seq<(string, Json)>, key: string): (r: Option<Json>)
    ensures r.None? <==> forall i :: 0 <= i < |fields| ==> fields[i].0 != key
    ensures r.Some? ==> exists i :: 0 <= i < |fields| && fields[i] == (key, r.value)
                                    && forall j :: i < j < |fields| ==> fields[j].0 != key
  {
    if fields == [] then None
    else if fields[|fields| - 1].0 == key then Some(fields[|fields| - 1].1)
    else Lookup(fields[..|fields| - 1], key)
  }

  /** `obj.get(key, default)` on a dict: the value of the key's last
      occurrence when the key is present (even when that value is null),
      the default otherwise. */
  function Get(fields: seq<(string, Json)>, key: string, default: Json): (r: Json)
    ensures (forall i :: 0 <= i < |fields| ==> fields[i].0 != key) ==> r == default
    ensures (exists i :: 0 <= i < |fields| && fields[i].0 == key) ==>
              exists i :: 0 <= i < |fields| && fields[i] == (key, r)
    ensures ReadsAs(fields, key, default, r)
  {
    match Lookup(fields, key)
    case None => default
    case Some(v) => v
  }

  /** `v` is the value `.get(key, default)` reads from a dict built from
      `fields`: the value stored for the key when the key is present, the
      default when it is absent. */
  predicate ReadsAs(fields: seq<(string, Json)>, key: string, default: Json, v: Json) {
    match Lookup(fields, key)
    case None => v == default
    case Some(stored) => v == stored
  }

  /** Python truthiness of a JSON value: null, false, zero, the empty
      string, the empty list and the empty object are false, everything
      else is true. */
  predicate Truthy(v: Json)
    ensures Truthy(v) <==> v !in {JNull, JBool(false), JNum(0.0), JStr(""), JArr([]), JObj([])}
  {
    match v
    case JNull => false
    case JBool(b) => b
    case JNum(x) => x != 0.0
    case JStr(s) => s != []
    case JArr(items) => items != []
    case JObj(fields) => fields != []
  }

  /** The elements a `for` loop over `v` visits: the items of a list, the
      one-character strings of a string, the keys of a dict. Iterating
      null, a boolean or a number raises TypeError. */
  function Iterate(v: Json): (r: Outcome<seq<Json>>)
    ensures r.Returned? <==> (v.JArr? || v.JStr? || v.JObj?)
    ensures v.JArr? ==> r == Returned(v.items)
    ensures v.JStr? ==> r.Returned? && |r.value| == |v.s|
                        && forall i :: 0 <= i < |v.s| ==> r.value[i] == JStr([v.s[i]])
    ensures v.JObj? ==> r.Returned? && |r.value| == |v.fields|
                        && forall i :: 0 <= i < |v.fields| ==> r.value[i] == JStr(v.fields[i].0)
  {
    match v
    case JArr(items) => Returned(items)
    case JStr(s) => Returned(seq(|s|, i requires 0 <= i < |s| => JStr([s[i]])))
    case JObj(fields) => Returned(seq(|fields|, i requires 0 <= i < |fields| => JStr(fields[i].0)))
    case _ => Raised
  }

  /** Applies `f` to every element in order, as a Python loop that appends
      one result per element does; the first element on which `f` raises
      makes the whole loop raise. */
  function Traverse<A, B>(xs: seq<A>, f: A -> Outcome<B>): Outcome<seq<B>> {
    if xs == [] then Returned([])
    else
      var init := Traverse(xs[..|xs| - 1], f);
      var last := f(xs[|xs| - 1]);
      if init.Raised? || last.Raised? then Raised else Returned(init.value + [last.value])
  }

  lemma TraverseStep<A, B>(xs: seq<A>, f: A -> Outcome<B>, i: nat)
    requires i < |xs|
    ensures var init := Traverse(xs[..i], f);
            Traverse(xs[..i + 1], f)
              == if init.Raised? || f(xs[i]).Raised? then Raised else Returned(init.value + [f(xs[i]).value])
  {
    assert xs[..i + 1][..i] == xs[..i];
  }

  /** Once a prefix raises, the whole traversal raises. */
  lemma {:induction false} TraverseRaisedPrefix<A, B>(xs: seq<A>, f: A -> Outcome<B>, i: nat)
    requires i <= |xs| && Traverse(xs[..i], f).Raised?
    ensures Traverse(xs, f).Raised?
    decreases |xs| - i
  {
    if i < |xs| {
      TraverseStep(xs, f, i);
      TraverseRaisedPrefix(xs, f, i + 1);
    } else {
      assert xs[..i] == xs;
    }
  }

  /** The traversal returns exactly when `f` returns on every element, and
      then it holds one result per element, in order. */
  lemma {:induction false} TraverseOneToOne<A, B>(xs: seq<A>, f: A -> Outcome<B>)
    ensures Traverse(xs, f).Returned? <==> forall i :: 0 <= i < |xs| ==> f(xs[i]).Returned?
    ensures Traverse(xs, f).Returned? ==>
              var ys := Traverse(xs, f).value;
              |ys| == |xs| && forall i :: 0 <= i < |xs| ==> f(xs[i]) == Returned(ys[i])
  {
    if xs != [] {
      var n := |xs| - 1;
      var init := xs[..n];
      TraverseOneToOne(init, f);
      assert forall i :: 0 <= i < n ==> init[i] == xs[i];
    }
  }

  /** A traversal whose every step returns gives exactly those results. */
  lemma TraverseAll<A, B>(xs: seq<A>, f: A -> Outcome<B>, ys: seq<B>)
    requires |xs| == |ys| && forall i :: 0 <= i < |xs| ==> f(xs[i]) == Returned(ys[i])
    ensures Traverse(xs, f) == Returned(ys)
  {
    TraverseOneToOne(xs, f);
    assert Traverse(xs, f).value == ys;
  }
}
