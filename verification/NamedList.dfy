/** Lists of named entries as Kubernetes specs keep them: looked up by the first
    entry with a name, grown at the end, overwritten and spliced in place. */
module NamedList {
  datatype Named<T> = Named(name: string, body: T)

  ghost predicate HasName<T>(xs: seq<Named<T>>, name: string) {
    exists i :: 0 <= i < |xs| && xs[i].name == name
  }

  ghost predicate Unique<T>(xs: seq<Named<T>>) {
    forall i, j :: 0 <= i < |xs| && 0 <= j < |xs| && xs[i].name == xs[j].name ==> i == j
  }

  /** The first index of a name, or -1. */
  function IndexOf<T>(xs: seq<Named<T>>, name: string): (i: int)
    ensures i == -1 <==> !HasName(xs, name)
    ensures i != -1 ==> 0 <= i < |xs| && xs[i].name == name && forall j :: 0 <= j < i ==> xs[j].name != name
  {
    if xs == [] then -1
    else if xs[0].name == name then 0
    else
      var k := IndexOf(xs[1..], name);
      assert forall j :: 0 < j < |xs| ==> xs[j] == xs[1..][j - 1];
      assert k != -1 ==> xs[k + 1].name == name;
      assert HasName(xs[1..], name) <==> HasName(xs, name);
      if k == -1 then -1 else k + 1
  }

  method FindIndex<T>(xs: seq<Named<T>>, name: string) returns (i: int)
    ensures i == IndexOf(xs, name)
  {
    for k := 0 to |xs|
      invariant forall j :: 0 <= j < k ==> xs[j].name != name
    {
      if xs[k].name == name { return k; }
    }
    return -1;
  }

  /** What the list says about each name. */
  ghost function ToMap<T>(xs: seq<Named<T>>): map<string, T>
    requires Unique(xs)
  {
    map i | 0 <= i < |xs| :: xs[i].name := xs[i].body
  }

  function Removed<T>(xs: seq<Named<T>>, i: nat): seq<Named<T>>
    requires i < |xs|
  {
    xs[..i] + xs[i + 1..]
  }

  lemma MapAt<T>(xs: seq<Named<T>>, i: nat)
    requires Unique(xs) && i < |xs|
    ensures xs[i].name in ToMap(xs) && ToMap(xs)[xs[i].name] == xs[i].body
  {}

  lemma MapKeys<T>(xs: seq<Named<T>>, name: string)
    requires Unique(xs)
    ensures name in ToMap(xs) <==> HasName(xs, name)
  {
    if HasName(xs, name) {
      var i :| 0 <= i < |xs| && xs[i].name == name;
      MapAt(xs, i);
    }
  }

  lemma AppendView<T>(xs: seq<Named<T>>, x: Named<T>)
    requires Unique(xs) && !HasName(xs, x.name)
    ensures Unique(xs + [x])
    ensures ToMap(xs + [x]) == ToMap(xs)[x.name := x.body]
  {
    var ys := xs + [x];
    assert forall i :: 0 <= i < |ys| ==> ys[i] == if i < |xs| then xs[i] else x;
    assert ys[|xs|] == x;
    forall n ensures n in ToMap(ys) <==> n in ToMap(xs) || n == x.name {
      MapKeys(ys, n);
      MapKeys(xs, n);
      if HasName(xs, n) {
        var i :| 0 <= i < |xs| && xs[i].name == n;
        assert ys[i].name == n;
      }
    }
    SameEntries(ys, ToMap(xs)[x.name := x.body]);
  }

  /** A map with the names of a list and the right body for each of its entries is the list's map. */
  lemma SameEntries<T>(xs: seq<Named<T>>, m: map<string, T>)
    requires Unique(xs)
    requires forall n :: n in ToMap(xs) <==> n in m
    requires forall i :: 0 <= i < |xs| ==> xs[i].name in m && m[xs[i].name] == xs[i].body
    ensures ToMap(xs) == m
  {
    forall n | n in m ensures ToMap(xs)[n] == m[n] {
      MapKeys(xs, n);
      var i :| 0 <= i < |xs| && xs[i].name == n;
      MapAt(xs, i);
    }
  }

  lemma ReplaceView<T>(xs: seq<Named<T>>, i: nat, body: T)
    requires Unique(xs) && i < |xs|
    ensures Unique(xs[i := Named(xs[i].name, body)])
    ensures ToMap(xs[i := Named(xs[i].name, body)]) == ToMap(xs)[xs[i].name := body]
  {
    var ys := xs[i := Named(xs[i].name, body)];
    assert forall k :: 0 <= k < |ys| ==> ys[k].name == xs[k].name;
    forall n ensures n in ToMap(ys) <==> n in ToMap(xs)[xs[i].name := body] {
      MapKeys(ys, n);
      MapKeys(xs, n);
      MapAt(xs, i);
    }
    SameEntries(ys, ToMap(xs)[xs[i].name := body]);
  }

  lemma RemovedAt<T>(xs: seq<Named<T>>, i: nat, k: nat)
    requires i < |xs| && k < |xs| - 1
    ensures |Removed(xs, i)| == |xs| - 1
    ensures Removed(xs, i)[k] == xs[if k < i then k else k + 1]
  {}

  lemma RemovedUnique<T>(xs: seq<Named<T>>, i: nat)
    requires Unique(xs) && i < |xs|
    ensures Unique(Removed(xs, i))
    ensures forall k :: 0 <= k < |Removed(xs, i)| ==> Removed(xs, i)[k].name != xs[i].name
  {
    var ys := Removed(xs, i);
    forall k | 0 <= k < |ys| ensures ys[k] == xs[if k < i then k else k + 1] { RemovedAt(xs, i, k); }
  }

  lemma RemovedName<T>(xs: seq<Named<T>>, i: nat, name: string)
    requires i < |xs| && name != xs[i].name
    ensures HasName(Removed(xs, i), name) <==> HasName(xs, name)
  {
    var ys := Removed(xs, i);
    if HasName(xs, name) {
      var k :| 0 <= k < |xs| && xs[k].name == name;
      RemovedAt(xs, i, if k < i then k else k - 1);
    }
    if HasName(ys, name) {
      var k :| 0 <= k < |ys| && ys[k].name == name;
      RemovedAt(xs, i, k);
    }
  }

  lemma RemoveView<T>(xs: seq<Named<T>>, i: nat)
    requires Unique(xs) && i < |xs|
    ensures Unique(Removed(xs, i))
    ensures ToMap(Removed(xs, i)) == ToMap(xs) - {xs[i].name}
  {
    RemovedUnique(xs, i);
    var ys, m := Removed(xs, i), ToMap(xs) - {xs[i].name};
    forall n ensures n in ToMap(ys) <==> n in m {
      MapKeys(ys, n);
      MapKeys(xs, n);
      if n != xs[i].name { RemovedName(xs, i, n); }
    }
    forall k | 0 <= k < |ys| ensures ys[k].name in m && m[ys[k].name] == ys[k].body {
      RemovedAt(xs, i, k);
      MapAt(xs, if k < i then k else k + 1);
    }
    SameEntries(ys, m);
  }
}
