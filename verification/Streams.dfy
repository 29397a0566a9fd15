/** A stream of items tagged with the symbol they are for, and the part of it for one symbol. */
module Streams {
  import opened Symbols

  function Project<T>(items: seq<(Str, T)>, s: Str): seq<T> {
    if items == [] then []
    else (if items[0].0 == s then [items[0].1] else []) + Project(items[1..], s)
  }

  lemma {:induction false} ProjectConcat<T>(a: seq<(Str, T)>, b: seq<(Str, T)>, s: Str)
    ensures Project(a + b, s) == Project(a, s) + Project(b, s)
  {
    if a == [] {
      assert a + b == b;
    } else {
      assert (a + b)[0] == a[0] && (a + b)[1..] == a[1..] + b;
      ProjectConcat(a[1..], b, s);
      var x := if a[0].0 == s then [a[0].1] else [];
      assert x + (Project(a[1..], s) + Project(b, s)) == (x + Project(a[1..], s)) + Project(b, s);
    }
  }

  lemma ProjectSnoc<T>(items: seq<(Str, T)>, s: Str, x: T, q: Str)
    ensures Project(items + [(s, x)], q) == if q == s then Project(items, q) + [x] else Project(items, q)
  {
    ProjectConcat(items, [(s, x)], q);
    assert Project([(s, x)], q) == (if s == q then [x] else []) + Project([(s, x)][1..], q);
    assert [x] + [] == [x];
    assert Project(items, q) + [] == Project(items, q);
  }

  function Flatten<T>(parts: seq<seq<T>>): seq<T> {
    if parts == [] then [] else Flatten(parts[..|parts| - 1]) + parts[|parts| - 1]
  }

  lemma {:induction false} FlattenUpTo<T>(parts: seq<seq<T>>, t: nat)
    requires t <= |parts|
    ensures |Flatten(parts[..t])| <= |Flatten(parts)|
    ensures Flatten(parts)[..|Flatten(parts[..t])|] == Flatten(parts[..t])
  {
    if t == |parts| {
      assert parts[..t] == parts;
    } else {
      var n := |parts| - 1;
      FlattenUpTo(parts[..n], t);
      assert parts[..n][..t] == parts[..t];
    }
  }

  lemma PartsInOrder<T>(parts: seq<seq<T>>, a: nat, b: nat)
    requires a <= b <= |parts|
    ensures |Flatten(parts[..a])| <= |Flatten(parts[..b])|
  {
    FlattenUpTo(parts[..b], a);
    assert parts[..b][..a] == parts[..a];
  }

  /** The elements of part `t` stand behind those of the earlier parts and before those of the later ones. */
  lemma ElementAt<T>(parts: seq<seq<T>>, t: nat, q: nat) returns (p: nat)
    requires t < |parts| && q < |parts[t]|
    ensures |Flatten(parts[..t])| <= p < |Flatten(parts[..t + 1])| <= |Flatten(parts)|
    ensures Flatten(parts)[p] == parts[t][q]
  {
    var upTo := parts[..t + 1];
    FlattenUpTo(parts, t + 1);
    assert upTo[..t] == parts[..t];
    p := |Flatten(parts[..t])| + q;
    assert Flatten(upTo)[p] == parts[t][q];
    assert Flatten(parts)[..|Flatten(upTo)|][p] == Flatten(parts)[p];
  }

  lemma {:induction false} ElementFrom<T>(parts: seq<seq<T>>, p: nat) returns (t: nat, q: nat)
    requires p < |Flatten(parts)|
    ensures t < |parts| && q < |parts[t]| && p == |Flatten(parts[..t])| + q && Flatten(parts)[p] == parts[t][q]
  {
    var n := |parts| - 1;
    var before := Flatten(parts[..n]);
    if p < |before| {
      t, q := ElementFrom(parts[..n], p);
      assert parts[..n][..t] == parts[..t];
    } else {
      t, q := n, p - |before|;
    }
  }

  function Fold<S, M>(init: S, step: (S, M) -> S, items: seq<M>): S {
    if items == [] then init else step(Fold(init, step, items[..|items| - 1]), items[|items| - 1])
  }

  /** A fold computes what satisfies its equations. */
  lemma {:induction false} FoldIs<S, M(!new)>(init: S, step: (S, M) -> S, items: seq<M>, spec: seq<M> -> S)
    requires spec([]) == init
    requires forall before, m :: spec(before + [m]) == step(spec(before), m)
    ensures Fold(init, step, items) == spec(items)
  {
    if items != [] {
      var before, m := items[..|items| - 1], items[|items| - 1];
      FoldIs(init, step, before, spec);
      assert items == before + [m];
    }
  }

  lemma SameMaps<K, V>(a: map<K, V>, b: map<K, V>)
    requires a.Keys == b.Keys && forall k | k in a :: a[k] == b[k]
    ensures a == b
  {
  }
}
