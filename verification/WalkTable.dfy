/** The deterministic walk over nested tables (lua/utils.lua), which pairs what one node sends
    with what another receives. */
module WalkTable {
  import opened Wrappers
  import Sequences

  /** Keys are numbered in the order of Lua's `<`. */
  datatype Tree<V> = Leaf(v: V) | Node(fields: map<nat, Tree<V>>)

  // ----- keys in order -----

  ghost predicate Ascending(ks: seq<nat>) {
    forall i, j :: 0 <= i < j < |ks| ==> ks[i] < ks[j]
  }

  lemma {:induction false} AscendingIsUnique(a: seq<nat>, b: seq<nat>)
    requires Ascending(a) && Ascending(b) && forall k :: k in a <==> k in b
    ensures a == b
  {
    assert |a| > 0 ==> a[0] in a;
    assert |b| > 0 ==> b[0] in b;
    if |a| > 0 && |b| > 0 {
      assert a[0] == b[0];
      forall k
        ensures k in a[1..] <==> k in b[1..]
      {
        assert k in a <==> k == a[0] || k in a[1..];
        assert k in b <==> k == b[0] || k in b[1..];
      }
      AscendingIsUnique(a[1..], b[1..]);
    }
  }

  function Inserted(k: nat, ks: seq<nat>): seq<nat> {
    if |ks| == 0 || k < ks[0] then [k] + ks else [ks[0]] + Inserted(k, ks[1..])
  }

  /** table.sort */
  function Sorted(ks: seq<nat>): seq<nat> {
    if |ks| == 0 then [] else Inserted(ks[0], Sorted(ks[1..]))
  }

  lemma {:induction false} InsertedAscends(k: nat, ks: seq<nat>)
    requires Ascending(ks) && k !in ks
    ensures Ascending(Inserted(k, ks)) && forall x :: x in Inserted(k, ks) <==> x == k || x in ks
  {
    if |ks| > 0 && k >= ks[0] {
      InsertedAscends(k, ks[1..]);
      var rest := Inserted(k, ks[1..]);
      assert forall x :: x in ks <==> x == ks[0] || x in ks[1..];
      assert forall i :: 0 <= i < |rest| ==> rest[i] in rest;
    }
  }

  ghost predicate NoRepeats(ks: seq<nat>) {
    forall i, j :: 0 <= i < j < |ks| ==> ks[i] != ks[j]
  }

  lemma {:induction false} SortedAscends(ks: seq<nat>)
    requires NoRepeats(ks)
    ensures Ascending(Sorted(ks)) && forall x :: x in Sorted(ks) <==> x in ks
  {
    if |ks| == 0 {
    } else {
      SortedAscends(ks[1..]);
      InsertedAscends(ks[0], Sorted(ks[1..]));
    }
  }

  /** Whatever order the keys come in, they are sorted into the same one. */
  lemma SortForgetsOrder(a: seq<nat>, b: seq<nat>)
    requires NoRepeats(a) && NoRepeats(b) && forall k :: k in a <==> k in b
    ensures Sorted(a) == Sorted(b)
  {
    SortedAscends(a);
    SortedAscends(b);
    AscendingIsUnique(Sorted(a), Sorted(b));
  }

  // ----- what a walk means -----

  ghost predicate InOrder(ks: seq<nat>, keys: set<nat>) {
    Ascending(ks) && forall k :: k in ks <==> k in keys
  }

  lemma {:induction false} OrderExists(keys: set<nat>)
    ensures exists ks :: InOrder(ks, keys)
  {
    if k :| k in keys {
      OrderExists(keys - {k});
      var ks :| InOrder(ks, keys - {k});
      InsertedAscends(k, ks);
      assert InOrder(Inserted(k, ks), keys);
    } else {
      assert InOrder([], keys);
    }
  }

  /** The keys of a table in their order. */
  ghost function KeyOrder(keys: set<nat>): (ks: seq<nat>)
    ensures InOrder(ks, keys)
  {
    OrderExists(keys);
    var ks :| InOrder(ks, keys);
    ks
  }

  /** The places of the leaves, in the order of the walk. */
  ghost function Paths<V>(t: Tree<V>): seq<seq<nat>>
    decreases t, 1, 0
  {
    match t
    case Leaf(_) => [[]]
    case Node(fields) => PathsOf(t, KeyOrder(fields.Keys))
  }

  ghost function PathsOf<V>(t: Tree<V>, ks: seq<nat>): seq<seq<nat>>
    requires t.Node? && forall k :: k in ks ==> k in t.fields
    decreases t, 0, |ks|
  {
    if |ks| == 0 then [] else assert ks[0] in ks; Below(ks[0], Paths(t.fields[ks[0]])) + PathsOf(t, ks[1..])
  }

  ghost function Below(k: nat, ps: seq<seq<nat>>): (r: seq<seq<nat>>)
    ensures |r| == |ps|
  {
    seq(|ps|, i requires 0 <= i < |ps| => [k] + ps[i])
  }

  /** The leaf at a place. */
  function At<V>(t: Tree<V>, path: seq<nat>): Option<V> {
    match t
    case Leaf(v) => if |path| == 0 then Some(v) else None
    case Node(fields) => if |path| > 0 && path[0] in fields then At(fields[path[0]], path[1..]) else None
  }

  /** The leaves in the order of the walk. */
  ghost function Leaves<V>(t: Tree<V>): seq<V>
    decreases t, 1, 0
  {
    match t
    case Leaf(v) => [v]
    case Node(fields) => LeavesOf(t, KeyOrder(fields.Keys))
  }

  ghost function LeavesOf<V>(t: Tree<V>, ks: seq<nat>): seq<V>
    requires t.Node? && forall k :: k in ks ==> k in t.fields
    decreases t, 0, |ks|
  {
    if |ks| == 0 then [] else assert ks[0] in ks; Leaves(t.fields[ks[0]]) + LeavesOf(t, ks[1..])
  }

  /** The i-th leaf visited is the one at the i-th place. */
  lemma {:induction false} LeafAt<V>(t: Tree<V>, i: nat)
    requires i < |Leaves(t)|
    ensures |Paths(t)| == |Leaves(t)| && At(t, Paths(t)[i]) == Some(Leaves(t)[i])
    decreases t, 1, 0
  {
    if t.Node? {
      LeafOfAt(t, KeyOrder(t.fields.Keys), i);
    }
  }

  lemma {:induction false} SameCount<V>(t: Tree<V>)
    ensures |Paths(t)| == |Leaves(t)|
    decreases t, 1, 0
  {
    if t.Node? {
      SameCountOf(t, KeyOrder(t.fields.Keys));
    }
  }

  lemma {:induction false} SameCountOf<V>(t: Tree<V>, ks: seq<nat>)
    requires t.Node? && forall k :: k in ks ==> k in t.fields
    ensures |PathsOf(t, ks)| == |LeavesOf(t, ks)|
    decreases t, 0, |ks|
  {
    if |ks| == 0 {
    } else {
      assert ks[0] in ks;
      SameCount(t.fields[ks[0]]);
      SameCountOf(t, ks[1..]);
    }
  }

  lemma {:induction false} LeafOfAt<V>(t: Tree<V>, ks: seq<nat>, i: nat)
    requires t.Node? && (forall k :: k in ks ==> k in t.fields) && i < |LeavesOf(t, ks)|
    ensures |PathsOf(t, ks)| == |LeavesOf(t, ks)| && At(t, PathsOf(t, ks)[i]) == Some(LeavesOf(t, ks)[i])
    decreases t, 0, |ks|
  {
    SameCountOf(t, ks);
    assert ks[0] in ks;
    var first := t.fields[ks[0]];
    var n := |Leaves(first)|;
    SameCount(first);
    if i < n {
      LeafAt(first, i);
      var path := Paths(first)[i];
      assert PathsOf(t, ks)[i] == [ks[0]] + path && ([ks[0]] + path)[1..] == path;
    } else {
      LeafOfAt(t, ks[1..], i - n);
    }
  }

  /** Tables with the same keys, and leaves at the same places. */
  ghost predicate SameShape<V, W>(a: Tree<V>, b: Tree<W>)
    decreases a
  {
    match (a, b)
    case (Leaf(_), Leaf(_)) => true
    case (Node(f), Node(g)) => f.Keys == g.Keys && forall k :: k in f ==> SameShape(f[k], g[k])
    case _ => false
  }

  /** Walks of such tables go by the same places: what one node sends i-th, another that walks
      its own table receives into the same place. */
  lemma {:induction false} WalksPair<V, W>(a: Tree<V>, b: Tree<W>)
    requires SameShape(a, b)
    ensures Paths(a) == Paths(b)
    decreases a, 1, 0
  {
    if a.Node? {
      WalksPairOf(a, b, KeyOrder(a.fields.Keys));
    }
  }

  lemma {:induction false} WalksPairOf<V, W>(a: Tree<V>, b: Tree<W>, ks: seq<nat>)
    requires a.Node? && SameShape(a, b) && forall k :: k in ks ==> k in a.fields
    ensures b.Node? && (forall k :: k in ks ==> k in b.fields) && PathsOf(a, ks) == PathsOf(b, ks)
    decreases a, 0, |ks|
  {
    assert forall k :: k in ks ==> k in a.fields.Keys;
    if |ks| == 0 {
    } else {
      assert ks[0] in ks;
      WalksPair(a.fields[ks[0]], b.fields[ks[0]]);
      WalksPairOf(a, b, ks[1..]);
    }
  }

  /** So as many leaves are visited. */
  lemma SameLeafCount<V, W>(a: Tree<V>, b: Tree<W>)
    requires SameShape(a, b)
    ensures |Leaves(a)| == |Leaves(b)|
  {
    WalksPair(a, b);
    SameCount(a);
    SameCount(b);
  }

  lemma {:induction false} LeavesOfAppend<V>(t: Tree<V>, ks: seq<nat>, k: nat)
    requires t.Node? && (forall x :: x in ks ==> x in t.fields) && k in t.fields
    ensures LeavesOf(t, ks + [k]) == LeavesOf(t, ks) + Leaves(t.fields[k])
    decreases |ks|
  {
    if |ks| == 0 {
      assert ks + [k] == [k] && [k][1..] == [];
    } else {
      assert ks[0] in ks && (ks + [k])[1..] == ks[1..] + [k];
      LeavesOfAppend(t, ks[1..], k);
    }
  }

  lemma {:induction false} LeavesOfSame<V>(a: Tree<V>, b: Tree<V>, ks: seq<nat>)
    requires a.Node? && b.Node? && forall k :: k in ks ==> k in a.fields && k in b.fields && a.fields[k] == b.fields[k]
    ensures LeavesOf(a, ks) == LeavesOf(b, ks)
    decreases |ks|
  {
    if |ks| == 0 {
    } else {
      assert ks[0] in ks;
      LeavesOfSame(a, b, ks[1..]);
    }
  }

  /** A table is determined by its shape and its leaves. */
  lemma {:induction false} ShapeAndLeaves<V>(a: Tree<V>, b: Tree<V>)
    requires SameShape(a, b) && Leaves(a) == Leaves(b)
    ensures a == b
    decreases a, 1, 0
  {
    if a.Leaf? {
      assert a.v == Leaves(a)[0] == Leaves(b)[0] == b.v;
    } else {
      var ks := KeyOrder(a.fields.Keys);
      assert forall k :: k in a.fields.Keys <==> k in b.fields.Keys;
      FieldsEqual(a, b, ks);
      assert forall k :: k in a.fields ==> k in ks;
      assert a.fields == b.fields;
    }
  }

  lemma {:induction false} FieldsEqual<V>(a: Tree<V>, b: Tree<V>, ks: seq<nat>)
    requires a.Node? && b.Node? && SameShape(a, b) && (forall k :: k in ks ==> k in a.fields && k in b.fields)
    requires LeavesOf(a, ks) == LeavesOf(b, ks)
    ensures forall k :: k in ks ==> a.fields[k] == b.fields[k]
    decreases a, 0, |ks|
  {
    if |ks| == 0 {
    } else {
      assert ks[0] in ks;
      var x, y := a.fields[ks[0]], b.fields[ks[0]];
      SameLeafCount(x, y);
      SplitEqual(Leaves(x), LeavesOf(a, ks[1..]), Leaves(y), LeavesOf(b, ks[1..]));
      ShapeAndLeaves(x, y);
      FieldsEqual(a, b, ks[1..]);
      assert forall k :: k in ks ==> k == ks[0] || k in ks[1..];
    }
  }

  lemma SplitEqual<V>(a: seq<V>, b: seq<V>, c: seq<V>, d: seq<V>)
    requires a + b == c + d && |a| == |c|
    ensures a == c && b == d
  {
    assert (a + b)[..|a|] == a && (c + d)[..|c|] == c;
    assert (a + b)[|a|..] == b && (c + d)[|c|..] == d;
  }

  // ----- the walk -----

  /** Leaf i is replaced by reply i, unless that is nil. */
  function Answered<V>(leaves: seq<V>, replies: seq<Option<V>>): (r: seq<V>)
    requires |leaves| == |replies|
    ensures |r| == |leaves|
  {
    seq(|leaves|, i requires 0 <= i < |leaves| => if replies[i].Some? then replies[i].value else leaves[i])
  }

  lemma AnsweredConcat<V>(a: seq<V>, b: seq<V>, x: seq<Option<V>>, y: seq<Option<V>>)
    requires |a| == |x| && |b| == |y|
    ensures Answered(a + b, x + y) == Answered(a, x) + Answered(b, y)
  {
  }

  /** walkTable, where the function it is given, whatever it does, returns replies[from] from its
      first call, replies[from + 1] from the next, and so on.  Whatever order the keys are found
      in, it is called with the leaves in the order of their keys, and its i-th reply ends up in
      the place of the i-th leaf. */
  method Walk<V>(t: Tree<V>, replies: seq<Option<V>>, from: nat) returns (r: Tree<V>, visited: seq<V>)
    requires t.Node? && from + |Leaves(t)| <= |replies|
    ensures visited == Leaves(t) && SameShape(r, t)
    ensures Leaves(r) == Answered(Leaves(t), replies[from..from + |Leaves(t)|])
    decreases t, 0, 2
  {
    var kk := SortedKeys(t.fields);
    ghost var all := Leaves(t);
    WalkBegins(t, replies, from, kk);
    var fields;
    fields, visited := WalkKeys(t, kk, replies, from, all);
    WalkEnds(t, replies, from, kk, fields, all, visited);
    r := Node(fields);
  }

  /** The loop over the sorted keys. */
  method WalkKeys<V>(t: Tree<V>, kk: seq<nat>, replies: seq<Option<V>>, from: nat, ghost all: seq<V>)
    returns (fields: map<nat, Tree<V>>, visited: seq<V>)
    requires t.Node? && Shaped(t, kk, 0, t.fields) && Visited(t, kk, 0, all, [])
             && Placed(replies, from, kk, 0, t.fields, [])
    requires from + |all| <= |replies|
    ensures Shaped(t, kk, |kk|, fields) && Visited(t, kk, |kk|, all, visited)
            && Placed(replies, from, kk, |kk|, fields, visited)
    decreases t, 0, 1
  {
    fields, visited := t.fields, [];
    for i := 0 to |kk|
      invariant Shaped(t, kk, i, fields)
      invariant Visited(t, kk, i, all, visited)
      invariant Placed(replies, from, kk, i, fields, visited)
    {
      fields, visited := Turn(t, kk, i, replies, from, all, fields, visited);
    }
  }

  method Turn<V>(
    t: Tree<V>, kk: seq<nat>, i: nat, replies: seq<Option<V>>, from: nat, ghost all: seq<V>, fields: map<nat,
      Tree<V>>, visited: seq<V>)
    returns (next: map<nat, Tree<V>>, more: seq<V>)
    requires i < |kk| && Shaped(t, kk, i, fields) && Visited(t, kk, i, all, visited)
             && Placed(replies, from, kk, i, fields, visited)
    requires from + |all| <= |replies|
    ensures Shaped(t, kk, i + 1, next) && Visited(t, kk, i + 1, all, more)
            && Placed(replies, from, kk, i + 1, next, more)
    decreases t, 0, 0
  {
    NextField(t, kk, i, all, visited);
    var at := from + |visited|;
    var sub, seen := Visit(t.fields[kk[i]], replies, at);
    assert Leaves(sub) == Answered(seen, replies[at..at + |seen|]);
    ShapedMore(t, kk, i, fields, sub);
    PlacedMore(t, replies, from, kk, i, fields, visited, sub, seen);
    next, more := fields[kk[i] := sub], visited + seen;
  }

  /** One field: a table is walked, anything else is given to the function. */
  method Visit<V>(t: Tree<V>, replies: seq<Option<V>>, from: nat) returns (r: Tree<V>, visited: seq<V>)
    requires from + |Leaves(t)| <= |replies|
    ensures visited == Leaves(t) && SameShape(r, t)
    ensures Leaves(r) == Answered(Leaves(t), replies[from..from + |Leaves(t)|])
    decreases t, 1
  {
    match t
    case Node(_) => r, visited := Walk(t, replies, from);
    case Leaf(v) =>
      var given := replies[from];
      r, visited := if given.Some? then Leaf(given.value) else t, [v];
  }

  ghost predicate Ordered<V>(t: Tree<V>, kk: seq<nat>) {
    t.Node? && InOrder(kk, t.fields.Keys)
  }

  /** The fields of the first i keys have kept their shapes, the others are as they were. */
  ghost predicate Shaped<V>(t: Tree<V>, kk: seq<nat>, i: nat, fields: map<nat, Tree<V>>) {
    && Ordered(t, kk) && i <= |kk| && fields.Keys == t.fields.Keys
    && forall k :: k in t.fields ==>
      if k in kk[..i] then SameShape(fields[k], t.fields[k]) else fields[k] == t.fields[k]
  }

  /** Of all leaves, those of the first i keys were visited. */
  ghost predicate Visited<V>(t: Tree<V>, kk: seq<nat>, i: nat, all: seq<V>, visited: seq<V>) {
    Ordered(t, kk) && i <= |kk| && (forall k :: k in kk[i..] ==> k in t.fields) && all == visited + LeavesOf(t, kk[i..])
  }

  /** The fields of the first i keys hold the replies. */
  ghost predicate Placed<V>(
    replies: seq<Option<V>>, from: nat, kk: seq<nat>, i: nat, fields: map<nat, Tree<V>>, visited: seq<V>) {
    && i <= |kk| && from + |visited| <= |replies| && (forall k :: k in kk[..i] ==> k in fields)
    && LeavesOf(Node(fields), kk[..i]) == Answered(visited, replies[from..from + |visited|])
  }

  lemma WalkBegins<V>(t: Tree<V>, replies: seq<Option<V>>, from: nat, kk: seq<nat>)
    requires t.Node? && kk == KeyOrder(t.fields.Keys) && from + |Leaves(t)| <= |replies|
    ensures Shaped(t, kk, 0, t.fields) && Visited(t, kk, 0, Leaves(t), []) && Placed(replies, from, kk, 0, t.fields, [])
  {
    assert kk[0..] == kk && kk[..0] == [];
    assert [] + LeavesOf(t, kk) == LeavesOf(t, kk);
  }

  lemma NextKey(kk: seq<nat>, i: nat)
    requires Ascending(kk) && i < |kk|
    ensures kk[i] !in kk[..i] && kk[..i + 1] == kk[..i] + [kk[i]] && kk[i..] == [kk[i]] + kk[i + 1..]
    ensures forall k :: k in kk[..i + 1] <==> k == kk[i] || k in kk[..i]
  {
    forall k
      ensures k in kk[..i + 1] <==> k == kk[i] || k in kk[..i]
    {
      Sequences.PrefixMore(kk, i, k);
    }
  }

  /** The next field is the table's, its leaves are next, and there are replies for them. */
  lemma NextField<V>(t: Tree<V>, kk: seq<nat>, i: nat, all: seq<V>, visited: seq<V>)
    requires i < |kk| && Visited(t, kk, i, all, visited)
    ensures kk[i] in t.fields && |visited| + |Leaves(t.fields[kk[i]])| <= |all|
    ensures Visited(t, kk, i + 1, all, visited + Leaves(t.fields[kk[i]]))
  {
    NextKey(kk, i);
    var now, seen := kk[i..], Leaves(t.fields[kk[i]]);
    assert kk[i] in now && now[1..] == kk[i + 1..];
    assert LeavesOf(t, now) == seen + LeavesOf(t, kk[i + 1..]);
    assert visited + (seen + LeavesOf(t, kk[i + 1..])) == visited + seen + LeavesOf(t, kk[i + 1..]);
  }

  lemma ShapedMore<V>(t: Tree<V>, kk: seq<nat>, i: nat, fields: map<nat, Tree<V>>, sub: Tree<V>)
    requires i < |kk| && Shaped(t, kk, i, fields) && kk[i] in t.fields && SameShape(sub, t.fields[kk[i]])
    ensures Shaped(t, kk, i + 1, fields[kk[i] := sub])
  {
    NextKey(kk, i);
    var next := fields[kk[i] := sub];
    assert next.Keys == t.fields.Keys;
    forall k | k in t.fields
      ensures k in kk[..i + 1] ==> SameShape(next[k], t.fields[k])
      ensures k !in kk[..i + 1] ==> next[k] == t.fields[k]
    {
      assert k in fields.Keys;
    }
  }

  lemma PlacedMore<V>(
    t: Tree<V>, replies: seq<Option<V>>, from: nat, kk: seq<nat>, i: nat, fields: map<nat, Tree<V>>, visited: seq<V>,
      sub: Tree<V>, seen: seq<V>)
    requires i < |kk| && Ascending(kk) && Placed(replies, from, kk, i, fields, visited)
    requires var at := from + |visited|;
             at + |seen| <= |replies| && Leaves(sub) == Answered(seen, replies[at..at + |seen|])
    ensures Placed(replies, from, kk, i + 1, fields[kk[i] := sub], visited + seen)
  {
    var next, at := fields[kk[i] := sub], from + |visited|;
    NextKey(kk, i);
    FieldsMore(kk, i, fields, sub);
    AnsweredConcat(visited, seen, replies[from..at], replies[at..at + |seen|]);
    assert replies[from..at] + replies[at..at + |seen|] == replies[from..at + |seen|];
  }

  lemma FieldsMore<V>(kk: seq<nat>, i: nat, fields: map<nat, Tree<V>>, sub: Tree<V>)
    requires i < |kk| && Ascending(kk) && forall k :: k in kk[..i] ==> k in fields
    ensures var next := fields[kk[i] := sub];
            && (forall k :: k in kk[..i + 1] ==> k in next)
            && LeavesOf(Node(next), kk[..i + 1]) == LeavesOf(Node(fields), kk[..i]) + Leaves(sub)
  {
    var next := fields[kk[i] := sub];
    NextKey(kk, i);
    LeavesOfSame(Node(fields), Node(next), kk[..i]);
    LeavesOfAppend(Node(next), kk[..i], kk[i]);
  }

  lemma WalkEnds<V>(
    t: Tree<V>, replies: seq<Option<V>>, from: nat, kk: seq<nat>, fields: map<nat, Tree<V>>, all: seq<V>,
      visited: seq<V>)
    requires t.Node? && kk == KeyOrder(t.fields.Keys) && all == Leaves(t) && from + |all| <= |replies|
    requires Shaped(t, kk, |kk|, fields) && Visited(t, kk, |kk|, all, visited)
             && Placed(replies, from, kk, |kk|, fields, visited)
    ensures visited == all && SameShape(Node(fields), t)
    ensures Leaves(Node(fields)) == Answered(all, replies[from..from + |all|])
  {
    assert kk[..|kk|] == kk && kk[|kk|..] == [];
    assert visited + [] == visited;
    assert forall k :: k in t.fields.Keys ==> k in kk;
  }

  /** What a walk leaves where: at the i-th place, the i-th reply. */
  lemma RepliesLand<V>(t: Tree<V>, r: Tree<V>, replies: seq<Option<V>>, i: nat)
    requires |replies| == |Leaves(t)| && SameShape(r, t) && Leaves(r) == Answered(Leaves(t), replies) && i < |replies|
    ensures |Paths(t)| == |replies|
    ensures At(r, Paths(t)[i]) == if replies[i].Some? then replies[i] else At(t, Paths(t)[i])
  {
    WalksPair(r, t);
    LeafAt(r, i);
    LeafAt(t, i);
  }

  lemma {:induction false} ShapesAgree<V>(r: Tree<V>, a: Tree<V>, b: Tree<V>)
    requires SameShape(r, b) && SameShape(a, b)
    ensures SameShape(r, a)
  {
    if r.Leaf? {
    } else {
      forall k | k in r.fields
        ensures k in a.fields && SameShape(r.fields[k], a.fields[k])
      {
        assert k in r.fields.Keys && k in b.fields.Keys && k in a.fields.Keys;
        ShapesAgree(r.fields[k], a.fields[k], b.fields[k]);
      }
    }
  }

  /** One node walks its table a and sends each leaf; another walks its own table b, of the same
      shape, and receives a leaf for each: the result r is a. */
  lemma ReceivedIsSent<V>(a: Tree<V>, b: Tree<V>, r: Tree<V>, received: seq<Option<V>>)
    requires SameShape(a, b) && |received| == |Leaves(b)|
    requires |Leaves(a)| == |received| && forall i :: 0 <= i < |received| ==> received[i] == Some(Leaves(a)[i])
    requires SameShape(r, b) && Leaves(r) == Answered(Leaves(b), received)
    ensures r == a
  {
    assert Answered(Leaves(b), received) == Leaves(a);
    ShapesAgree(r, a, b);
    ShapeAndLeaves(r, a);
  }

  method SortedKeys<V>(fields: map<nat, V>) returns (kk: seq<nat>)
    ensures kk == KeyOrder(fields.Keys)
  {
    kk := FindKeys(fields);
    SortedAscends(kk);
    kk := Sorted(kk);
    AscendingIsUnique(kk, KeyOrder(fields.Keys));
  }

  /** The keys in whatever order pairs gives them. */
  method FindKeys<V>(fields: map<nat, V>) returns (kk: seq<nat>)
    ensures NoRepeats(kk) && forall k :: k in kk <==> k in fields
  {
    kk := [];
    var rest := fields.Keys;
    while rest != {}
      invariant NoRepeats(kk) && rest <= fields.Keys
      invariant forall k :: k in fields <==> k in kk || k in rest
      invariant forall k :: k in kk ==> k !in rest
      decreases rest
    {
      var k :| k in rest;
      kk := kk + [k];
      rest := rest - {k};
    }
  }
}
