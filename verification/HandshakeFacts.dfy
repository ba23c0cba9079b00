/** What the broadcast table says and how a server orders its clients. */
module HandshakeFacts {
  import opened Wrappers
  import opened Topology
  import opened OrderedTree
  import opened Handshake

  /** The edges are exactly the parent links of t. */
  ghost predicate Draws(edges: seq<Edge>, t: Tree) {
    && Rooted(t) && t.n >= 2
    && (forall e :: e in edges ==> 1 <= e.from <= t.n && 1 <= e.to <= t.n)
    && (forall x: nat :: ConnectsTo(edges, x) == if 0 < x < t.n then [t.parent(x) + 1] else [])
  }

  ghost predicate InRange(edges: seq<Edge>, n: nat) {
    forall e :: e in edges ==> 1 <= e.from <= n && 1 <= e.to <= n
  }

  lemma LastEdge(edges: seq<Edge>, x: nat)
    requires |edges| > 0
    ensures var e := edges[|edges| - 1];
            ConnectsTo(edges, x) == ConnectsTo(edges[..|edges| - 1], x) + if e.from == x + 1 then [e.to] else []
  {
    var before, e := edges[..|edges| - 1], edges[|edges| - 1];
    assert edges == before + [e];
    ConnectsToConcat(before, [e], x);
  }

  lemma {:induction false} RowConnects(n: nat, edges: seq<Edge>, x: nat)
    requires InRange(edges, n) && x < n
    ensures var to := ConnectsTo(edges, x); Rows(n, edges)[x].connect == if |to| == 0 then None else Some(to[|to| - 1])
    decreases |edges|
  {
    if |edges| == 0 {
    } else {
      var before := edges[..|edges| - 1];
      LastEdge(edges, x);
      InRangePrefix(edges, n);
      RowConnects(n, before, x);
    }
  }

  lemma InRangePrefix(edges: seq<Edge>, n: nat)
    requires |edges| > 0 && InRange(edges, n)
    ensures InRange(edges[..|edges| - 1], n) && edges[|edges| - 1] in edges
  {
    assert forall e :: e in edges[..|edges| - 1] ==> e in edges;
  }

  /** The nodes told to connect to x. */
  ghost function Senders(edges: seq<Edge>, x: nat): set<nat> {
    set e | e in edges && e.to == x + 1 && e.from >= 1 :: e.from - 1
  }

  lemma {:induction false} SenderConnects(edges: seq<Edge>, x: nat, y: nat)
    ensures y in Senders(edges, x) <==> x + 1 in ConnectsTo(edges, y)
    decreases |edges|
  {
    if |edges| == 0 {
    } else {
      LastEdge(edges, y);
      var before, e := edges[..|edges| - 1], edges[|edges| - 1];
      SenderConnects(before, x, y);
      assert edges == before + [e];
      assert forall f :: f in edges <==> f in before || f == e;
    }
  }

  lemma {:induction false} RowListens(n: nat, edges: seq<Edge>, x: nat)
    requires InRange(edges, n) && x < n
    requires forall y: nat :: |ConnectsTo(edges, y)| <= 1
    ensures Rows(n, edges)[x].listen == |Senders(edges, x)|
    decreases |edges|
  {
    if |edges| == 0 {
      assert Senders(edges, x) == {};
    } else {
      var before, e := edges[..|edges| - 1], edges[|edges| - 1];
      assert edges == before + [e];
      InRangePrefix(edges, n);
      OnceBefore(before, edges);
      RowListens(n, before, x);
      SendersGrow(before, e, edges, x);
      ListensMore(Rows(n, before), e, x);
    }
  }

  lemma ListensMore(rows: seq<Row>, e: Edge, x: nat)
    requires x < |rows| && 1 <= e.from <= |rows| && 1 <= e.to <= |rows|
    ensures AddEdge(rows, e)[x].listen == rows[x].listen + if e.to == x + 1 then 1 else 0
  {
  }

  lemma OnceBefore(before: seq<Edge>, edges: seq<Edge>)
    requires |edges| > 0 && before == edges[..|edges| - 1] && forall y: nat :: |ConnectsTo(edges, y)| <= 1
    ensures forall y: nat :: |ConnectsTo(before, y)| <= 1
  {
    forall y: nat
      ensures |ConnectsTo(before, y)| <= 1
    {
      assert |ConnectsTo(edges, y)| <= 1;
      LastEdge(edges, y);
    }
  }

  lemma SendersGrow(before: seq<Edge>, e: Edge, edges: seq<Edge>, x: nat)
    requires edges == before + [e] && e.from >= 1 && |ConnectsTo(edges, e.from - 1)| <= 1
    ensures |Senders(edges, x)| == |Senders(before, x)| + if e.to == x + 1 then 1 else 0
  {
    var y := e.from - 1;
    assert before == edges[..|edges| - 1];
    LastEdge(edges, y);
    SenderConnects(before, x, y);
    SendersMore(before, e, edges, x);
  }

  lemma SendersMore(before: seq<Edge>, e: Edge, edges: seq<Edge>, x: nat)
    requires edges == before + [e] && e.from >= 1
    ensures Senders(edges, x) == Senders(before, x) + if e.to == x + 1 then {e.from - 1} else {}
  {
    var all := Senders(edges, x);
    forall z | z in all && z !in Senders(before, x)
      ensures z == e.from - 1 && e.to == x + 1
    {
      var f :| f in edges && f.to == x + 1 && f.from >= 1 && f.from - 1 == z;
    }
    forall z | z in Senders(before, x)
      ensures z in all
    {
      var f :| f in before && f.to == x + 1 && f.from >= 1 && f.from - 1 == z;
      assert f in edges;
    }
    assert e in edges;
  }

  ghost function Elements(s: seq<nat>): (r: set<nat>)
    ensures forall x :: x in r <==> x in s
  {
    if |s| == 0 then {} else Elements(s[1..]) + {s[0]}
  }

  lemma {:induction false} DistinctSize(s: seq<nat>)
    requires Distinct(s)
    ensures |Elements(s)| == |s|
  {
    if |s| == 0 {
    } else {
      assert s[0] !in s[1..];
      DistinctSize(s[1..]);
    }
  }

  ghost predicate Distinct(s: seq<nat>) {
    forall i, k :: 0 <= i < k < |s| ==> s[i] != s[k]
  }

  lemma ChildrenDistinct(t: Tree, x: nat, cs: seq<nat>)
    requires cs == Children(t, x)
    ensures Distinct(cs)
  {
    ChildrenAscend(t, x, x + 1);
  }

  lemma SenderIsChild(edges: seq<Edge>, t: Tree, x: nat, y: nat)
    requires Draws(edges, t) && x < t.n
    ensures y in Senders(edges, x) <==> x < y < t.n && t.parent(y) == x
  {
    SenderConnects(edges, x, y);
    var to := ConnectsTo(edges, y);
    assert to == if 0 < y < t.n then [t.parent(y) + 1] else [];
  }

  lemma ListenSays(edges: seq<Edge>, t: Tree, x: nat, cs: seq<nat>)
    requires Draws(edges, t) && x < t.n && cs == Children(t, x)
    ensures |Senders(edges, x)| == |cs|
  {
    ChildrenDistinct(t, x, cs);
    DistinctSize(cs);
    SendersAreChildren(edges, t, x, cs);
  }

  lemma SendersAreChildren(edges: seq<Edge>, t: Tree, x: nat, cs: seq<nat>)
    requires Draws(edges, t) && x < t.n && cs == Children(t, x)
    ensures Senders(edges, x) == Elements(cs)
  {
    forall y: nat
      ensures y in Senders(edges, x) <==> y in Elements(cs)
    {
      SenderIsChild(edges, t, x, y);
      ChildrenAre(t, x, cs);
    }
  }

  /** What every node reads in the broadcast table. */
  lemma TableSays(edges: seq<Edge>, t: Tree, x: nat)
    requires Draws(edges, t) && x < t.n
    ensures Rows(t.n, edges)[x] == Row(if x == 0 then None else Some(t.parent(x) + 1), |Children(t, x)|)
  {
    RowConnects(t.n, edges, x);
    RowListens(t.n, edges, x);
    ListenSays(edges, t, x, Children(t, x));
  }

  // ----- ids -----

  /** The clients a server met in `met` order, of which those in `heard` have answered: the
      ones it keeps carry their node number as id, the others are gone. */
  ghost function KidsNow(met: seq<nat>, heard: seq<nat>, keep: nat -> bool): seq<Kid> {
    if |met| == 0 then []
    else
      (if met[0] in heard then (if keep(met[0]) then [Kid(met[0], met[0] + 1)] else []) else [Kid(met[0], 0)]) +
      KidsNow(met[1..], heard, keep)
  }

  lemma {:induction false} HearKept(met: seq<nat>, heard: seq<nat>, keep: nat -> bool, c: nat)
    requires keep(c)
    ensures SetId(KidsNow(met, heard, keep), c, c + 1) == KidsNow(met, heard + [c], keep)
  {
    if |met| == 0 {
    } else {
      HearKept(met[1..], heard, keep, c);
      var rest := KidsNow(met[1..], heard, keep);
      var now := KidsNow(met, heard, keep);
      if now != rest {
        assert now[1..] == rest;
      }
    }
  }

  lemma {:induction false} HearGone(met: seq<nat>, heard: seq<nat>, keep: nat -> bool, c: nat)
    requires !keep(c)
    ensures Drop(KidsNow(met, heard, keep), c) == KidsNow(met, heard + [c], keep)
  {
    if |met| == 0 {
    } else {
      HearGone(met[1..], heard, keep, c);
      var rest := KidsNow(met[1..], heard, keep);
      var now := KidsNow(met, heard, keep);
      if now != rest {
        assert now[1..] == rest;
      }
    }
  }

  // ----- the sorted list -----

  ghost predicate Ascending(kids: seq<Kid>) {
    forall i, k :: 0 <= i < k < |kids| ==> kids[i].id < kids[k].id
  }

  lemma {:induction false} InsertKeepsOrder(k: Kid, kids: seq<Kid>)
    requires Ascending(kids) && forall x :: x in kids ==> x.id != k.id
    ensures Ascending(Insert(k, kids))
    ensures forall x :: x in Insert(k, kids) <==> x == k || x in kids
  {
    if |kids| > 0 && kids[0].id < k.id {
      InsertKeepsOrder(k, kids[1..]);
      var tail := Insert(k, kids[1..]);
      assert forall x :: x in tail ==> x.id > kids[0].id;
    }
  }

  ghost predicate DistinctIds(kids: seq<Kid>) {
    forall i, k :: 0 <= i < k < |kids| ==> kids[i].id != kids[k].id
  }

  lemma {:induction false} ByIdSorts(kids: seq<Kid>)
    requires DistinctIds(kids)
    ensures Ascending(ById(kids))
    ensures forall x :: x in ById(kids) <==> x in kids
  {
    if |kids| == 0 {
    } else {
      ByIdSorts(kids[1..]);
      InsertKeepsOrder(kids[0], ById(kids[1..]));
    }
  }

  lemma {:induction false} AscendingIsUnique(a: seq<Kid>, b: seq<Kid>)
    requires Ascending(a) && Ascending(b) && forall x :: x in a <==> x in b
    ensures a == b
  {
    assert |a| > 0 ==> a[0] in a;
    assert |b| > 0 ==> b[0] in b;
    if |a| > 0 && |b| > 0 {
      assert a[0] == b[0];
      forall x
        ensures x in a[1..] <==> x in b[1..]
      {
        assert x in a <==> x in b;
        assert a[0] !in a[1..] && b[0] !in b[1..];
        assert x in a <==> x == a[0] || x in a[1..];
        assert x in b <==> x == b[0] || x in b[1..];
      }
      AscendingIsUnique(a[1..], b[1..]);
    }
  }

  ghost function ChildKids(cs: seq<nat>): seq<Kid> {
    seq(|cs|, i requires 0 <= i < |cs| => Kid(cs[i], cs[i] + 1))
  }

  lemma InChildKids(cs: seq<nat>, x: Kid)
    ensures x in ChildKids(cs) <==> x.conn in cs && x.id == x.conn + 1
  {
    if x.conn in cs && x.id == x.conn + 1 {
      var i :| 0 <= i < |cs| && cs[i] == x.conn;
      assert ChildKids(cs)[i] == x;
    }
  }

  lemma {:induction false} KidsWhenAllHeard(met: seq<nat>, heard: seq<nat>, keep: nat -> bool)
    requires Distinct(met) && forall x :: x in met ==> x in heard
    ensures DistinctIds(KidsNow(met, heard, keep))
    ensures forall x :: x in KidsNow(met, heard, keep) <==> x.conn in met && keep(x.conn) && x.id == x.conn + 1
  {
    if |met| == 0 {
    } else {
      assert forall x :: x in met[1..] ==> x in met;
      KidsWhenAllHeard(met[1..], heard, keep);
      assert met[0] in met && met[0] !in met[1..];
      OneKidMore(met, keep, KidsNow(met[1..], heard, keep), KidsNow(met, heard, keep));
    }
  }

  lemma OneKidMore(met: seq<nat>, keep: nat -> bool, rest: seq<Kid>, kids: seq<Kid>)
    requires |met| > 0 && met[0] !in met[1..] && DistinctIds(rest)
    requires forall x :: x in rest <==> x.conn in met[1..] && keep(x.conn) && x.id == x.conn + 1
    requires kids == (if keep(met[0]) then [Kid(met[0], met[0] + 1)] else []) + rest
    ensures DistinctIds(kids)
    ensures forall x :: x in kids <==> x.conn in met && keep(x.conn) && x.id == x.conn + 1
  {
    forall i, k | 0 <= i < k < |kids|
      ensures kids[i].id != kids[k].id
    {
      if keep(met[0]) && i == 0 {
        assert kids[k] == rest[k - 1] && rest[k - 1] in rest;
      } else if keep(met[0]) {
        assert kids[i] == rest[i - 1] && kids[k] == rest[k - 1];
      } else {
        assert kids == rest;
      }
    }
    assert forall x: nat :: x in met <==> x == met[0] || x in met[1..];
  }

  /** A server keeps the clients whose parent it is. */
  function Keeps(t: Tree, p: nat): nat -> bool {
    (x: nat) => t.parent(x) == p
  }

  /** Once everybody has answered, the clients in ascending id order are p's children. */
  lemma ServedInOrder(t: Tree, p: nat, met: seq<nat>, heard: seq<nat>)
    requires Distinct(met) && forall x :: x in met ==> x in heard
    requires forall x: nat :: x in Children(t, p) ==> x in met
    requires forall x: nat :: x in met && t.parent(x) == p ==> x in Children(t, p)
    ensures ById(KidsNow(met, heard, Keeps(t, p))) == ChildKids(Children(t, p))
  {
    var cs := Children(t, p);
    var kids := KidsNow(met, heard, Keeps(t, p));
    KidsWhenAllHeard(met, heard, Keeps(t, p));
    ByIdSorts(kids);
    ChildrenAscend(t, p, p + 1);
    forall x: Kid
      ensures x in ChildKids(cs) <==> x in kids
    {
      InChildKids(cs, x);
    }
    AscendingIsUnique(ById(kids), ChildKids(cs));
  }
}
