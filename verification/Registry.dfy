/** The registry of named work queues (src/workqueue.c:55-90, 113-146, 249-276): a doubly linked
    list under one mutex, and the handles that Lua holds on the queues. */
module Registry {
  import opened Wrappers

  class Workqueue {
    const name: Option<string>
    var next: Workqueue?
    var prev: Workqueue?
    var refcount: int

    constructor (name: Option<string>)
      ensures this.name == name && next == null && prev == null && refcount == 1
    {
      this.name, next, prev, refcount := name, null, null, 1;
    }
  }

  function At(nodes: seq<Workqueue>, i: int): Workqueue? {
    if 0 <= i < |nodes| then nodes[i] else null
  }

  ghost predicate Distinct(nodes: seq<Workqueue>) {
    && (forall i, j :: 0 <= i < j < |nodes| ==> nodes[i] != nodes[j])
    && (forall i, j :: 0 <= i < j < |nodes| ==> nodes[i].name != nodes[j].name)
  }

  /** The handles on queue q. */
  ghost function Holders(slots: map<nat, Workqueue>, q: Workqueue): set<nat> {
    set h | h in slots && slots[h] == q
  }

  lemma HolderAdded(slots: map<nat, Workqueue>, h: nat, q: Workqueue, w: Workqueue)
    requires h !in slots
    ensures |Holders(slots[h := q], w)| == |Holders(slots, w)| + if w == q then 1 else 0
  {
    if w == q {
      assert Holders(slots[h := q], w) == Holders(slots, w) + {h};
    } else {
      assert Holders(slots[h := q], w) == Holders(slots, w);
    }
  }

  lemma HolderDropped(slots: map<nat, Workqueue>, h: nat, w: Workqueue)
    requires h in slots
    ensures |Holders(slots - {h}, w)| == |Holders(slots, w)| - if w == slots[h] then 1 else 0
  {
    if w == slots[h] {
      assert Holders(slots, w) == Holders(slots - {h}, w) + {h};
    } else {
      assert Holders(slots - {h}, w) == Holders(slots, w);
    }
  }

  function Without(nodes: seq<Workqueue>, i: nat): seq<Workqueue>
    requires i < |nodes|
  {
    nodes[..i] + nodes[i + 1..]
  }

  /** Node i's pointers lead to its neighbours. */
  ghost predicate LinkAt(w: Workqueue, ns: seq<Workqueue>, i: nat)
    reads w`next, w`prev
  {
    w.next == At(ns, i + 1) && w.prev == At(ns, i - 1)
  }

  /** Node j's pointers lead to its neighbours, as if node i were not there. */
  ghost predicate SkipAt(w: Workqueue, ns: seq<Workqueue>, i: nat, j: nat)
    reads w`next, w`prev
  {
    && w.next == At(ns, if j + 1 == i then j + 2 else j + 1)
    && w.prev == At(ns, if j - 1 == i then j - 2 else j - 1)
  }

  lemma WithoutAt(nodes: seq<Workqueue>, i: nat, j: int)
    requires i < |nodes|
    ensures At(Without(nodes, i), j) == At(nodes, if j < i then j else j + 1)
  {
  }

  lemma WithoutDistinct(nodes: seq<Workqueue>, i: nat)
    requires i < |nodes| && Distinct(nodes)
    ensures Distinct(Without(nodes, i))
    ensures forall q :: q in Without(nodes, i) <==> q in nodes && q != nodes[i]
  {
    var rest := Without(nodes, i);
    assert forall k :: 0 <= k < |rest| ==> rest[k] == nodes[if k < i then k else k + 1];
    forall q | q in nodes && q != nodes[i]
      ensures q in rest
    {
      var k :| 0 <= k < |nodes| && nodes[k] == q;
      assert rest[if k < i then k else k - 1] == q;
    }
  }

  datatype CloseResult = Closed | AlreadyClosed

  /** `slots` are the open handles, `live` the queues that were not freed, `nodes` the list. */
  class Registry {
    var head: Workqueue?
    var slots: map<nat, Workqueue>
    ghost var live: set<Workqueue>
    ghost var nodes: seq<Workqueue>

    ghost predicate Linked()
      reads this, live
    {
      LinkedAs(nodes)
    }

    /** From the head on, the list is ns, forwards and backwards. */
    ghost predicate LinkedAs(ns: seq<Workqueue>)
      reads this, live
    {
      && (forall i :: 0 <= i < |ns| ==> ns[i] in live)
      && Distinct(ns)
      && head == At(ns, 0)
      && forall i {:trigger LinkAt(ns[i], ns, i)} :: 0 <= i < |ns| ==> LinkAt(ns[i], ns, i)
    }

    /** The list holds exactly the live queues that have a name. */
    ghost predicate Listed()
      reads this, live
    {
      forall q :: q in live ==> (q in nodes <==> q.name.Some?)
    }

    /** Every live queue is counted by its handles, and has one. */
    ghost predicate Counted()
      reads this, live
    {
      && (forall h :: h in slots ==> slots[h] in live)
      && (forall q :: q in live ==> q.refcount == |Holders(slots, q)| > 0)
    }

    ghost predicate Valid()
      reads this, live
    {
      Linked() && Listed() && Counted()
    }

    constructor ()
      ensures Valid() && slots == map[] && live == {}
    {
      head, slots, live, nodes := null, map[], {}, [];
    }

    /** workqueue_insert */
    method Insert(q: Workqueue)
      requires Linked() && q in live && q !in nodes && q.next == null && q.prev == null
      requires q.name.Some? ==> forall i :: 0 <= i < |nodes| ==> nodes[i].name != q.name
      modifies this`head, this`nodes, set w | w in live :: w`next, set w | w in live :: w`prev
      ensures Linked() && nodes == if q.name.Some? then [q] + old(nodes) else old(nodes)
    {
      if q.name.None? {
        return;
      }
      if head != null {
        head.prev := q;
        q.next := head;
      }
      head := q;
      nodes := [q] + nodes;
      forall j {:trigger LinkAt(nodes[j], nodes, j)} | 0 <= j < |nodes|
        ensures LinkAt(nodes[j], nodes, j)
      {
        if j > 0 {
          assert old(LinkAt(nodes[j - 1], nodes, j - 1));
        }
      }
    }

    /** The pointer changes of workqueue_remove: the neighbours of node i see each other. */
    method Unlink(q: Workqueue, ghost i: nat)
      requires Linked() && i < |nodes| && nodes[i] == q
      modifies this`head, set w | w in live :: w`next, set w | w in live :: w`prev
      ensures head == At(nodes, if i == 0 then 1 else 0)
      ensures forall j {:trigger SkipAt(nodes[j], nodes, i, j)} :: 0 <= j < |nodes| && j != i ==>
              SkipAt(nodes[j], nodes, i, j)
    {
      assert LinkAt(nodes[i], nodes, i);
      if head == q {
        head := q.next;
      }
      if q.next != null {
        q.next.prev := q.prev;
      }
      if q.prev != null {
        q.prev.next := q.next;
      }
      forall j {:trigger SkipAt(nodes[j], nodes, i, j)} | 0 <= j < |nodes| && j != i
        ensures SkipAt(nodes[j], nodes, i, j)
      {
        assert old(LinkAt(nodes[j], nodes, j));
      }
    }

    /** workqueue_remove */
    method Remove(q: Workqueue, ghost i: nat)
      requires Linked() && q in live && if q.name.Some? then i < |nodes| && nodes[i] == q else q !in nodes
      modifies this`head, this`nodes, set w | w in live :: w`next, set w | w in live :: w`prev
      ensures Linked() && nodes == if q.name.Some? then Without(old(nodes), i) else old(nodes)
    {
      if q.name.None? {
        return;
      }
      Unlink(q, i);
      Relinked(i);
      nodes := Without(nodes, i);
    }

    lemma Relinked(i: nat)
      requires i < |nodes| && Distinct(nodes) && (forall j :: 0 <= j < |nodes| ==> nodes[j] in live)
      requires head == At(nodes, if i == 0 then 1 else 0)
      requires forall j {:trigger SkipAt(nodes[j], nodes, i, j)} :: 0 <= j < |nodes| && j != i ==>
               SkipAt(nodes[j], nodes, i, j)
      ensures LinkedAs(Without(nodes, i))
    {
      var rest := Without(nodes, i);
      forall j {:trigger LinkAt(rest[j], rest, j)} | 0 <= j < |rest|
        ensures LinkAt(rest[j], rest, j)
      {
        assert SkipAt(nodes[if j < i then j else j + 1], nodes, i, if j < i then j else j + 1);
        RelinkedAt(i, j);
      }
      WithoutAt(nodes, i, 0);
      WithoutDistinct(nodes, i);
    }

    /** Nodes whose pointers skip node i are linked without it. */
    lemma RelinkedAt(i: nat, j: nat)
      requires i < |nodes| && j < |nodes| - 1
      requires SkipAt(nodes[if j < i then j else j + 1], nodes, i, if j < i then j else j + 1)
      ensures LinkAt(Without(nodes, i)[j], Without(nodes, i), j)
    {
      WithoutAt(nodes, i, j - 1);
      WithoutAt(nodes, i, j);
      WithoutAt(nodes, i, j + 1);
    }

    /** workqueue_find: the queue of that name, with one more reference. */
    method Find(name: Option<string>) returns (found: Workqueue?)
      requires Linked()
      modifies set w | w in live :: w`refcount
      ensures Linked()
      ensures found == null ==> name.None? || forall i :: 0 <= i < |nodes| ==> nodes[i].name != name
      ensures found == null ==> forall q :: q in live ==> q.refcount == old(q.refcount)
      ensures found != null ==> found in nodes && found.name == name && name.Some?
      ensures found != null ==> forall q :: q in live ==> q.refcount == old(q.refcount) + if q == found then 1 else 0
    {
      if name.None? {
        return null;
      }
      found := head;
      ghost var i := 0;
      while found != null && found.name != name
        invariant 0 <= i <= |nodes| && found == At(nodes, i)
        invariant forall j :: 0 <= j < i ==> nodes[j].name != name
        decreases |nodes| - i
      {
        assert LinkAt(nodes[i], nodes, i);
        found := found.next;
        i := i + 1;
      }
      if found != null {
        found.refcount := found.refcount + 1;
        assert forall j {:trigger LinkAt(nodes[j], nodes, j)} :: 0 <= j < |nodes| ==>
          old(LinkAt(nodes[j], nodes, j)) ==> LinkAt(nodes[j], nodes, j);
      }
    }

    /** The new handle, on a queue that already counts it. */
    method Hold(h: nat, q: Workqueue)
      requires Linked() && Listed() && h !in slots && q in live && forall g :: g in slots ==> slots[g] in live
      requires forall w :: w in live ==> w.refcount == |Holders(slots, w)| + if w == q then 1 else 0
      requires forall w :: w in live ==> w.refcount > 0
      modifies this`slots
      ensures slots == old(slots)[h := q] && Valid()
    {
      forall w | w in live
        ensures |Holders(slots[h := q], w)| == |Holders(slots, w)| + if w == q then 1 else 0
      {
        HolderAdded(slots, h, q, w);
      }
      slots := slots[h := q];
    }

    /** A name is in the list exactly if a handle is open on a queue of that name. */
    lemma NameIsHeld(name: Option<string>)
      requires Valid() && name.Some?
      ensures (exists i :: 0 <= i < |nodes| && nodes[i].name == name) <==>
              exists h :: h in slots && slots[h].name == name
    {
      if i :| 0 <= i < |nodes| && nodes[i].name == name {
        var h :| h in Holders(slots, nodes[i]);
        assert slots[h].name == name;
      }
      if h :| h in slots && slots[h].name == name {
        assert slots[h] in nodes;
      }
    }

    /** workqueue_open.  The caller is the creator exactly when no handle on a queue of that name
        was open. */
    method Open(name: Option<string>, h: nat) returns (q: Workqueue, creator: bool)
      requires Valid() && h !in slots
      modifies this, live
      ensures Valid() && q.name == name && slots == old(slots)[h := q]
      ensures creator <==> name.None? || forall g :: g in old(slots) ==> old(slots)[g].name != name
      ensures live == if creator then old(live) + {q} else old(live)
      ensures creator ==> fresh(q)
    {
      if name.Some? {
        NameIsHeld(name);
      }
      var found := Find(name);
      creator := false;
      if found == null {
        creator := true;
        q := Create(name);
      } else {
        q := found;
      }
      Hold(h, q);
    }

    /** The first handle's half of workqueue_open. */
    method Create(name: Option<string>) returns (q: Workqueue)
      requires Valid() && (name.Some? ==> forall i :: 0 <= i < |nodes| ==> nodes[i].name != name)
      modifies this`head, this`nodes, this`live, set w | w in live :: w`next, set w | w in live :: w`prev
      ensures fresh(q) && q.name == name && live == old(live) + {q} && Linked() && Listed()
      ensures q.refcount == 1 && Holders(slots, q) == {}
    {
      q := new Workqueue(name);
      live := live + {q};
      Insert(q);
    }

    /** workqueue_close.  The last handle takes the queue with it. */
    method Close(h: nat) returns (r: CloseResult)
      requires Valid()
      modifies this, live
      ensures Valid()
      ensures r == AlreadyClosed <==> h !in old(slots)
      ensures slots == old(slots) - {h}
      ensures h in old(slots) ==>
                var q := old(slots)[h];
                  live == if (exists g :: g in slots && slots[g] == q) then old(live) else old(live) - {q}
    {
      if h !in slots {
        return AlreadyClosed;
      }
      var q := slots[h];
      Drop(h, q);
      r := Closed;
      if q.refcount == 0 {
        Free(q);
      }
    }

    /** The handle goes, and q counts one less. */
    method Drop(h: nat, q: Workqueue)
      requires Counted() && h in slots && slots[h] == q
      modifies this`slots, q`refcount
      ensures slots == old(slots) - {h}
      ensures (forall g :: g in slots ==> slots[g] in live) && forall w :: w in live ==>
              w.refcount == |Holders(slots, w)|
      ensures forall w :: w in live && w != q ==> w.refcount > 0
      ensures q.refcount == 0 <==> !exists g :: g in slots && slots[g] == q
    {
      forall w | w in live
        ensures |Holders(slots - {h}, w)| == |Holders(slots, w)| - if w == q then 1 else 0
      {
        HolderDropped(slots, h, w);
      }
      q.refcount := q.refcount - 1;
      slots := slots - {h};
      if q.refcount == 0 {
        assert Holders(slots, q) == {};
        assert forall g :: g in slots && slots[g] == q ==> g in Holders(slots, q);
      } else {
        ghost var g :| g in Holders(slots, q);
      }
    }

    method Free(q: Workqueue)
      requires Linked() && Listed() && q in live
      modifies this`head, this`nodes, this`live, set w | w in live :: w`next, set w | w in live :: w`prev
      ensures Linked() && Listed() && live == old(live) - {q}
    {
      ghost var i: nat := 0;
      if q.name.Some? {
        i :| 0 <= i < |nodes| && nodes[i] == q;
        WithoutDistinct(nodes, i);
      }
      Remove(q, i);
      live := live - {q};
    }
  }
}
