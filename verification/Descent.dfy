/** What is in flight while the nodes of a tree, from the lowest number up, take the same messages
    from their parents and pass them to their children, the last one first. */
module Descent {
  import opened Sequences
  import opened Network
  import opened OrderedTree

  /** The messages are on every link from a node below j into one at or above it. */
  ghost function Flight<M>(t: Tree, j: nat, l: Link, msgs: seq<M>): seq<M> {
    if 0 < l.to < t.n && j <= l.to && l.from == t.parent(l.to) && l.from < j then msgs else []
  }

  /** Node j has taken them and passed them to its k last children. */
  ghost predicate PassQueues<M>(t: Tree, q: Queues<M>, j: nat, k: nat, msgs: seq<M>)
    requires k <= |Children(t, j)|
  {
    var cs := Children(t, j);
    forall l :: Get(q, l) == if l.from == j then (if l.to in cs[|cs| - k..] then msgs else [])
      else Flight(t, j + 1, l, msgs)
  }

  lemma FlightTaken<M>(t: Tree, q: Queues<M>, q': Queues<M>, j: nat, msgs: seq<M>)
    requires Rooted(t) && 0 < j < t.n && forall l :: Get(q, l) == Flight(t, j, l, msgs)
    ensures Get(q, Link(t.parent(j), j)) == msgs
    ensures Updated(q, q', Link(t.parent(j), j), []) ==> PassQueues(t, q', j, 0, msgs)
  {
    var cs := Children(t, j);
    assert cs[|cs|..] == [];
  }

  lemma ServesOne<M>(t: Tree, q: Queues<M>, q': Queues<M>, j: nat, k: nat, msgs: seq<M>)
    requires k < |Children(t, j)| && PassQueues(t, q, j, k, msgs)
    ensures var cs := Children(t, j); Get(q, Link(j, cs[|cs| - 1 - k])) == []
    ensures var cs := Children(t, j); Updated(q, q', Link(j, cs[|cs| - 1 - k]), msgs) ==>
            PassQueues(t, q', j, k + 1, msgs)
  {
    var cs := Children(t, j);
    ChildrenAre(t, j, cs);
    var m := |cs| - 1 - k;
    assert cs[m] !in cs[|cs| - k..];
    if Updated(q, q', Link(j, cs[m]), msgs) {
      forall l: Link
        ensures Get(q', l) == if l.from == j then (if l.to in cs[|cs| - (k + 1)..] then msgs else [])
                else Flight(t, j + 1, l, msgs)
      {
        SuffixMore(cs, k, l.to);
      }
    }
  }

  lemma ServedAll<M>(t: Tree, q: Queues<M>, j: nat, msgs: seq<M>, l: Link)
    requires PassQueues(t, q, j, |Children(t, j)|, msgs)
    ensures Get(q, l) == Flight(t, j + 1, l, msgs)
  {
    var cs := Children(t, j);
    ChildrenAre(t, j, cs);
    assert cs[|cs| - |cs|..] == cs;
  }
}
