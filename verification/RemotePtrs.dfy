/** The cache of opened remote memory handles (src/generic/cliser.c:101-147). */
module RemotePtrs {
  /** What a sender announces, and from which socket it came. */
  datatype Remote<H> = Remote(handle: H, ptr: int, count: nat, sock: int)

  /** has_overlap */
  predicate HasOverlap(p0: int, c0: nat, p1: int, c1: nat) {
    var ep0, ep1 := p0 + c0 - 1, p1 + c1 - 1;
    || p1 <= p0 <= ep1
    || p1 <= ep0 <= ep1
    || p0 <= p1 <= ep0
    || p0 <= ep1 <= ep0
  }

  ghost predicate InRange(x: int, p: int, c: nat) {
    p <= x < p + c
  }

  /** The four comparisons find every shared element; for ranges that are not empty, nothing else. */
  lemma HasOverlapIffShared(p0: int, c0: nat, p1: int, c1: nat)
    ensures (exists x :: InRange(x, p0, c0) && InRange(x, p1, c1)) ==> HasOverlap(p0, c0, p1, c1)
    ensures c0 > 0 && c1 > 0 && HasOverlap(p0, c0, p1, c1) ==> exists x :: InRange(x, p0, c0) && InRange(x, p1, c1)
  {
    if c0 > 0 && c1 > 0 && HasOverlap(p0, c0, p1, c1) {
      var x := if p0 < p1 then p1 else p0;
      assert InRange(x, p0, c0) && InRange(x, p1, c1);
    }
  }

  /** An entry that the announcement r shows to be stale. */
  predicate Stale<H>(e: Remote<H>, r: Remote<H>) {
    e.sock == r.sock && HasOverlap(r.ptr, r.count, e.ptr, e.count)
  }

  /** What the scan leaves: it stops at r's handle, and drops stale entries on its way. */
  function Scanned<H(==)>(es: seq<Remote<H>>, r: Remote<H>): seq<Remote<H>> {
    if |es| == 0 || es[0].handle == r.handle then es
    else if Stale(es[0], r) then Scanned(es[1..], r)
    else [es[0]] + Scanned(es[1..], r)
  }

  predicate Has<H(==)>(es: seq<Remote<H>>, h: H) {
    exists i :: 0 <= i < |es| && es[i].handle == h
  }

  function Received<H(==)>(es: seq<Remote<H>>, r: Remote<H>): seq<Remote<H>> {
    if Has(Scanned(es, r), r.handle) then Scanned(es, r) else Scanned(es, r) + [r]
  }

  // ----- what every receive keeps -----

  ghost predicate Distinct<H>(es: seq<Remote<H>>) {
    forall i, j :: 0 <= i < j < |es| ==> es[i].handle != es[j].handle
  }

  /** The ranges that one socket announced are apart. */
  ghost predicate Disjoint<H>(es: seq<Remote<H>>) {
    forall i, j :: 0 <= i < j < |es| && es[i].sock == es[j].sock ==> !Shares(es[i], es[j])
  }

  ghost predicate Shares<H>(a: Remote<H>, b: Remote<H>) {
    exists x :: InRange(x, a.ptr, a.count) && InRange(x, b.ptr, b.count)
  }

  ghost predicate Inv<H>(es: seq<Remote<H>>) {
    Distinct(es) && Disjoint(es)
  }

  /** kept, in order, picks some of es. */
  ghost predicate Subsequence<H>(kept: seq<Remote<H>>, es: seq<Remote<H>>)
    decreases |es|
  {
    if |kept| == 0 then true
    else if |es| == 0 then false
    else if kept[0] == es[0] then Subsequence(kept[1..], es[1..])
    else Subsequence(kept, es[1..])
  }

  lemma {:induction false} SubsequenceRefl<H>(es: seq<Remote<H>>)
    ensures Subsequence(es, es)
  {
    if |es| == 0 {
    } else {
      SubsequenceRefl(es[1..]);
    }
  }

  /** Survivors come from the old entries. */
  lemma {:induction false} SubsequenceMember<H>(kept: seq<Remote<H>>, es: seq<Remote<H>>, i: nat)
    requires Subsequence(kept, es) && i < |kept|
    ensures exists k :: i <= k < |es| && es[k] == kept[i]
    decreases |es|
  {
    if kept[0] == es[0] {
      if i > 0 {
        SubsequenceMember(kept[1..], es[1..], i - 1);
        var k :| i - 1 <= k < |es| - 1 && es[1..][k] == kept[1..][i - 1];
        assert es[k + 1] == kept[i];
      }
    } else {
      SubsequenceMember(kept, es[1..], i);
      var k :| i <= k < |es| - 1 && es[1..][k] == kept[i];
      assert es[k + 1] == kept[i];
    }
  }

  lemma InvTail<H>(es: seq<Remote<H>>)
    requires |es| > 0 && Inv(es)
    ensures Inv(es[1..])
  {
  }

  lemma {:induction false} SubsequenceKeepsInv<H>(kept: seq<Remote<H>>, es: seq<Remote<H>>)
    requires Subsequence(kept, es) && Inv(es)
    ensures Inv(kept)
    decreases |es|
  {
    if |kept| == 0 {
    } else {
      InvTail(es);
      if kept[0] == es[0] {
        SubsequenceKeepsInv(kept[1..], es[1..]);
        HeadKeepsInv(kept, es);
      } else {
        SubsequenceKeepsInv(kept, es[1..]);
      }
    }
  }

  lemma HeadKeepsInv<H>(kept: seq<Remote<H>>, es: seq<Remote<H>>)
    requires |kept| > 0 && |es| > 0 && kept[0] == es[0] && Subsequence(kept[1..], es[1..]) && Inv(es) && Inv(kept[1..])
    ensures Inv(kept)
  {
    forall j | 1 <= j < |kept|
      ensures kept[0].handle != kept[j].handle && (kept[0].sock == kept[j].sock ==> !Shares(kept[0], kept[j]))
    {
      SubsequenceMember(kept[1..], es[1..], j - 1);
      var k :| j - 1 <= k < |es[1..]| && es[1..][k] == kept[1..][j - 1];
      assert es[k + 1] == kept[j];
    }
    forall i, j | 0 <= i < j < |kept|
      ensures kept[i].handle != kept[j].handle && (kept[i].sock == kept[j].sock ==> !Shares(kept[i], kept[j]))
    {
      if i > 0 {
        assert kept[i] == kept[1..][i - 1] && kept[j] == kept[1..][j - 1];
      }
    }
  }

  lemma {:induction false} ScanKeepsOrder<H>(es: seq<Remote<H>>, r: Remote<H>)
    ensures Subsequence(Scanned(es, r), es)
  {
    if |es| == 0 || es[0].handle == r.handle {
      SubsequenceRefl(es);
    } else {
      ScanKeepsOrder(es[1..], r);
      if !Stale(es[0], r) {
        assert Scanned(es, r)[1..] == Scanned(es[1..], r);
      } else if |Scanned(es, r)| > 0 && Scanned(es, r)[0] == es[0] {
        SubsequenceSkips(Scanned(es, r), es);
      }
    }
  }

  /** Picking from fewer entries is picking from more, whatever the first one is. */
  lemma {:induction false} SubsequenceSkips<H>(kept: seq<Remote<H>>, es: seq<Remote<H>>)
    requires |es| > 0 && Subsequence(kept, es[1..])
    ensures Subsequence(kept, es) && (|kept| > 0 ==> Subsequence(kept[1..], es[1..]))
    decreases |es|
  {
    if |kept| == 0 {
    } else {
      if kept[0] == es[1..][0] {
        SubsequenceSkips(kept[1..], es[1..]);
      } else {
        SubsequenceSkips(kept, es[1..]);
        SubsequenceSkips(kept[1..], es[1..]);
      }
    }
  }

  /** Only stale entries of the same socket are dropped. */
  lemma {:induction false} ScanKeepsOthers<H>(es: seq<Remote<H>>, r: Remote<H>, e: Remote<H>)
    requires e in es && (e.sock != r.sock || !Stale(e, r))
    ensures e in Scanned(es, r)
  {
    if es[0].handle != r.handle && e != es[0] {
      ScanKeepsOthers(es[1..], r, e);
    }
  }

  /** A scan that does not find the handle has dropped everything stale. */
  lemma {:induction false} ScanDropsStale<H>(es: seq<Remote<H>>, r: Remote<H>, i: nat)
    requires !Has(Scanned(es, r), r.handle) && i < |Scanned(es, r)|
    ensures !Stale(Scanned(es, r)[i], r)
  {
    assert Scanned(es, r)[0].handle != r.handle;
    if Stale(es[0], r) {
      ScanDropsStale(es[1..], r, i);
    } else if i > 0 {
      HasTail(es[0], Scanned(es[1..], r), r.handle);
      ScanDropsStale(es[1..], r, i - 1);
    }
  }

  lemma HasTail<H>(e: Remote<H>, es: seq<Remote<H>>, h: H)
    requires !Has([e] + es, h)
    ensures !Has(es, h)
  {
    assert forall i :: 0 <= i < |es| ==> ([e] + es)[i + 1] == es[i];
  }

  /** Every receive keeps handles distinct and the ranges of one socket apart, and ends with the
      received handle in the cache. */
  lemma ReceiveKeepsInv<H>(es: seq<Remote<H>>, r: Remote<H>)
    requires Inv(es)
    ensures Inv(Received(es, r)) && Has(Received(es, r), r.handle)
  {
    var s := Scanned(es, r);
    ScanKeepsOrder(es, r);
    SubsequenceKeepsInv(s, es);
    if !Has(s, r.handle) {
      forall i | 0 <= i < |s|
        ensures s[i].handle != r.handle && (s[i].sock == r.sock ==> !Shares(s[i], r))
      {
        ScanDropsStale(es, r, i);
        HasOverlapIffShared(r.ptr, r.count, s[i].ptr, s[i].count);
      }
      assert (s + [r])[|s|].handle == r.handle;
    }
  }

  /** The scan has come to r's handle before position i, or does so there. */
  ghost predicate FoundBy<H>(es: seq<Remote<H>>, h: H, i: nat) {
    exists j :: 0 <= j <= i && j < |es| && es[j].handle == h
  }

  lemma FoundByNext<H>(es: seq<Remote<H>>, h: H, i: nat)
    requires 0 < i < |es| && es[0].handle != h
    ensures FoundBy(es, h, i) <==> FoundBy(es[1..], h, i - 1)
  {
    if j :| 0 <= j <= i && j < |es| && es[j].handle == h {
      assert es[1..][j - 1].handle == h;
    }
    if j :| 0 <= j <= i - 1 && j < |es| - 1 && es[1..][j].handle == h {
      assert es[j + 1].handle == h;
    }
  }

  lemma DroppedIsGone<H>(es: seq<Remote<H>>, r: Remote<H>)
    requires |es| > 0 && Distinct(es)
    ensures es[0] !in Scanned(es[1..], r)
  {
    var s := Scanned(es[1..], r);
    ScanKeepsOrder(es[1..], r);
    forall i | 0 <= i < |s|
      ensures s[i].handle != es[0].handle
    {
      SubsequenceMember(s, es[1..], i);
      var k :| i <= k < |es[1..]| && es[1..][k] == s[i];
      assert es[k + 1] == s[i];
    }
  }

  /** Which entries a scan keeps: those that are not stale, and all from r's handle on. */
  lemma {:induction false} ScanKeepsIff<H>(es: seq<Remote<H>>, r: Remote<H>, i: nat)
    requires Distinct(es) && i < |es|
    ensures es[i] in Scanned(es, r) <==> !Stale(es[i], r) || FoundBy(es, r.handle, i)
  {
    if es[0].handle == r.handle {
      assert FoundBy(es, r.handle, i);
    } else {
      DroppedIsGone(es, r);
      if i > 0 {
        ScanKeepsIff(es[1..], r, i - 1);
        FoundByNext(es, r.handle, i);
      }
    }
  }

  /** What a receive leaves, exactly: the entries that the scan keeps, in order, and the new one at the end
      if its handle was not there. */
  lemma ReceiveIs<H>(es: seq<Remote<H>>, r: Remote<H>) returns (kept: seq<Remote<H>>)
    requires Distinct(es)
    ensures Subsequence(kept, es) && Received(es, r) == if Has(es, r.handle) then kept else kept + [r]
    ensures forall i :: 0 <= i < |es| ==> (es[i] in kept <==> !Stale(es[i], r) || FoundBy(es, r.handle, i))
  {
    kept := Scanned(es, r);
    ScanKeepsOrder(es, r);
    forall i | 0 <= i < |es|
      ensures es[i] in kept <==> !Stale(es[i], r) || FoundBy(es, r.handle, i)
    {
      ScanKeepsIff(es, r, i);
    }
    if i :| 0 <= i < |es| && es[i].handle == r.handle {
      assert es[i] in kept;
    }
    if i :| 0 <= i < |kept| && kept[i].handle == r.handle {
      SubsequenceMember(kept, es, i);
    }
  }

  /** What a receive does to the entries that were there: they keep their order, those of other
      sockets all stay, and one that goes shares an element with what was announced. */
  lemma ReceiveEvicts<H>(es: seq<Remote<H>>, r: Remote<H>, e: Remote<H>)
    requires e in es
    ensures exists kept :: Subsequence(kept, es) && (Received(es, r) == kept || Received(es, r) == kept + [r])
    ensures e.sock != r.sock ==> e in Received(es, r)
    ensures e !in Received(es, r) && e.count > 0 && r.count > 0 ==> e.sock == r.sock && Shares(r, e)
  {
    ScanKeepsOrder(es, r);
    if e.sock != r.sock || !Stale(e, r) {
      ScanKeepsOthers(es, r, e);
    } else {
      HasOverlapIffShared(r.ptr, r.count, e.ptr, e.count);
    }
  }

  /** The cache after all of rs were received. */
  function After<H(==)>(rs: seq<Remote<H>>): seq<Remote<H>> {
    if |rs| == 0 then [] else Received(After(rs[..|rs| - 1]), rs[|rs| - 1])
  }

  lemma {:induction false} EveryRunKeepsInv<H>(rs: seq<Remote<H>>)
    ensures Inv(After(rs))
    ensures |rs| > 0 ==> Has(After(rs), rs[|rs| - 1].handle)
  {
    if |rs| == 0 {
    } else {
      EveryRunKeepsInv(rs[..|rs| - 1]);
      ReceiveKeepsInv(After(rs[..|rs| - 1]), rs[|rs| - 1]);
    }
  }

  // ----- the cache -----

  const CUDA_REMOTE_PTRS: nat := 256

  ghost function Handles<H>(es: seq<Remote<H>>): set<H> {
    set i | 0 <= i < |es| :: es[i].handle
  }

  lemma HandlesWithout<H>(es: seq<Remote<H>>, i: nat)
    requires Distinct(es) && i < |es|
    ensures Handles(es[..i] + es[i + 1..]) == Handles(es) - {es[i].handle} && Distinct(es[..i] + es[i + 1..])
  {
    var rest := es[..i] + es[i + 1..];
    assert forall k :: 0 <= k < |rest| ==> rest[k] == if k < i then es[k] else es[k + 1];
    forall h | h in Handles(es) - {es[i].handle}
      ensures h in Handles(rest)
    {
      var k :| 0 <= k < |es| && es[k].handle == h;
      assert rest[if k < i then k else k - 1].handle == h;
    }
  }

  lemma HandlesWith<H>(es: seq<Remote<H>>, r: Remote<H>)
    ensures Handles(es + [r]) == Handles(es) + {r.handle}
  {
    var more := es + [r];
    assert more[|es|] == r;
    forall h | h in Handles(es)
      ensures h in Handles(more)
    {
      var k :| 0 <= k < |es| && es[k].handle == h;
      assert more[k].handle == h;
    }
  }

  /** The scan at position cb of a cache that began as es. */
  ghost predicate Scanning<H>(es: seq<Remote<H>>, r: Remote<H>, now: seq<Remote<H>>, cb: nat) {
    && cb <= |now| && !Has(now[..cb], r.handle)
    && Scanned(es, r) == now[..cb] + Scanned(now[cb..], r)
  }

  lemma ScanStays<H>(es: seq<Remote<H>>, r: Remote<H>, now: seq<Remote<H>>, cb: nat)
    requires Scanning(es, r, now, cb) && cb < |now| && now[cb].handle != r.handle && !Stale(now[cb], r)
    ensures Scanning(es, r, now, cb + 1)
  {
    assert now[cb..][1..] == now[cb + 1..] && now[..cb] + [now[cb]] == now[..cb + 1];
    assert now[..cb] + ([now[cb]] + Scanned(now[cb + 1..], r)) == now[..cb + 1] + Scanned(now[cb + 1..], r);
    assert forall i :: 0 <= i < cb ==> now[..cb + 1][i] == now[..cb][i];
  }

  lemma ScanEvicts<H>(es: seq<Remote<H>>, r: Remote<H>, now: seq<Remote<H>>, cb: nat)
    requires Scanning(es, r, now, cb) && cb < |now| && now[cb].handle != r.handle && Stale(now[cb], r)
    ensures Scanning(es, r, now[..cb] + now[cb + 1..], cb)
  {
    var next := now[..cb] + now[cb + 1..];
    assert now[cb..][1..] == now[cb + 1..] == next[cb..] && next[..cb] == now[..cb];
  }

  lemma ScanEnds<H>(es: seq<Remote<H>>, r: Remote<H>, now: seq<Remote<H>>, cb: nat)
    requires Scanning(es, r, now, cb) && (cb < |now| ==> now[cb].handle == r.handle)
    ensures Scanned(es, r) == now && (Has(now, r.handle) <==> cb < |now|)
  {
    assert now[..cb] + now[cb..] == now;
    if cb == |now| {
      assert now[..cb] == now;
    }
  }

  class Cache<H(==)> {
    var entries: seq<Remote<H>>
    var max: nat
    ghost var open: set<H> // the handles that are mapped

    ghost predicate Valid()
      reads this
    {
      |entries| <= max && Distinct(entries) && open == Handles(entries)
    }

    constructor ()
      ensures Valid() && entries == []
    {
      entries, max, open := [], CUDA_REMOTE_PTRS, {};
    }

    /** cudaIpcOpenMemHandle, which refuses a handle that is open already. */
    method Open(h: H)
      requires h !in open
      modifies this`open
      ensures open == old(open) + {h}
    {
      open := open + {h};
    }

    method CloseHandle(h: H)
      requires h in open
      modifies this`open
      ensures open == old(open) - {h}
    {
      open := open - {h};
    }

    /** The loop of read_contiguous's fast path. */
    method Scan(r: Remote<H>) returns (cb: nat)
      requires Valid()
      modifies this`entries, this`open
      ensures Valid() && entries == Scanned(old(entries), r)
      ensures cb <= |entries| && (cb < |entries| ==> entries[cb].handle == r.handle)
      ensures Has(entries, r.handle) <==> cb < |entries|
    {
      cb := 0;
      assert entries[0..] == entries && [] + Scanned(entries, r) == Scanned(entries, r);
      while cb < |entries|
        invariant Valid() && Scanning(old(entries), r, entries, cb)
        decreases |entries| - cb
      {
        if entries[cb].handle == r.handle {
          break;
        }
        if entries[cb].sock == r.sock && HasOverlap(r.ptr, r.count, entries[cb].ptr, entries[cb].count) {
          ScanEvicts(old(entries), r, entries, cb);
          HandlesWithout(entries, cb);
          CloseHandle(entries[cb].handle);
          entries := entries[..cb] + entries[cb + 1..];
        } else {
          ScanStays(old(entries), r, entries, cb);
          cb := cb + 1;
        }
      }
      ScanEnds(old(entries), r, entries, cb);
    }

    /** One receive on the fast path; the elements are copied from the mapping of entry cb. */
    method Receive(r: Remote<H>) returns (cb: nat)
      requires Valid()
      modifies this
      ensures Valid() && entries == Received(old(entries), r)
      ensures cb < |entries| && entries[cb].handle == r.handle && entries[cb].handle in open
      ensures old(Inv(entries)) ==> Inv(entries)
    {
      if Inv(entries) {
        ReceiveKeepsInv(entries, r);
      }
      cb := Scan(r);
      if cb == |entries| {
        if |entries| == max {
          max := max + CUDA_REMOTE_PTRS;
        }
        HandlesWith(entries, r);
        assert r.handle !in open;
        Open(r.handle);
        entries := entries + [r];
      }
    }
  }
}
