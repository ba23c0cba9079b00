/** Facts about sequences that several modules share. */
module Sequences {
  /** memcpy: s with data copied over it from position `at` on. */
  function Splice<T>(s: seq<T>, at: nat, data: seq<T>): (r: seq<T>)
    requires at + |data| <= |s|
    ensures |r| == |s|
  {
    seq(|s|, k requires 0 <= k < |s| => if at <= k < at + |data| then data[k - at] else s[k])
  }

  lemma SpliceParts<T>(s: seq<T>, at: nat, data: seq<T>)
    requires at + |data| <= |s|
    ensures Splice(s, at, data) == s[..at] + data + s[at + |data|..]
  {
  }

  lemma Regroup<T>(a: seq<T>, b: seq<T>, c: seq<T>)
    ensures a + b + c == a + (b + c)
  {
  }

  /** The k + 1 last elements are the k last ones and one more. */
  lemma SuffixMore<T>(s: seq<T>, k: nat, x: T)
    requires k < |s|
    ensures x in s[|s| - (k + 1)..] <==> x == s[|s| - 1 - k] || x in s[|s| - k..]
  {
    assert s[|s| - (k + 1)..] == [s[|s| - 1 - k]] + s[|s| - k..];
  }

  lemma PrefixMore<T>(s: seq<T>, k: nat, x: T)
    requires k < |s|
    ensures x in s[..k + 1] <==> x == s[k] || x in s[..k]
  {
    assert s[..k + 1] == s[..k] + [s[k]];
  }
}
