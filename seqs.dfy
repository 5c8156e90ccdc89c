/** Generic sequence vocabulary used across the model. */
module Seqs {

  /** `a` is obtained from `b` by deleting elements, keeping the rest in order. */
  ghost predicate Subsequence<T>(a: seq<T>, b: seq<T>)
    decreases |b|
  {
    if b == [] then a == []
    else (a != [] && a[0] == b[0] && Subsequence(a[1..], b[1..])) || Subsequence(a, b[1..])
  }

  /** No element occurs twice. */
  predicate Distinct<T(==)>(s: seq<T>)
  {
    forall i, j :: 0 <= i < j < |s| ==> s[i] != s[j]
  }

  /** Concatenation of a sequence of sequences. */
  function Flatten<T>(ss: seq<seq<T>>): seq<T>
    decreases |ss|
  {
    if ss == [] then [] else ss[0] + Flatten(ss[1..])
  }

  lemma {:induction false} FlattenAppend<T>(ss: seq<seq<T>>, last: seq<T>)
    ensures Flatten(ss + [last]) == Flatten(ss) + last
    decreases |ss|
  {
    if ss != [] {
      assert (ss + [last])[1..] == ss[1..] + [last];
      FlattenAppend(ss[1..], last);
    }
  }

  /** An element of the concatenation comes from one of the parts, and back. */
  lemma {:induction false} FlattenMember<T>(ss: seq<seq<T>>, x: T)
    ensures x in Flatten(ss) <==> exists i :: 0 <= i < |ss| && x in ss[i]
    decreases |ss|
  {
    if ss != [] {
      FlattenMember(ss[1..], x);
      if exists i :: 0 <= i < |ss| && x in ss[i] {
        var i :| 0 <= i < |ss| && x in ss[i];
        if i > 0 {
          assert x in ss[1..][i - 1];
        }
      }
      if x in Flatten(ss[1..]) {
        var i :| 0 <= i < |ss[1..]| && x in ss[1..][i];
        assert x in ss[i + 1];
      }
    }
  }

  /** Python's `s[:n]` for `n >= 0`. */
  function Take<T>(s: seq<T>, n: nat): (r: seq<T>)
    ensures |r| == (if |s| <= n then |s| else n) && r == s[..|r|]
  {
    if |s| <= n then s else s[..n]
  }

  lemma TakeMember<T>(s: seq<T>, n: nat, x: T)
    requires x in Take(s, n)
    ensures x in s
  {
    var k :| 0 <= k < |Take(s, n)| && Take(s, n)[k] == x;
    assert s[k] == x;
  }

  function Min(a: int, b: int): int
  {
    if a < b then a else b
  }

  lemma ConcatAssoc<T>(x: seq<T>, y: seq<T>, z: seq<T>)
    ensures (x + y) + z == x + (y + z)
  {
  }

  /** Taking at least as many as there are takes everything. */
  lemma TakeAll<T>(s: seq<T>, n: nat)
    requires |s| <= n
    ensures Take(s, n) == s
  {
    assert s[..|s|] == s;
  }

  /** A non-empty sequence is its front followed by its last element. */
  lemma SplitLast<T>(s: seq<T>)
    requires s != []
    ensures s[..|s| - 1] + [s[|s| - 1]] == s
  {
  }

  /** Taking `n >= 1` from a sequence with a head keeps the head. */
  lemma TakeCons<T>(x: T, s: seq<T>, n: nat)
    requires n >= 1
    ensures Take([x] + s, n) == [x] + Take(s, n - 1)
  {
    if |s| + 1 > n {
      assert ([x] + s)[..n] == [x] + s[..n - 1];
    }
  }
}
