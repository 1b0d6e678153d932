/** Prefixes of strings: the vocabulary in which the tree's meaning is stated.

  A prefix-closed set of strings is what one tenant holds in the tree, and its
  size, not counting the empty string, is what the tree charges that tenant for.
 */
module Prefixes {

  /** How far `a` and `b` agree, given that they agree before `k`. */
  function AgreeFrom(a: string, b: string, k: nat): (r: nat)
    requires k <= |a| && k <= |b|
    ensures k <= r && r <= |a| && r <= |b|
    ensures forall i :: k <= i < r ==> a[i] == b[i]
    ensures r < |a| && r < |b| ==> a[r] != b[r]
    decreases |a| - k
  {
    if k < |a| && k < |b| && a[k] == b[k] then AgreeFrom(a, b, k + 1) else k
  }

  /** The length of the longest common prefix, character by character. */
  function Lcp(a: string, b: string): (r: nat)
    ensures r <= |a| && r <= |b|
    ensures a[..r] == b[..r]
    ensures r < |a| && r < |b| ==> a[r] != b[r]
  {
    AgreeFrom(a, b, 0)
  }

  /** Any common prefix fits inside the longest one. */
  lemma CommonPrefixFits(c: string, a: string, b: string)
    requires c <= a && c <= b
    ensures |c| <= Lcp(a, b) && c <= a[..Lcp(a, b)]
  {
  }

  lemma LcpIsThePrefix(a: string, b: string)
    ensures Lcp(a, b) == |a| <==> a <= b
  {
  }

  /** Stripping a shared prefix from both sides shortens the common prefix by its length. */
  lemma LcpDropShared(c: string, a: string, b: string)
    requires c <= a && c <= b
    ensures Lcp(a, b) == |c| + Lcp(a[|c|..], b[|c|..])
  {
  }

  /** Two prefixes of one string are comparable. */
  lemma Comparable(a: string, b: string, x: string)
    requires a <= x && b <= x
    ensures |a| <= |b| ==> a <= b
    ensures |b| <= |a| ==> b <= a
  {
  }

  lemma RestAfter(a: string, rest: string, x: string, b: string, n: nat)
    requires a + rest == x && b <= x && |b| == |a| + n
    ensures n <= |rest| && b + rest[n..] == x
  {
  }

  lemma NothingBefore(a: string, x: string)
    requires a == ""
    ensures a + x == x
  {
  }

  lemma NothingAfter(a: string, rest: string, x: string)
    requires a + rest == x && rest == ""
    ensures a == x
  {
  }

  ghost predicate PrefixClosed(l: set<string>) {
    forall x, y :: y in l && x <= y ==> x in l
  }

  ghost function PrefixesOf(x: string): (s: set<string>)
    ensures forall y :: y in s <==> y <= x
  {
    var s := set k | 0 <= k <= |x| :: x[..k];
    assert forall y :: y <= x ==> y == x[..|y|];
    s
  }

  lemma LastPrefix(x: string)
    requires x != ""
    ensures PrefixesOf(x) == PrefixesOf(x[..|x| - 1]) + {x}
  {
    var y := x[..|x| - 1];
    forall z ensures z in PrefixesOf(x) <==> z in PrefixesOf(y) + {x} {
      assert z <= x && |z| == |x| ==> z == x;
    }
  }

  /** Growing a prefix-closed set by a string that leaves it right after `a`
    adds one string for each character of `x` beyond `a`. */
  lemma {:induction false} GrowByPath(l: set<string>, a: string, x: string)
    requires PrefixClosed(l) && a in l && a < x
    requires x[..|a| + 1] !in l
    ensures PrefixClosed(l + PrefixesOf(x))
    ensures |l + PrefixesOf(x)| == |l| + |x| - |a|
    decreases |x|
  {
    var y := x[..|x| - 1];
    assert PrefixesOf(x) == PrefixesOf(y) + {x} by {
      LastPrefix(x);
    }
    if y == a {
      assert x[..|a| + 1] == x;
      assert l + PrefixesOf(x) == l + {x};
    } else {
      assert a <= y;
      assert y[..|a| + 1] == x[..|a| + 1];
      GrowByPath(l, a, y);
      assert l + PrefixesOf(x) == (l + PrefixesOf(y)) + {x};
      assert x !in l by {
        assert x[..|a| + 1] <= x;
      }
      assert x !in PrefixesOf(y);
    }
  }
}
