/** Block paths: index paths into the AST, and the document order they induce. */
module Paths {
  type BlockPath = seq<nat>

  /** Length of the longest common prefix. */
  function Common(p: BlockPath, q: BlockPath): (k: nat)
    ensures k <= |p| && k <= |q| && p[..k] == q[..k]
    ensures k < |p| && k < |q| ==> p[k] != q[k]
  {
    if p == [] || q == [] || p[0] != q[0] then 0
    else
      var k := Common(p[1..], q[1..]);
      assert p[..k + 1] == [p[0]] + p[1..][..k] && q[..k + 1] == [q[0]] + q[1..][..k];
      k + 1
  }

  /** `p` comes wholly before `q` in document order: they part at some component, where `p`
      is smaller. */
  predicate Before(p: BlockPath, q: BlockPath) {
    var k := Common(p, q);
    k < |p| && k < |q| && p[k] < q[k]
  }

  predicate ProperPrefix(p: BlockPath, q: BlockPath) {
    p <= q && p != q
  }

  function Parent(p: BlockPath): BlockPath
    requires p != []
  {
    p[..|p| - 1]
  }

  function Last(p: BlockPath): nat
    requires p != []
  {
    p[|p| - 1]
  }

  /** The place where two paths part determines their common prefix. */
  lemma CommonAt(p: BlockPath, q: BlockPath, k: nat)
    requires k <= |p| && k <= |q| && p[..k] == q[..k]
    requires k == |p| || k == |q| || p[k] != q[k]
    ensures Common(p, q) == k
  {
    var c := Common(p, q);
    assert forall x :: 0 <= x < k ==> p[x] == p[..k][x] == q[..k][x] == q[x];
    assert forall x :: 0 <= x < c ==> p[x] == p[..c][x] == q[..c][x] == q[x];
  }

  /** Any two paths are equal, nested, or one before the other, and exactly one of these. */
  lemma Trichotomy(p: BlockPath, q: BlockPath)
    ensures p == q || ProperPrefix(p, q) || ProperPrefix(q, p) || Before(p, q) || Before(q, p)
    ensures Before(p, q) ==> !(p <= q) && !(q <= p) && !Before(q, p)
  {
    var k := Common(p, q);
    CommonAt(q, p, k);
    if k == |p| { assert p == p[..k]; }
    if k == |q| { assert q == q[..k]; }
    if p <= q { assert q[..|p|] == p; CommonAt(p, q, |p|); }
    if q <= p { assert p[..|q|] == q; CommonAt(p, q, |q|); }
  }

  /** Extending the later path, or the earlier one, keeps the order. */
  lemma BeforeExtends(p: BlockPath, q: BlockPath, p': BlockPath, q': BlockPath)
    requires Before(p, q) && p <= p' && q <= q'
    ensures Before(p', q')
  {
    var k := Common(p, q);
    assert p'[..k] == p[..k] == q[..k] == q'[..k];
    CommonAt(p', q', k);
  }

  lemma BeforeTransitive(p: BlockPath, q: BlockPath, r: BlockPath)
    requires Before(p, q) && Before(q, r)
    ensures Before(p, r)
  {
    var j, k := Common(p, q), Common(q, r);
    var m := if j < k then j else k;
    assert p[..m] == p[..j][..m] == q[..j][..m] == q[..m] == q[..k][..m] == r[..k][..m] == r[..m];
    if j < k { assert q[j] == q[..k][j] == r[..k][j] == r[j]; }
    if k < j { assert p[k] == p[..j][k] == q[..j][k] == q[k]; }
    CommonAt(p, r, m);
  }

  /** Two children of one block are ordered by their last component. */
  lemma SiblingsBefore(p: BlockPath, m: nat, rest: BlockPath, n: nat)
    requires m < n
    ensures Before(p + [m] + rest, p + [n])
  {
    var a, b := p + [m] + rest, p + [n];
    assert a[..|p|] == p == b[..|p|];
    CommonAt(a, b, |p|);
  }

  /** The ancestor of `q` that is a sibling-or-self of where `p` and `q` part. */
  lemma PartingAncestors(p: BlockPath, q: BlockPath) returns (k: nat)
    requires Before(p, q)
    ensures k < |p| && k < |q| && p[..k] == q[..k] && p[k] < q[k]
    ensures Parent(p[..k + 1]) == Parent(q[..k + 1])
    ensures Last(p[..k + 1]) < Last(q[..k + 1])
  {
    k := Common(p, q);
    assert p[..k + 1][..k] == p[..k] && q[..k + 1][..k] == q[..k];
  }
}
