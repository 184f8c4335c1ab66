/** Searching a text, as the two SQL scanners do it. */
module TextSearch {
  import opened Wrappers

  function Plus(k: nat, n: Option<nat>): Option<nat> {
    if n.Some? then Some(k + n.value) else None
  }

  /** Offset of the first occurrence. */
  function Find(u: string, d: string): (n: Option<nat>)
    ensures n.Some? ==> n.value + |d| <= |u| && u[n.value..n.value + |d|] == d
  {
    if d <= u then Some(0) else if u == [] then None else Plus(1, Find(u[1..], d))
  }

  /** What a successful search found does not depend on what comes after it. */
  lemma {:induction false} FindStable(u: string, d: string, x: string)
    requires Find(u, d).Some?
    ensures Find(u[..Find(u, d).value + |d|] + x, d) == Find(u, d)
  {
    var n := Find(u, d).value;
    CutAt(u, n + |d|, d, x);
    if !(d <= u) {
      FindStable(u[1..], d, x);
    }
  }

  /** Cutting a text behind a place for the pattern leaves what its start is decided by. */
  lemma CutAt(u: string, k: nat, d: string, x: string)
    requires |d| <= k <= |u|
    ensures d <= u <==> d <= u[..k] + x
    ensures k > 0 ==> (u[..k] + x)[1..] == u[1..][..k - 1] + x
  {
    assert (u[..k] + x)[..|d|] == u[..|d|];
    assert d <= u <==> d == u[..|d|];
  }
}
