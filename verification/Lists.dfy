/** Chains of nodes linked through a map from addresses to addresses; 0 is null. */
module Lists {

  predicate Distinct(xs: seq<nat>) {
    forall i, j :: 0 <= i < j < |xs| ==> xs[i] != xs[j]
  }

  function IndexOf(xs: seq<nat>, x: nat): nat
    requires x in xs
    ensures IndexOf(xs, x) < |xs| && xs[IndexOf(xs, x)] == x
  {
    if xs[0] == x then 0 else 1 + IndexOf(xs[1..], x)
  }

  /** A caller's chain: each node points to the next one; the last word is stale. */
  function Chain(next: map<nat, nat>, xs: seq<nat>, stale: nat): map<nat, nat> {
    map x | x in next ::
      if x in xs then
        var j := IndexOf(xs, x);
        if j + 1 < |xs| then xs[j + 1] else stale
      else next[x]
  }

  /** A null-terminated list in memory. */
  ghost predicate IsList(next: map<nat, nat>, x: nat, xs: seq<nat>)
    decreases |xs|
  {
    if xs == [] then x == 0
    else x != 0 && x == xs[0] && x in next && IsList(next, next[x], xs[1..])
  }
}
