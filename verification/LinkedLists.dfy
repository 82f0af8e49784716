/** Chains of slots linked through a table of next pointers, as the kernel keeps its free page
    frames and its free task slots. */
module LinkedLists {
  /** The null pointer; other pointers are slot numbers. */
  const NULL: int := -1

  /** Following `next` from `head` visits exactly xs and then ends. */
  predicate IsList(next: seq<int>, head: int, xs: seq<nat>)
    decreases |xs|
  {
    if xs == [] then head == NULL
    else head == xs[0] && xs[0] < |next| && IsList(next, next[xs[0]], xs[1..])
  }

  ghost predicate Distinct(xs: seq<nat>) {
    forall i, j :: 0 <= i < j < |xs| ==> xs[i] != xs[j]
  }

  lemma {:induction false} ListUnique(next: seq<int>, head: int, xs: seq<nat>, ys: seq<nat>)
    requires IsList(next, head, xs) && IsList(next, head, ys)
    ensures xs == ys
    decreases |xs|
  {
    if xs != [] && ys != [] {
      ListUnique(next, next[xs[0]], xs[1..], ys[1..]);
      assert xs == [xs[0]] + xs[1..] && ys == [ys[0]] + ys[1..];
    }
  }

  lemma {:induction false} ListSuffix(next: seq<int>, head: int, xs: seq<nat>, i: nat)
    requires IsList(next, head, xs) && i < |xs|
    ensures IsList(next, xs[i], xs[i..]) && xs[i] < |next|
    ensures next[xs[i]] == if i + 1 < |xs| then xs[i + 1] else NULL
    decreases i
  {
    if i == 0 {
      assert xs[0..] == xs;
    } else {
      ListSuffix(next, next[xs[0]], xs[1..], i - 1);
      assert xs[1..][i - 1..] == xs[i..];
    }
  }

  /** A chain that ends never visits a slot twice. */
  lemma ListDistinct(next: seq<int>, head: int, xs: seq<nat>)
    requires IsList(next, head, xs)
    ensures Distinct(xs)
    ensures forall i :: 0 <= i < |xs| ==> xs[i] < |next|
  {
    forall i | 0 <= i < |xs| ensures xs[i] < |next| { ListSuffix(next, head, xs, i); }
    forall i, j | 0 <= i < j < |xs| ensures xs[i] != xs[j] {
      ListSuffix(next, head, xs, i);
      ListSuffix(next, head, xs, j);
      if xs[i] == xs[j] { ListUnique(next, xs[i], xs[i..], xs[j..]); }
    }
  }

  /** Writing the link of a slot outside the chain. */
  lemma {:induction false} ListFrame(next: seq<int>, head: int, xs: seq<nat>, i: nat, v: int)
    requires IsList(next, head, xs) && i < |next| && i !in xs
    ensures IsList(next[i := v], head, xs)
    decreases |xs|
  {
    if xs != [] {
      assert xs[0] in xs && forall x :: x in xs[1..] ==> x in xs;
      ListFrame(next, next[xs[0]], xs[1..], i, v);
    }
  }

  lemma ListPush(next: seq<int>, head: int, xs: seq<nat>, i: nat)
    requires IsList(next, head, xs) && i < |next| && i !in xs
    ensures IsList(next[i := head], i, [i] + xs)
  {
    ListFrame(next, head, xs, i, head);
    assert ([i] + xs)[1..] == xs;
  }

  lemma ListPop(next: seq<int>, head: int, xs: seq<nat>)
    requires IsList(next, head, xs) && head != NULL
    ensures xs != [] && head == xs[0] && xs[0] < |next| && xs[0] !in xs[1..]
    ensures IsList(next[xs[0] := NULL], next[xs[0]], xs[1..])
  {
    ListDistinct(next, head, xs);
    assert xs[0] !in xs[1..];
    ListFrame(next, next[xs[0]], xs[1..], xs[0], NULL);
  }

  /** A slot of the chain has a null link exactly when it is the last one. */
  lemma NullLinkIsLast(next: seq<int>, head: int, xs: seq<nat>, f: nat)
    requires IsList(next, head, xs) && f in xs
    ensures f < |next| && (next[f] == NULL <==> f == xs[|xs| - 1])
  {
    ListDistinct(next, head, xs);
    var i :| 0 <= i < |xs| && xs[i] == f;
    ListSuffix(next, head, xs, i);
  }

  /** Linking the last slot back to the head leaves no chain that ends. */
  lemma LastToHeadIsCyclic(next: seq<int>, head: int, xs: seq<nat>, ys: seq<nat>)
    requires IsList(next, head, xs) && xs != [] && xs[|xs| - 1] < |next|
    ensures var f := xs[|xs| - 1]; !IsList(next[f := head], f, ys)
  {
    var n := |xs| - 1;
    var f := xs[n];
    var next' := next[f := head];
    ListDistinct(next, head, xs);
    if IsList(next', f, ys) {
      ListDistinct(next', f, ys);
      FollowPrefix(next, next', head, xs, ys[1..], n);
    }
  }

  /** Two tables that agree on a chain up to slot n lead through the same slots. */
  lemma {:induction false} FollowPrefix(next: seq<int>, next': seq<int>, head: int, xs: seq<nat>, ys: seq<nat>, n: nat)
    requires IsList(next, head, xs) && n < |xs| && IsList(next', head, ys) && |next'| == |next|
    requires forall i :: 0 <= i < n ==> xs[i] < |next| && next'[xs[i]] == next[xs[i]]
    ensures n < |ys| && ys[n] == xs[n]
    decreases n
  {
    if n > 0 {
      forall i | 0 <= i < n - 1 ensures xs[1..][i] < |next| && next'[xs[1..][i]] == next[xs[1..][i]] {
        assert xs[1..][i] == xs[i + 1];
      }
      assert xs[0] < |next| && next'[xs[0]] == next[xs[0]];
      FollowPrefix(next, next', next[xs[0]], xs[1..], ys[1..], n - 1);
    }
  }
}
