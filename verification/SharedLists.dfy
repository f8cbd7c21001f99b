/**
 Singly linked lists threaded through one array of next-indices: free lists, hash chains, per-polygon link lists and
 span columns all have this form. Every cell is on at most one list, its owner.
 */
module SharedLists {
  import opened Basics

  const NULL := -1

  ghost function After(list: seq<nat>, k: int): int
    requires -1 <= k
  {
    if k + 1 < |list| then list[k + 1] else NULL
  }

  lemma AfterIs(list: seq<nat>, k: int)
    requires -1 <= k
    ensures After(list, k) == if k + 1 < |list| then list[k + 1] else NULL
  {
  }

  /** `list` is what following `next` from `head` yields. */
  ghost predicate Chain(next: seq<int>, head: int, list: seq<nat>) {
    && head == After(list, -1)
    && forall k :: 0 <= k < |list| ==> list[k] < |next| && next[list[k]] == After(list, k)
  }

  /** `list` starts at `head`, repeats nothing and holds exactly the cells that list number `l` owns. */
  ghost predicate ListOk(next: seq<int>, head: int, list: seq<nat>, owner: seq<nat>, l: nat) {
    && Chain(next, head, list) && Distinct(list)
    && forall i :: 0 <= i < |owner| ==> (i in list <==> owner[i] == l)
  }

  /** The lists that start at `heads` share the cells of `next`; cell `i` is on list `owner[i]` only, and on none if
      `owner[i]` is not the number of a list. */
  ghost predicate Shared(next: seq<int>, heads: seq<int>, lists: seq<seq<nat>>, owner: seq<nat>) {
    && |lists| == |heads| && |owner| == |next|
    && forall l :: 0 <= l < |lists| ==> ListOk(next, heads[l], lists[l], owner, l)
  }

  /** One step along a chain. */
  lemma ChainAt(next: seq<int>, head: int, list: seq<nat>, k: nat)
    requires Chain(next, head, list)
    ensures head == if list == [] then NULL else list[0]
    ensures k < |list| ==> list[k] < |next| && next[list[k]] == if k + 1 < |list| then list[k + 1] else NULL
  {
  }

  /** A list is determined by where it starts. */
  lemma {:induction false} ChainUnique(next: seq<int>, head: int, a: seq<nat>, b: seq<nat>)
    requires Chain(next, head, a) && Chain(next, head, b) && |a| <= |b|
    ensures a == b
    decreases |a|
  {
    if a != [] {
      ChainTail(next, head, a);
      ChainTail(next, head, b);
      ChainUnique(next, next[head], a[1..], b[1..]);
      assert a == [a[0]] + a[1..] && b == [b[0]] + b[1..];
    }
  }

  lemma ChainTail(next: seq<int>, head: int, list: seq<nat>)
    requires Chain(next, head, list) && list != []
    ensures Chain(next, next[list[0]], list[1..])
  {
    var t := list[1..];
    forall k | 0 <= k < |t|
      ensures t[k] < |next| && next[t[k]] == After(t, k)
    {
      assert t[k] == list[k + 1] && After(list, k + 1) == After(t, k);
    }
    assert next[list[0]] == After(list, 0);
  }

  lemma ChainFrame(next: seq<int>, next': seq<int>, head: int, list: seq<nat>)
    requires Chain(next, head, list) && |next'| >= |next|
    requires forall i :: 0 <= i < |next| && i in list ==> next'[i] == next[i]
    ensures Chain(next', head, list)
  {
  }

  /** Taking the cell at position `k` out of a chain. */
  lemma ChainRemove(next: seq<int>, head: int, list: seq<nat>, k: nat)
    requires Chain(next, head, list) && Distinct(list) && k < |list|
    ensures var i := list[k];
      if k == 0 then Chain(next, next[i], RemoveAt(list, k))
      else Chain(next[list[k - 1] := next[i]], head, RemoveAt(list, k))
  {
    var i, r := list[k], RemoveAt(list, k);
    var next' := if k == 0 then next else next[list[k - 1] := next[i]];
    hide After;
    AfterIs(list, k);
    AfterIs(r, -1);
    AfterIs(list, -1);
    forall m | 0 <= m < |r|
      ensures r[m] < |next'| && next'[r[m]] == After(r, m)
    {
      AfterIs(list, m);
      AfterIs(list, m + 1);
      AfterIs(r, m);
    }
  }

  lemma ChainPush(next: seq<int>, head: int, list: seq<nat>, i: nat)
    requires Chain(next, head, list) && i < |next| && i !in list
    ensures Chain(next[i := head], i, [i] + list)
  {
    hide After;
    var r := [i] + list;
    AfterIs(list, -1);
    AfterIs(r, -1);
    forall m | 0 <= m < |r|
      ensures r[m] < |next| && next[i := head][r[m]] == After(r, m)
    {
      AfterIs(r, m);
      AfterIs(list, if m > 0 then m - 1 else 0);
    }
  }

  /** Putting cell `i` at position `k` of a chain it is not on. */
  lemma ChainInsert(next: seq<int>, head: int, list: seq<nat>, k: nat, i: nat)
    requires Chain(next, head, list) && Distinct(list) && k <= |list| && i < |next| && i !in list
    ensures if k == 0 then Chain(next[i := head], i, InsertAt(list, k, i))
      else Chain(next[i := next[list[k - 1]]][list[k - 1] := i], head, InsertAt(list, k, i))
  {
    var r := InsertAt(list, k, i);
    if k == 0 {
      assert r == [i] + list;
      ChainPush(next, head, list, i);
    } else {
      hide After, InsertAt;
      AfterIs(list, -1);
      AfterIs(r, -1);
      var next' := next[i := next[list[k - 1]]][list[k - 1] := i];
      forall m | 0 <= m < |r|
        ensures r[m] < |next'| && next'[r[m]] == After(r, m)
      {
        ChainInsertAt(next, head, list, k, i, m);
      }
    }
  }

  lemma ChainInsertAt(next: seq<int>, head: int, list: seq<nat>, k: nat, i: nat, m: nat)
    requires Chain(next, head, list) && Distinct(list) && 0 < k <= |list| && i < |next| && i !in list && m <= |list|
    ensures list[k - 1] < |next|
    ensures var r, next' := InsertAt(list, k, i), next[i := next[list[k - 1]]][list[k - 1] := i];
      r[m] < |next'| && next'[r[m]] == After(r, m)
  {
    hide After;
    var r := InsertAt(list, k, i);
    AfterIs(r, m);
    AfterIs(list, k - 1);
    if m < k {
      AfterIs(list, m);
      assert r[m] == list[m] && (m < k - 1 ==> list[m] != list[k - 1]);
    } else if m > k {
      AfterIs(list, m - 1);
      assert r[m] == list[m - 1] && list[m - 1] != list[k - 1];
    }
  }

  lemma RemoveElements(list: seq<nat>, k: nat)
    requires Distinct(list) && k < |list|
    ensures Distinct(RemoveAt(list, k)) && forall x :: x in RemoveAt(list, k) <==> x in list && x != list[k]
  {
    var r := RemoveAt(list, k);
    forall x | x in list && x != list[k]
      ensures x in r
    {
      var m :| 0 <= m < |list| && list[m] == x;
      assert m < k ==> r[m] == x;
      assert m > k ==> r[m - 1] == x;
    }
  }

  lemma InsertElements(list: seq<nat>, k: nat, i: nat)
    requires Distinct(list) && k <= |list| && i !in list
    ensures Distinct(InsertAt(list, k, i)) && forall x :: x in InsertAt(list, k, i) <==> x in list || x == i
  {
    var r := InsertAt(list, k, i);
    assert r[k] == i;
    forall x | x in list
      ensures x in r
    {
      var m :| 0 <= m < |list| && list[m] == x;
      assert m < k ==> r[m] == x;
      assert m >= k ==> r[m + 1] == x;
    }
  }

  /** A list whose cells keep their links and owners stays as it is. */
  lemma ListFrame(next: seq<int>, next': seq<int>, head: int, list: seq<nat>, owner: seq<nat>, owner': seq<nat>, m: nat)
    requires ListOk(next, head, list, owner, m) && |next'| == |next| == |owner| == |owner'|
    requires forall i :: 0 <= i < |owner| && owner[i] == m ==> next'[i] == next[i]
    requires forall i :: 0 <= i < |owner| ==> (owner'[i] == m <==> owner[i] == m)
    ensures ListOk(next', head, list, owner', m)
  {
    ChainFrame(next, next', head, list);
  }

  lemma ListRemove(next: seq<int>, head: int, list: seq<nat>, owner: seq<nat>, l: nat, k: nat, none: nat)
    requires ListOk(next, head, list, owner, l) && |next| == |owner| && k < |list| && none != l
    ensures var i := list[k];
      if k == 0 then ListOk(next, next[i], RemoveAt(list, k), owner[i := none], l)
      else ListOk(next[list[k - 1] := next[i]], head, RemoveAt(list, k), owner[i := none], l)
  {
    assert list[k] < |next| && (k > 0 ==> list[k - 1] < |next|);
    hide Chain, RemoveAt;
    ChainRemove(next, head, list, k);
    RemoveElements(list, k);
    assert list[k] in list;
  }

  lemma ListInsert(next: seq<int>, head: int, list: seq<nat>, owner: seq<nat>, l: nat, k: nat, i: nat)
    requires ListOk(next, head, list, owner, l) && |next| == |owner| && k <= |list| && i < |next| && owner[i] != l
    ensures if k == 0 then ListOk(next[i := head], i, InsertAt(list, k, i), owner[i := l], l)
      else ListOk(next[i := next[list[k - 1]]][list[k - 1] := i], head, InsertAt(list, k, i), owner[i := l], l)
  {
    hide Chain;
    ChainInsert(next, head, list, k, i);
    InsertElements(list, k, i);
  }

  lemma InBounds(next: seq<int>, heads: seq<int>, lists: seq<seq<nat>>, owner: seq<nat>, l: nat)
    requires Shared(next, heads, lists, owner) && l < |lists|
    ensures |lists| == |heads| && |owner| == |next|
    ensures forall k :: 0 <= k < |lists[l]| ==> lists[l][k] < |owner| && owner[lists[l][k]] == l
    ensures Distinct(lists[l])
  {
    assert ListOk(next, heads[l], lists[l], owner, l);
    assert forall k :: 0 <= k < |lists[l]| ==> lists[l][k] in lists[l];
  }

  /** Unlinking the cell at position `k` of list `l` leaves it on no list. */
  lemma Detach(next: seq<int>, heads: seq<int>, lists: seq<seq<nat>>, owner: seq<nat>, l: nat, k: nat)
    requires Shared(next, heads, lists, owner) && l < |lists| && k < |lists[l]|
    ensures forall j :: 0 <= j < |lists[l]| ==> lists[l][j] < |next|
    ensures var i := lists[l][k];
      var lists', owner' := lists[l := RemoveAt(lists[l], k)], owner[i := |lists|];
      if k == 0 then Shared(next, heads[l := next[i]], lists', owner')
      else Shared(next[lists[l][k - 1] := next[i]], heads, lists', owner')
  {
    hide ListOk;
    InBounds(next, heads, lists, owner, l);
    var i := lists[l][k];
    var next' := if k == 0 then next else next[lists[l][k - 1] := next[i]];
    ListRemove(next, heads[l], lists[l], owner, l, k, |lists|);
    forall m | 0 <= m < |lists| && m != l
      ensures ListOk(next', heads[m], lists[m], owner[i := |lists|], m)
    {
      ListFrame(next, next', heads[m], lists[m], owner, owner[i := |lists|], m);
    }
  }

  /** Linking a cell that is on no list into list `l` at position `k`. */
  lemma Attach(next: seq<int>, heads: seq<int>, lists: seq<seq<nat>>, owner: seq<nat>, l: nat, k: nat, i: nat)
    requires Shared(next, heads, lists, owner) && l < |lists| && k <= |lists[l]|
    requires i < |next| && owner[i] >= |lists|
    ensures forall j :: 0 <= j < |lists[l]| ==> lists[l][j] < |next|
    ensures var lists', owner' := lists[l := InsertAt(lists[l], k, i)], owner[i := l];
      if k == 0 then Shared(next[i := heads[l]], heads[l := i], lists', owner')
      else Shared(next[i := next[lists[l][k - 1]]][lists[l][k - 1] := i], heads, lists', owner')
  {
    hide ListOk;
    InBounds(next, heads, lists, owner, l);
    var next' := if k == 0 then next[i := heads[l]]
      else next[i := next[lists[l][k - 1]]][lists[l][k - 1] := i];
    ListInsert(next, heads[l], lists[l], owner, l, k, i);
    forall m | 0 <= m < |lists| && m != l
      ensures ListOk(next', heads[m], lists[m], owner[i := l], m)
    {
      ListFrame(next, next', heads[m], lists[m], owner, owner[i := l], m);
    }
  }

  /** The link of a cell that is on no list does not matter. */
  lemma FreeWrite(next: seq<int>, heads: seq<int>, lists: seq<seq<nat>>, owner: seq<nat>, i: nat, x: int)
    requires Shared(next, heads, lists, owner) && i < |next| && owner[i] >= |lists|
    ensures Shared(next[i := x], heads, lists, owner)
  {
    forall m | 0 <= m < |lists|
      ensures ListOk(next[i := x], heads[m], lists[m], owner, m)
    {
      ListFrame(next, next[i := x], heads[m], lists[m], owner, owner, m);
    }
  }

  /** Moving the cell at position `k` of list `l` to the front of another list. */
  lemma MoveToFront(next: seq<int>, heads: seq<int>, lists: seq<seq<nat>>, owner: seq<nat>, l: nat, k: nat, d: nat)
    requires Shared(next, heads, lists, owner) && l < |lists| && d < |lists| && l != d && k < |lists[l]|
    ensures forall j :: 0 <= j < |lists[l]| ==> lists[l][j] < |next|
    ensures var i := lists[l][k];
      var lists' := lists[l := RemoveAt(lists[l], k)][d := [i] + lists[d]];
      if k == 0 then Shared(next[i := heads[d]], heads[l := next[i]][d := i], lists', owner[i := d])
      else Shared(next[lists[l][k - 1] := next[i]][i := heads[d]], heads[d := i], lists', owner[i := d])
  {
    hide Shared, ListOk;
    InBounds(next, heads, lists, owner, l);
    var i := lists[l][k];
    var next1 := if k == 0 then next else next[lists[l][k - 1] := next[i]];
    var heads1 := if k == 0 then heads[l := next[i]] else heads;
    var lists1, owner1 := lists[l := RemoveAt(lists[l], k)], owner[i := |lists|];
    Detach(next, heads, lists, owner, l, k);
    Attach(next1, heads1, lists1, owner1, d, 0, i);
    assert InsertAt(lists1[d], 0, i) == [i] + lists[d];
    assert owner1[i := d] == owner[i := d];
  }

  /** Cells added at the end start on no list. */
  lemma Extend(next: seq<int>, heads: seq<int>, lists: seq<seq<nat>>, owner: seq<nat>, x: seq<int>)
    requires Shared(next, heads, lists, owner)
    ensures Shared(next + x, heads, lists, owner + seq(|x|, _ => |lists|))
  {
    var owner' := owner + seq(|x|, _ => |lists|);
    forall l | 0 <= l < |lists|
      ensures ListOk(next + x, heads[l], lists[l], owner', l)
    {
      ChainFrame(next, next + x, heads[l], lists[l]);
    }
  }

  /** A new cell at the end, linked in front of list `l`. */
  lemma PushNew(next: seq<int>, heads: seq<int>, lists: seq<seq<nat>>, owner: seq<nat>, l: nat)
    requires Shared(next, heads, lists, owner) && l < |lists| == |heads|
    ensures Shared(next + [heads[l]], heads[l := |next|], lists[l := [|next|] + lists[l]], owner + [l])
  {
    var i, x := |next|, [NULL];
    InBounds(next, heads, lists, owner, l);
    Extend(next, heads, lists, owner, x);
    var owner' := owner + seq(|x|, _ => |lists|);
    assert owner'[i] == |lists|;
    hide Shared;
    Attach(next + x, heads, lists, owner', l, 0, i);
    assert (next + x)[i := heads[l]] == next + [heads[l]];
    assert owner'[i := l] == owner + [l];
    assert InsertAt(lists[l], 0, i) == [i] + lists[l];
  }
}
