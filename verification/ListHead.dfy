/** The intrusive circular doubly linked list.

    A ring is a sequence of distinct nodes linked both ways, last to first. A list
    with head `h` and entries `a` is the ring `[h] + a`. Every operation is proved
    to turn the rings it is given into exactly the rings its documentation names,
    and to touch only the nodes in its `modifies` clause. */
module ListHead {

  class Node {
    var next: Node?
    var prev: Node?

    constructor ()
      ensures next == null && prev == null
    {
      next, prev := null, null;
    }
  }

  ghost predicate NoDup(r: seq<Node>) {
    forall i, j :: 0 <= i < j < |r| ==> r[i] != r[j]
  }

  ghost function After<T>(r: seq<T>, i: nat): T
    requires i < |r|
  {
    if i + 1 < |r| then r[i + 1] else r[0]
  }

  ghost function Before<T>(r: seq<T>, i: nat): T
    requires i < |r|
  {
    if i > 0 then r[i - 1] else r[|r| - 1]
  }

  /** The nodes of `r` form one closed ring, in this order. */
  ghost predicate Ring(r: seq<Node>)
    reads r
  {
    && |r| > 0 && NoDup(r)
    && (forall i {:trigger r[i].next} :: 0 <= i < |r| ==> r[i].next == After(r, i))
    && (forall i {:trigger r[i].prev} :: 0 <= i < |r| ==> r[i].prev == Before(r, i))
  }

  /** `INIT_LIST_HEAD`. */
  method InitListHead(list: Node)
    modifies list
    ensures Ring([list])
  {
    list.next := list;
    list.prev := list;
  }

  lemma RingAt(r: seq<Node>, i: nat)
    requires Ring(r) && i < |r|
    ensures r[i].next == After(r, i) && r[i].prev == Before(r, i)
  {
  }

  /** `__list_add`: between `r[i]` and its successor. */
  method InsertBetween(nw: Node, prev: Node, next: Node, ghost r: seq<Node>, ghost i: nat)
    requires Ring(r) && i < |r| && prev == r[i] && next == After(r, i) && nw !in r
    modifies nw, prev, next
    ensures Ring(r[..i + 1] + [nw] + r[i + 1..])
  {
    ghost var turned := r[i + 1..] + r[..i + 1];
    RingRotate(r, i + 1);
    next.prev := nw;
    nw.next := next;
    nw.prev := prev;
    prev.next := nw;
    assert Chain(turned);
    Inserted(r, i, nw);
  }

  /** A chain whose two ends are linked to `nw` makes a ring with it. */
  lemma Inserted(r: seq<Node>, i: nat, nw: Node)
    requires i < |r| && nw !in r && Chain(r[i + 1..] + r[..i + 1])
    requires r[i].next == nw && nw.next == After(r, i)
    requires After(r, i).prev == nw && nw.prev == r[i]
    ensures Ring(r[..i + 1] + [nw] + r[i + 1..])
  {
    var turned, n := r[i + 1..] + r[..i + 1], |r| - (i + 1);
    ClosedBy(turned, nw);
    RingRotate(turned + [nw], n);
    assert (turned + [nw])[n..] + (turned + [nw])[..n] == r[..i + 1] + [nw] + r[i + 1..];
  }

  lemma ClosedBy(c: seq<Node>, nw: Node)
    requires Chain(c) && nw !in c
    requires c[|c| - 1].next == nw && nw.next == c[0] && c[0].prev == nw && nw.prev == c[|c| - 1]
    ensures Ring(c + [nw])
  {
    assert forall i :: 0 <= i < |c| ==> (c + [nw])[i] == c[i];
  }

  /** `list_add`: right after `head`, which may be any node of the ring. */
  method ListAdd(nw: Node, head: Node, ghost r: seq<Node>, ghost k: nat)
    requires Ring(r) && k < |r| && r[k] == head && nw !in r
    modifies nw, head, head.next
    ensures Ring(r[..k + 1] + [nw] + r[k + 1..])
  {
    assert r[k].next == After(r, k);
    InsertBetween(nw, head, head.next, r, k);
  }

  /** `list_add_tail`: right before `head`, the first node of `r`. */
  method ListAddTail(nw: Node, head: Node, ghost r: seq<Node>)
    requires Ring(r) && r[0] == head && nw !in r
    modifies nw, head, head.prev
    ensures Ring(r + [nw])
  {
    assert r[0].prev == Before(r, 0);
    InsertBetween(nw, head.prev, head, r, |r| - 1);
    assert r[..|r|] + [nw] + r[|r|..] == r + [nw];
  }

  /** The ring `r` without its node `i`. */
  ghost function Without(r: seq<Node>, i: nat): (q: seq<Node>)
    requires i < |r|
    ensures |q| == |r| - 1
    ensures forall j :: 0 <= j < |q| ==> q[j] == r[if j < i then j else j + 1]
  {
    r[..i] + r[i + 1..]
  }

  /** `__list_del` on the neighbours of `r[i]`; on a ring of one it changes nothing. */
  method Unlink(prev: Node, next: Node, ghost r: seq<Node>, ghost i: nat)
    requires Ring(r) && i < |r| && prev == Before(r, i) && next == After(r, i)
    modifies prev, next
    ensures |r| > 1 ==> Ring(Without(r, i))
    ensures r[i].next == old(r[i].next) && r[i].prev == old(r[i].prev)
  {
    next.prev := prev;
    prev.next := next;
  }

  /** `list_del`: the entry leaves the ring with both pointers cleared. */
  method ListDel(entry: Node, ghost r: seq<Node>, ghost i: nat)
    requires Ring(r) && i < |r| && r[i] == entry
    modifies entry, entry.prev, entry.next
    ensures |r| > 1 ==> Ring(Without(r, i))
    ensures entry.next == null && entry.prev == null
  {
    assert r[i].next == After(r, i) && r[i].prev == Before(r, i);
    Unlink(entry.prev, entry.next, r, i);
    assert entry !in Without(r, i);
    entry.next := null;
    entry.prev := null;
  }

  /** `list_del_init`: the entry becomes a ring of its own. */
  method ListDelInit(entry: Node, ghost r: seq<Node>, ghost i: nat)
    requires Ring(r) && i < |r| && r[i] == entry
    modifies entry, entry.prev, entry.next
    ensures |r| > 1 ==> Ring(Without(r, i))
    ensures Ring([entry])
  {
    assert r[i].next == After(r, i) && r[i].prev == Before(r, i);
    Unlink(entry.prev, entry.next, r, i);
    assert entry !in Without(r, i);
    InitListHead(entry);
  }

  /** `list_replace`: `nw` takes the place of `r[i]`, even when `r[i]` is alone. */
  method ListReplace(was: Node, nw: Node, ghost r: seq<Node>, ghost i: nat)
    requires Ring(r) && i < |r| && r[i] == was && nw !in r
    modifies nw, was.next, was.prev
    ensures Ring(r[i := nw])
  {
    assert r[i].next == After(r, i) && r[i].prev == Before(r, i);
    nw.next := was.next;
    nw.next.prev := nw;
    nw.prev := was.prev;
    nw.prev.next := nw;
  }

  /** `list_replace_init`. */
  method ListReplaceInit(was: Node, nw: Node, ghost r: seq<Node>, ghost i: nat)
    requires Ring(r) && i < |r| && r[i] == was && nw !in r
    modifies nw, was, was.next, was.prev
    ensures Ring(r[i := nw]) && Ring([was])
  {
    ListReplace(was, nw, r, i);
    assert was !in r[i := nw];
    InitListHead(was);
  }

  /** A ring can be read from any of its nodes. */
  lemma RingRotate(r: seq<Node>, k: nat)
    requires Ring(r) && k <= |r|
    ensures Ring(r[k..] + r[..k])
  {
    var q := r[k..] + r[..k];
    assert forall j :: 0 <= j < |q| ==> q[j] == r[if j < |r| - k then k + j else j - (|r| - k)];
  }

  lemma WithoutIt(r: seq<Node>, i: nat)
    requires NoDup(r) && i < |r|
    ensures r[i] !in Without(r, i) && forall x :: x in Without(r, i) ==> x in r
  {
  }

  /** The ring in the middle of a swap: `r[j]` has left its place for that of `r[i]`. */
  ghost function Moved(r: seq<Node>, i: nat, j: nat): (q: seq<Node>)
    requires i < |r| && j < |r| && i != j
    ensures |q| == |r| - 1
  {
    Without(r, j)[(if i < j then i else i - 1) := r[j]]
  }

  lemma MovedAt(r: seq<Node>, i: nat, j: nat, k: nat)
    requires i < |r| && j < |r| && i != j && k < |r| - 1
    ensures var m := if k < j then k else k + 1;
            Moved(r, i, j)[k] == if m == i then r[j] else r[m]
  {
  }

  lemma MovedIn(r: seq<Node>, i: nat, j: nat)
    requires NoDup(r) && i < |r| && j < |r| && i != j
    ensures r[i] !in Moved(r, i, j)
  {
    hide Moved;
    forall k | 0 <= k < |r| - 1 ensures Moved(r, i, j)[k] != r[i] {
      MovedAt(r, i, j, k);
    }
  }

  /** The position after which `r[i]` goes back: that of the old predecessor of `r[j]`. */
  ghost function Gap(r: seq<Node>, j: nat): (k: nat)
    requires |r| > 1 && j < |r|
    ensures k < |r| - 1
  {
    if j > 0 then j - 1 else |r| - 2
  }

  ghost predicate Disjoint(r: seq<Node>, q: seq<Node>) {
    forall i, j :: 0 <= i < |r| && 0 <= j < |q| ==> r[i] != q[j]
  }

  /** `e1` and `e2` are two nodes: of the same ring, or of two rings without a common
      node. */
  ghost predicate TwoNodes(e1: Node, e2: Node, r: seq<Node>, i: nat, q: seq<Node>, j: nat)
    reads r, q
  {
    && Ring(r) && i < |r| && r[i] == e1
    && Ring(q) && j < |q| && q[j] == e2
    && if q == r then i != j else Disjoint(r, q)
  }

  /** The ring that the first node is put back into by a swap, when the second has taken
      its place, and where. The second ring vanishes when the second node was alone. */
  ghost function Target(r: seq<Node>, i: nat, q: seq<Node>, j: nat): (t: seq<Node>)
    requires i < |r| && j < |q| && (q == r ==> i != j)
    ensures |t| > 0
  {
    if q == r then Moved(r, i, j) else if |q| > 1 then Without(q, j) else r[i := q[j]]
  }

  ghost function Spot(r: seq<Node>, i: nat, q: seq<Node>, j: nat): (k: nat)
    requires i < |r| && j < |q| && (q == r ==> i != j)
    ensures k < |Target(r, i, q, j)|
  {
    if |q| > 1 then Gap(q, j) else i
  }

  /** The first half of `list_swap`: `e2` leaves its place and takes that of `e1`. */
  method TakePlace(e1: Node, e2: Node, ghost r: seq<Node>, ghost i: nat, ghost q: seq<Node>, ghost j: nat)
    requires TwoNodes(e1, e2, r, i, q, j)
    modifies r, q
    ensures Ring(Target(r, i, q, j))
    ensures q != r ==> Ring(r[i := e2])
  {
    RingAt(q, j);
    WithoutIt(q, j);
    ListDel(e2, q, j);
    ghost var t := if q == r then Without(r, j) else r;
    ghost var k := if q == r && i > j then i - 1 else i;
    assert Ring(t) && t[k] == e1 && e2 !in t;
    RingAt(t, k);
    ListReplace(e1, e2, t, k);
    assert q == r ==> t[k := e2] == Moved(r, i, j);
  }

  /** `list_swap`: exchanges two nodes of one ring, neighbours in either order and the
      only two nodes of a ring included, and two nodes of different rings unless the
      second is alone. In that case it ends up in the first ring, before the first. */
  method ListSwap(e1: Node, e2: Node, ghost r: seq<Node>, ghost i: nat, ghost q: seq<Node>, ghost j: nat)
    requires TwoNodes(e1, e2, r, i, q, j)
    modifies r, q
    ensures q == r ==> Ring(r[i := e2][j := e1])
    ensures q != r && |q| > 1 ==> Ring(r[i := e2]) && Ring(q[j := e1])
    ensures q != r && |q| == 1 ==> Ring(r[..i] + [e2, e1] + r[i + 1..])
  {
    hide *;
    SwapPlan(e1, e2, r, i, q, j);
    ghost var t, k := Target(r, i, q, j), Spot(r, i, q, j);
    ghost var other := if q != r && |q| > 1 then r[i := e2] else [];
    var pos := e2.prev;
    TakePlace(e1, e2, r, i, q, j);
    if pos == e1 {
      pos := e2;
    }
    assert forall m :: 0 <= m < |t| ==> t[m] in t && (t[m] in r || t[m] in q);
    AddApart(e1, pos, t, k, other);
    SwapEnds(r, i, q, j);
  }

  /** What holds before a swap, about the place that `pos` will stand for. */
  lemma SwapPlan(e1: Node, e2: Node, r: seq<Node>, i: nat, q: seq<Node>, j: nat)
    requires TwoNodes(e1, e2, r, i, q, j)
    ensures i < |r| && j < |q| && r[i] == e1 && q[j] == e2 && (q == r ==> i != j)
    ensures e2.prev != null && Target(r, i, q, j)[Spot(r, i, q, j)] == if e2.prev == e1 then e2 else e2.prev
    ensures e1 in r && e1 !in Target(r, i, q, j)
    ensures forall x :: x in Target(r, i, q, j) ==> x in r || x in q
    ensures q != r && |q| > 1 ==> e1 !in r[i := e2] && forall x :: x in Target(r, i, q, j) ==> x !in r[i := e2]
  {
    RingAt(q, j);
    TargetSpot(r, i, q, j);
    TargetNodes(r, i, q, j);
    hide Target, Spot, Disjoint, Before;
  }

  /** `list_add`, seen beside a ring that it has nothing to do with. */
  method AddApart(nw: Node, head: Node, ghost t: seq<Node>, ghost k: nat, ghost other: seq<Node>)
    requires Ring(t) && k < |t| && t[k] == head && nw !in t
    requires other != [] ==> Ring(other) && nw !in other && forall x :: x in t ==> x !in other
    modifies nw, t
    ensures Ring(t[..k + 1] + [nw] + t[k + 1..])
    ensures other != [] ==> Ring(other)
  {
    RingAt(t, k);
    AfterIn(t, k);
    hide Ring, NoDup, After;
    ListAdd(nw, head, t, k);
  }

  lemma AfterIn(r: seq<Node>, i: nat)
    requires i < |r|
    ensures After(r, i) in r
  {
  }

  lemma BeforeIn(r: seq<Node>, i: nat)
    requires i < |r|
    ensures Before(r, i) in r
  {
  }

  /** The old predecessor of `q[j]`, with `r[i]` replaced, is where `r[i]` goes back. */
  lemma TargetSpot(r: seq<Node>, i: nat, q: seq<Node>, j: nat)
    requires NoDup(q) && i < |r| && j < |q| && if q == r then i != j else Disjoint(r, q)
    ensures Target(r, i, q, j)[Spot(r, i, q, j)] == if Before(q, j) == r[i] then q[j] else Before(q, j)
  {
    if q == r {
      MovedGap(r, i, j);
    } else if |q| > 1 {
      WithoutGap(q, j);
    }
    BeforeIn(q, j);
    hide Moved, Without, NoDup, Before;
  }

  lemma MovedGap(r: seq<Node>, i: nat, j: nat)
    requires NoDup(r) && i < |r| && j < |r| && i != j
    ensures Moved(r, i, j)[Gap(r, j)] == if Before(r, j) == r[i] then r[j] else Before(r, j)
  {
    MovedAt(r, i, j, Gap(r, j));
    hide Moved;
  }

  lemma WithoutGap(q: seq<Node>, j: nat)
    requires |q| > 1 && j < |q|
    ensures Without(q, j)[Gap(q, j)] == Before(q, j)
  {
  }

  /** A swap writes nodes of the two rings only, and keeps apart what is to stay apart. */
  lemma TargetNodes(r: seq<Node>, i: nat, q: seq<Node>, j: nat)
    requires NoDup(r) && NoDup(q) && i < |r| && j < |q| && if q == r then i != j else Disjoint(r, q)
    ensures r[i] !in Target(r, i, q, j)
    ensures forall x :: x in Target(r, i, q, j) ==> x in r || x in q
    ensures q != r ==> r[i] !in r[i := q[j]]
    ensures q != r && |q| > 1 ==> forall x :: x in Target(r, i, q, j) ==> x !in r[i := q[j]]
  {
    if q == r {
      MovedIn(r, i, j);
      forall x | x in Moved(r, i, j) ensures x in r {
        var k :| 0 <= k < |r| - 1 && Moved(r, i, j)[k] == x;
        MovedAt(r, i, j, k);
      }
    } else {
      WithoutIt(q, j);
    }
    hide Moved, Without;
  }

  /** Putting `r[i]` back completes the exchange. */
  lemma SwapEnds(r: seq<Node>, i: nat, q: seq<Node>, j: nat)
    requires i < |r| && j < |q| && (q == r ==> i != j)
    requires var t, k := Target(r, i, q, j), Spot(r, i, q, j); Ring(t[..k + 1] + [r[i]] + t[k + 1..])
    ensures q == r ==> Ring(r[i := q[j]][j := r[i]])
    ensures q != r && |q| > 1 ==> Ring(q[j := r[i]])
    ensures q != r && |q| == 1 ==> Ring(r[..i] + [q[j], r[i]] + r[i + 1..])
  {
    hide Ring, Moved, Without;
    if |q| > 1 {
      GapFilled(Target(r, i, q, j), j, r[i]);
    }
    if q == r {
      SwapResult(r, i, j);
    } else if |q| > 1 {
      PutResult(q, j, r[i]);
    } else {
      AloneResult(r, i, q[j], r[i]);
    }
  }

  /** The gap left by `j`, filled from behind its predecessor. */
  lemma GapFilled(w: seq<Node>, j: nat, x: Node)
    requires |w| > 0 && j <= |w|
    requires var k := if j > 0 then j - 1 else |w| - 1; Ring(w[..k + 1] + [x] + w[k + 1..])
    ensures Ring(w[..j] + [x] + w[j..])
  {
    hide Ring;
    if j == 0 {
      var s := w + [x];
      assert w[..|w|] + [x] + w[|w|..] == s;
      RingRotate(s, |w|);
      assert s[|w|..] + s[..|w|] == w[..0] + [x] + w[0..];
    }
  }

  lemma PutResult(q: seq<Node>, j: nat, x: Node)
    requires j < |q|
    ensures Without(q, j)[..j] + [x] + Without(q, j)[j..] == q[j := x]
  {
    var w := Without(q, j);
    forall k | 0 <= k < |q| ensures (w[..j] + [x] + w[j..])[k] == q[j := x][k] {
      PutBackAt(w, j, x, k);
    }
  }

  lemma AloneResult(r: seq<Node>, i: nat, x: Node, y: Node)
    requires i < |r|
    ensures r[i := x][..i + 1] + [y] + r[i := x][i + 1..] == r[..i] + [x, y] + r[i + 1..]
  {
    assert r[i := x][..i + 1] == r[..i] + [x];
    assert r[i := x][i + 1..] == r[i + 1..];
    assert r[..i] + [x] + [y] == r[..i] + [x, y];
  }

  /** Taking `j` out, renaming `i` and putting `i` back where `j` was swaps the two. */
  lemma SwapResult(r: seq<Node>, i: nat, j: nat)
    requires i < |r| && j < |r| && i != j
    ensures Moved(r, i, j)[..j] + [r[i]] + Moved(r, i, j)[j..] == r[i := r[j]][j := r[i]]
  {
    hide Moved;
    var q := Moved(r, i, j);
    forall k | 0 <= k < |r| ensures (q[..j] + [r[i]] + q[j..])[k] == r[i := r[j]][j := r[i]][k] {
      PutBackAt(q, j, r[i], k);
      if k != j {
        MovedAt(r, i, j, if k < j then k else k - 1);
      }
    }
  }

  lemma PutBackAt(q: seq<Node>, j: nat, x: Node, k: nat)
    requires j <= |q| && k <= |q|
    ensures (q[..j] + [x] + q[j..])[k] == if k < j then q[k] else if k == j then x else q[k - 1]
  {
  }

  /** `list_move`: takes `r[i]` out and puts it right after `head`, in what is left
      of its own ring or in another ring `q`. */
  method ListMove(entry: Node, head: Node, ghost r: seq<Node>, ghost i: nat, ghost q: seq<Node>, ghost k: nat)
    requires Ring(r) && i < |r| && r[i] == entry
    requires q == Without(r, i) || (Ring(q) && Disjoint(r, q))
    requires k < |q| && q[k] == head
    modifies r, q
    ensures Ring(q[..k + 1] + [entry] + q[k + 1..])
    ensures q != Without(r, i) && |r| > 1 ==> Ring(Without(r, i))
  {
    assert r[i].next == After(r, i) && r[i].prev == Before(r, i);
    Unlink(entry.prev, entry.next, r, i);
    assert entry !in q;
    assert q[k].next == After(q, k);
    ListAdd(entry, head, q, k);
  }

  /** `list_move_tail`: the same, right before `head`, the first node of `q`. */
  method ListMoveTail(entry: Node, head: Node, ghost r: seq<Node>, ghost i: nat, ghost q: seq<Node>)
    requires Ring(r) && i < |r| && r[i] == entry
    requires q == Without(r, i) || (Ring(q) && Disjoint(r, q))
    requires |q| > 0 && q[0] == head
    modifies r, q
    ensures Ring(q + [entry])
    ensures q != Without(r, i) && |r| > 1 ==> Ring(Without(r, i))
  {
    assert r[i].next == After(r, i) && r[i].prev == Before(r, i);
    Unlink(entry.prev, entry.next, r, i);
    assert entry !in q;
    assert q[0].prev == Before(q, 0);
    ListAddTail(entry, head, q);
  }

  // ----- Chains: linked stretches with open ends

  ghost predicate Chain(m: seq<Node>)
    reads m
  {
    && |m| > 0 && NoDup(m)
    && (forall i {:trigger m[i].next} :: 0 <= i < |m| - 1 ==> m[i].next == m[i + 1])
    && (forall i {:trigger m[i].prev} :: 0 < i < |m| ==> m[i].prev == m[i - 1])
  }

  lemma SubChain(m: seq<Node>, lo: nat, hi: nat)
    requires Chain(m) && lo < hi <= |m|
    ensures Chain(m[lo..hi])
  {
    assert forall i :: 0 <= i < hi - lo ==> m[lo..hi][i] == m[lo + i];
  }

  /** Links the end of one chain to the start of another. */
  method Join(x: Node, y: Node, ghost a: seq<Node>, ghost b: seq<Node>)
    requires Chain(a) && Chain(b) && Disjoint(a, b) && x == a[|a| - 1] && y == b[0]
    modifies x`next, y`prev
    ensures Chain(a + b)
  {
    x.next := y;
    y.prev := x;
    assert forall i :: 0 <= i < |a| ==> (a + b)[i] == a[i];
    assert forall i :: |a| <= i < |a + b| ==> (a + b)[i] == b[i - |a|];
  }

  /** Links the end of a chain to its own start. */
  method Close(x: Node, y: Node, ghost m: seq<Node>)
    requires Chain(m) && x == m[|m| - 1] && y == m[0]
    modifies x`next, y`prev
    ensures Ring(m)
  {
    x.next := y;
    y.prev := x;
  }

  /** Puts a chain between the last node of a ring and its first. */
  method Append(prev: Node, next: Node, first: Node, last: Node, ghost s: seq<Node>, ghost m: seq<Node>)
    requires Ring(s) && Chain(m) && Disjoint(s, m)
    requires prev == s[|s| - 1] && next == s[0] && first == m[0] && last == m[|m| - 1]
    modifies prev`next, first`prev, last`next, next`prev
    ensures Ring(s + m)
  {
    Join(prev, first, s, m);
    Close(last, next, s + m);
  }

  /** Closes a chain into a list with head `list`. */
  method Wrap(list: Node, first: Node, last: Node, ghost m: seq<Node>)
    requires Chain(m) && list !in m && first == m[0] && last == m[|m| - 1]
    modifies list, first`prev, last`next
    ensures Ring([list] + m)
  {
    Join(list, first, [list], m);
    Close(last, list, [list] + m);
  }

  lemma BulkParts(r: seq<Node>, p: nat, q: nat)
    requires Ring(r) && 0 < p < q <= |r|
    ensures var m, turned := r[p..q], r[q..] + r[..p];
            && Chain(m) && Chain(turned) && Disjoint(r[..p] + r[q..], m)
            && turned[|turned| - 1] == r[p - 1] && turned[0] == After(r, q - 1)
            && r[p - 1] !in m && After(r, q - 1) !in m
  {
    var m, turned := r[p..q], r[q..] + r[..p];
    SubChain(r, p, q);
    assert turned == (r[q..] + r[..q])[0..|turned|];
    RingRotate(r, q);
    SubChain(r[q..] + r[..q], 0, |turned|);
  }

  lemma BulkTurned(r: seq<Node>, p: nat, q: nat)
    requires 0 < p < q <= |r| && Ring(r[q..] + r[..p])
    ensures Ring(r[..p] + r[q..])
  {
    var turned, n := r[q..] + r[..p], |r| - q;
    RingRotate(turned, n);
    assert turned[n..] + turned[..n] == r[..p] + r[q..];
  }

  /** `list_bulk_move_tail`: the entries `first` to `last`, at positions p to q-1,
      move to the tail in order; nothing changes when they are the tail already. */
  method ListBulkMoveTail(head: Node, first: Node, last: Node, ghost r: seq<Node>, ghost p: nat, ghost q: nat)
    requires Ring(r) && 0 < p < q <= |r|
    requires r[0] == head && r[p] == first && r[q - 1] == last
    modifies r
    ensures Ring(r[..p] + r[q..] + r[p..q])
  {
    RingAt(r, p);
    RingAt(r, q - 1);
    ghost var m, rest, turned := r[p..q], r[..p] + r[q..], r[q..] + r[..p];
    BulkParts(r, p, q);
    hide Ring, Chain, NoDup;
    Close(first.prev, last.next, turned);
    BulkTurned(r, p, q);
    RingAt(rest, 0);
    Append(head.prev, head, first, last, rest, m);
  }

  /** `list_empty`. */
  method ListEmpty(head: Node, ghost a: seq<Node>) returns (empty: bool)
    requires Ring([head] + a)
    ensures empty <==> a == []
  {
    assert ([head] + a)[0].next == After([head] + a, 0);
    empty := head.next == head;
  }

  /** `list_is_singular`. */
  method ListIsSingular(head: Node, ghost a: seq<Node>) returns (single: bool)
    requires Ring([head] + a)
    ensures single <==> |a| == 1
  {
    assert ([head] + a)[0].next == After([head] + a, 0);
    assert ([head] + a)[0].prev == Before([head] + a, 0);
    var empty := ListEmpty(head, a);
    single := !empty && head.next == head.prev;
  }

  /** `__list_cut_position`: the entries up to and including position k. */
  method CutThrough(list: Node, head: Node, entry: Node, ghost a: seq<Node>, ghost k: nat)
    requires Ring([head] + a) && k < |a| && a[k] == entry && list !in [head] + a
    modifies list, head, a
    ensures Ring([list] + a[..k + 1]) && Ring([head] + a[k + 1..])
  {
    ghost var r := [head] + a;
    assert r[0].next == r[1] && r[k + 1].next == After(r, k + 1);
    var newFirst := entry.next;
    CutParts(list, head, head.next, entry, newFirst, a, k + 1);
  }

  lemma CutChains(head: Node, a: seq<Node>, k: nat)
    requires Ring([head] + a) && 0 < k <= |a|
    ensures Chain(a[..k]) && Chain(a[k..] + [head])
  {
    var r, left := [head] + a, a[k..] + [head];
    assert a[..k] == r[1..k + 1];
    SubChain(r, 1, k + 1);
    RingRotate(r, k + 1);
    assert left == (r[k + 1..] + r[..k + 1])[0..|left|];
    SubChain(r[k + 1..] + r[..k + 1], 0, |left|);
  }

  lemma CutDisjoint(list: Node, head: Node, a: seq<Node>, k: nat)
    requires NoDup([head] + a) && list !in [head] + a && k <= |a|
    ensures Disjoint([list] + a[..k], [head] + a[k..])
    ensures Disjoint([list] + a[..k], a[k..] + [head])
  {
    var r, b, c, d := [head] + a, [list] + a[..k], [head] + a[k..], a[k..] + [head];
    assert b[0] == list && c[0] == d[|d| - 1] == r[0];
    assert forall i :: 1 <= i < |b| ==> b[i] == r[i];
    assert forall i :: 1 <= i < |c| ==> c[i] == r[i + k];
    assert forall i :: 0 <= i < |d| - 1 ==> d[i] == r[i + k + 1];
  }

  /** The six assignments that the two cuts share: close the first `k` entries into
      a ring with `list`, and the head with what is left. */
  method CutParts(list: Node, head: Node, first: Node, last: Node, rest: Node, ghost a: seq<Node>, ghost k: nat)
    requires Ring([head] + a) && 0 < k <= |a| && list !in [head] + a
    requires first == a[0] && last == a[k - 1] && rest == After([head] + a, k)
    modifies list, head, a
    ensures Ring([list] + a[..k]) && Ring([head] + a[k..])
  {
    ghost var left := a[k..] + [head];
    CutChains(head, a, k);
    CutDisjoint(list, head, a, k);
    ghost var part := [list] + a[..k];
    assert part[1] == first && part[|part| - 1] == last && part[0] == list;
    assert left[|left| - 1] == head && left[0] == rest;
    hide Ring, Chain, NoDup;
    Wrap(list, first, last, a[..k]);
    Close(head, rest, left);
    RingRotate(left, |left| - 1);
    assert left[|left| - 1..] + left[..|left| - 1] == [head] + a[k..];
  }

  /** `list_cut_position`. `k` is the position of `entry`, 0 when it is the head
      itself: the entries up to and including it move to `list`. An empty list is
      left alone, and so is a list of one when `entry` is not on it; `list` is then
      not written at all. */
  method ListCutPosition(list: Node, head: Node, entry: Node, ghost a: seq<Node>, ghost k: nat)
    requires Ring([head] + a) && list !in [head] + a
    requires if entry in [head] + a then k <= |a| && ([head] + a)[k] == entry else |a| <= 1
    modifies list, head, a
    ensures a != [] && entry in [head] + a ==> Ring([list] + a[..k]) && Ring([head] + a[k..])
    ensures a == [] || entry !in [head] + a ==> Ring([head] + a)
    ensures a == [] || entry !in [head] + a ==> list.next == old(list.next) && list.prev == old(list.prev)
  {
    var empty := ListEmpty(head, a);
    if empty {
      return;
    }
    var single := ListIsSingular(head, a);
    assert ([head] + a)[0].next == After([head] + a, 0);
    if single && head.next != entry && head != entry {
      return;
    }
    if entry == head {
      InitListHead(list);
    } else {
      CutThrough(list, head, entry, a, k - 1);
    }
  }

  /** `list_cut_before`: the entries before `entry` move to `list`; all of them when
      `entry` is the head, which follows position `|a|`. */
  method ListCutBefore(list: Node, head: Node, entry: Node, ghost a: seq<Node>, ghost k: nat)
    requires Ring([head] + a) && k <= |a| && After([head] + a, k) == entry && list !in [head] + a
    modifies list, head, a
    ensures Ring([list] + a[..k]) && Ring([head] + a[k..])
  {
    ghost var r := [head] + a;
    assert r[0].next == After(r, 0);
    if head.next == entry {
      assert k == 0;
      InitListHead(list);
      assert [list] + a[..k] == [list] && [head] + a[k..] == r;
      return;
    }
    assert (if k < |a| then r[k + 1] else r[0]).prev == r[k];
    CutParts(list, head, head.next, entry.prev, entry, a, k);
  }

  // ----- Splicing

  /** `__list_splice`: the entries of `list` go between `r[i]` and its successor. */
  method SpliceBetween(list: Node, prev: Node, next: Node, ghost b: seq<Node>, ghost r: seq<Node>, ghost i: nat)
    requires Ring([list] + b) && b != [] && Ring(r) && Disjoint([list] + b, r)
    requires i < |r| && prev == r[i] && next == After(r, i)
    modifies b, prev, next
    ensures Ring(r[..i + 1] + b + r[i + 1..])
    ensures list.next == old(list.next) && list.prev == old(list.prev)
  {
    ghost var q := [list] + b;
    assert q[0].next == q[1] && q[0].prev == q[|q| - 1];
    var first := list.next;
    var last := list.prev;
    assert b == q[1..|q|];
    SubChain(q, 1, |q|);
    ghost var turned := r[i + 1..] + r[..i + 1];
    RingRotate(r, i + 1);
    Append(prev, next, first, last, turned, b);
    ghost var n := |r| - (i + 1);
    RingRotate(turned + b, n);
    assert (turned + b)[n..] + (turned + b)[..n] == r[..i + 1] + b + r[i + 1..];
  }

  /** `list_splice`: the entries of `list` go to the front of the other list; the
      node `list` itself is left as it was. */
  method ListSplice(list: Node, head: Node, ghost b: seq<Node>, ghost a: seq<Node>)
    requires Ring([list] + b) && Ring([head] + a) && Disjoint([list] + b, [head] + a)
    modifies b, head, a
    ensures Ring([head] + b + a)
    ensures list.next == old(list.next) && list.prev == old(list.prev)
  {
    var empty := ListEmpty(list, b);
    ghost var r := [head] + a;
    if !empty {
      assert r[0].next == After(r, 0);
      SpliceBetween(list, head, head.next, b, r, 0);
      assert r[..1] + b + r[1..] == [head] + b + a;
    } else {
      assert [head] + b + a == r;
    }
  }

  /** `list_splice_tail`: the same, at the end of the other list. */
  method ListSpliceTail(list: Node, head: Node, ghost b: seq<Node>, ghost a: seq<Node>)
    requires Ring([list] + b) && Ring([head] + a) && Disjoint([list] + b, [head] + a)
    modifies b, head, a
    ensures Ring([head] + a + b)
    ensures list.next == old(list.next) && list.prev == old(list.prev)
  {
    var empty := ListEmpty(list, b);
    ghost var r := [head] + a;
    if !empty {
      assert r[0].prev == Before(r, 0);
      SpliceBetween(list, head.prev, head, b, r, |a|);
      assert r[..|a| + 1] + b + r[|a| + 1..] == [head] + a + b;
    } else {
      assert [head] + a + b == r;
    }
  }

  lemma SpliceApart(list: Node, head: Node, b: seq<Node>, a: seq<Node>)
    requires NoDup([list] + b) && Disjoint([list] + b, [head] + a)
    ensures list !in [head] + b + a
  {
    var q, r, s := [list] + b, [head] + a, [head] + b + a;
    assert q[0] == list;
    forall i | 0 <= i < |s| ensures s[i] != list {
      if i == 0 {
        assert s[i] == r[0];
      } else if i <= |b| {
        assert s[i] == q[i];
      } else {
        assert s[i] == r[i - |b|];
      }
    }
  }

  /** `list_splice_init`: `list` ends up empty. */
  method ListSpliceInit(list: Node, head: Node, ghost b: seq<Node>, ghost a: seq<Node>)
    requires Ring([list] + b) && Ring([head] + a) && Disjoint([list] + b, [head] + a)
    modifies list, b, head, a
    ensures Ring([head] + b + a) && Ring([list])
  {
    var empty := ListEmpty(list, b);
    if !empty {
      ListSplice(list, head, b, a);
      SpliceApart(list, head, b, a);
      InitListHead(list);
    } else {
      assert [head] + b + a == [head] + a && [list] + b == [list];
    }
  }

  // ----- Cut and splice undo each other; all nodes are reachable

  /** Cutting a non-empty list at any position and splicing the part back onto the
      head restores it. */
  method CutThenSplice(list: Node, head: Node, entry: Node, ghost a: seq<Node>, ghost k: nat)
    requires Ring([head] + a) && a != [] && k <= |a| && ([head] + a)[k] == entry && list !in [head] + a
    modifies list, head, a
    ensures Ring([head] + a)
  {
    ListCutPosition(list, head, entry, a, k);
    CutDisjoint(list, head, a, k);
    ListSplice(list, head, a[..k], a[k..]);
    assert [head] + a[..k] + a[k..] == [head] + a;
  }

  method CutBeforeThenSplice(list: Node, head: Node, entry: Node, ghost a: seq<Node>, ghost k: nat)
    requires Ring([head] + a) && k <= |a| && After([head] + a, k) == entry && list !in [head] + a
    modifies list, head, a
    ensures Ring([head] + a)
  {
    ListCutBefore(list, head, entry, a, k);
    CutDisjoint(list, head, a, k);
    ListSplice(list, head, a[..k], a[k..]);
    assert [head] + a[..k] + a[k..] == [head] + a;
  }

  /** The node reached from `x` by following `next` k times. */
  ghost function Walk(x: Node, r: set<Node>, k: nat): Node?
    reads r
  {
    if k == 0 then x
    else
      var y := Walk(x, r, k - 1);
      if y != null && y in r then y.next else null
  }

  /** Following `next` from any node visits the ring in order and comes back. */
  lemma {:induction false} RingWalk(r: seq<Node>, k: nat)
    requires Ring(r) && k <= |r|
    ensures Walk(r[0], (set x | x in r), k) == if k < |r| then r[k] else r[0]
  {
    if k > 0 {
      RingWalk(r, k - 1);
      assert r[k - 1].next == After(r, k - 1);
    }
  }

  /** The two links of every node mirror each other. */
  lemma RingMirror(r: seq<Node>, x: Node)
    requires Ring(r) && x in r
    ensures x.next != null && x.next in r && x.next.prev == x
    ensures x.prev != null && x.prev in r && x.prev.next == x
  {
    var i :| 0 <= i < |r| && r[i] == x;
    var n, p := (if i + 1 < |r| then i + 1 else 0), (if i > 0 then i - 1 else |r| - 1);
    assert r[i].next == r[n] && r[n].prev == Before(r, n);
    assert r[i].prev == r[p] && r[p].next == After(r, p);
  }
}
