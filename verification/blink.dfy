/**
 The blink list of blink.S: nodes in a fixed pool of 2000 cells, linked through the cells, the newest
 first.  Location 0 marks a free cell.  A pointer is an index into the pool, NULL is -1.
 */
module Blink {
  import opened Text

  const NULL: int := -1

  /** The fields a user can see; lengths and countdown are 16-bit words. */
  datatype Node = Node(location: nat, onChar: byte, offChar: byte, onLength: nat, offLength: nat, countdown: nat, on: bool)

  datatype Cell = Cell(node: Node, next: int)

  const FREE: Cell := Cell(Node(0, NUL, NUL, 0, 0, 0, false), NULL)

  // ---- The list as a sequence of nodes ----

  /** The first node with a location, the length of the list if there is none. */
  function IndexOf(list: seq<Node>, location: nat): (k: nat)
    ensures k <= |list| && (k < |list| ==> list[k].location == location)
    ensures forall i :: 0 <= i < k ==> list[i].location != location
  {
    if list == [] || list[0].location == location then 0 else 1 + IndexOf(list[1..], location)
  }

  function Started(n: Node): Node {
    n.(on := true, countdown := n.onLength)
  }

  function Without(list: seq<Node>, k: nat): seq<Node>
    requires k < |list|
  {
    list[..k] + list[k + 1..]
  }

  /** The target takes over the source's lengths and phase. */
  function Synced(source: Node, target: Node): Node {
    target.(onLength := source.onLength, offLength := source.offLength, countdown := source.countdown, on := source.on)
  }

  /** A 16-bit word read as a signed number. */
  function Signed(w: int): int {
    if w >= 0x8000 then w - 0x1_0000 else w
  }

  /** One RTC tick: the countdown is decremented in 16 bits; when it is not positive the node toggles. */
  function Ticked(n: Node): Node {
    var c := (n.countdown - 1) % 0x1_0000;
    if Signed(c) > 0 then n.(countdown := c)
    else n.(countdown := if n.on then n.offLength else n.onLength, on := !n.on)
  }

  function TickedAll(list: seq<Node>): (r: seq<Node>)
    ensures |r| == |list|
    ensures forall i :: 0 <= i < |list| ==> r[i] == Ticked(list[i])
  {
    seq(|list|, i requires 0 <= i < |list| => Ticked(list[i]))
  }

  /** What can be asked of the list. */
  datatype Op = AddOp(node: Node) | RemoveOp(location: nat) | SyncOp(from: nat, to: nat) | TickOp

  /** The list after an operation; one that fails changes nothing. */
  function Applied(list: seq<Node>, op: Op): seq<Node> {
    match op
    case AddOp(n) => if n.location >= 2000 || |list| >= 2000 then list else [Started(n)] + list
    case RemoveOp(l) => if IndexOf(list, l) < |list| then Without(list, IndexOf(list, l)) else list
    case SyncOp(from, to) =>
      var i, j := IndexOf(list, from), IndexOf(list, to);
      if i < |list| && j < |list| then list[j := Synced(list[i], list[j])] else list
    case TickOp => TickedAll(list)
  }

  // ---- The list in the pool ----

  /** Different cells of the pool. */
  ghost predicate Distinct(order: seq<nat>) {
    && (forall k :: 0 <= k < |order| ==> order[k] < 2000)
    && forall j, k :: 0 <= j < k < |order| ==> order[j] != order[k]
  }

  /** The links lead from `head` through the cells `order` to NULL. */
  ghost predicate Chain(pool: seq<Cell>, head: int, order: seq<nat>)
    requires |pool| == 2000 && Distinct(order)
  {
    && head == LinkAt(order, 0)
    && forall k {:trigger pool[order[k]]} :: 0 <= k < |order| ==> pool[order[k]].next == LinkAt(order, k + 1)
  }

  /** The cells `order` are exactly the ones in use. */
  ghost predicate Exact(pool: seq<Cell>, order: seq<nat>)
    requires |pool| == 2000
  {
    forall i :: 0 <= i < 2000 ==> (i in order <==> pool[i].node.location != 0)
  }

  ghost predicate Linked(pool: seq<Cell>, head: int, order: seq<nat>) {
    |pool| == 2000 && Distinct(order) && Chain(pool, head, order) && Exact(pool, order)
  }

  /** The pointer to the k-th cell of the list, NULL behind the last one. */
  function LinkAt(order: seq<nat>, k: nat): int {
    if k < |order| then order[k] else NULL
  }

  ghost function Listed(pool: seq<Cell>, order: seq<nat>): (r: seq<Node>)
    requires forall k :: 0 <= k < |order| ==> order[k] < |pool|
    ensures |r| == |order|
    ensures forall k :: 0 <= k < |order| ==> r[k] == pool[order[k]].node
  {
    seq(|order|, k requires 0 <= k < |order| => pool[order[k]].node)
  }

  /** Where `m` links lead from `p`; NULL leads nowhere else. */
  function Follow(pool: seq<Cell>, p: int, m: nat): int
    decreases m
  {
    if m == 0 || !(0 <= p < |pool|) then p else Follow(pool, pool[p].next, m - 1)
  }

  lemma {:induction false} FollowOrder(pool: seq<Cell>, head: int, order: seq<nat>, k: nat, m: nat)
    requires Linked(pool, head, order)
    ensures Follow(pool, LinkAt(order, k), m) == LinkAt(order, k + m)
    decreases m
  {
    if m > 0 && k < |order| {
      assert pool[order[k]].next == LinkAt(order, k + 1);
      FollowOrder(pool, head, order, k + 1, m - 1);
    }
  }

  /**
   The list is acyclic: from the head its cells are reached one after the other, then NULL, and
   following the links from a cell, however far, never leads back to it.
   */
  lemma {:induction false} Acyclic(pool: seq<Cell>, head: int, order: seq<nat>, k: nat, m: nat)
    requires Linked(pool, head, order) && k < |order| && m >= 1
    ensures Follow(pool, head, k) == order[k] && Follow(pool, head, |order|) == NULL
    ensures Follow(pool, order[k], m) != order[k]
  {
    FollowOrder(pool, head, order, 0, k);
    FollowOrder(pool, head, order, 0, |order|);
    FollowOrder(pool, head, order, k, m);
  }

  function InUse(pool: seq<Cell>, i: nat): nat
    requires i <= |pool|
    decreases |pool| - i
  {
    if i == |pool| then 0 else (if pool[i].node.location != 0 then 1 else 0) + InUse(pool, i + 1)
  }

  function Free(pool: seq<Cell>, i: nat): nat
    requires i <= |pool|
    decreases |pool| - i
  {
    if i == |pool| then 0 else (if pool[i].node.location == 0 then 1 else 0) + Free(pool, i + 1)
  }

  lemma {:induction false} UsedAndFree(pool: seq<Cell>, i: nat)
    requires i <= |pool|
    ensures InUse(pool, i) + Free(pool, i) == |pool| - i
    decreases |pool| - i
  {
    if i < |pool| {
      UsedAndFree(pool, i + 1);
    }
  }

  /** The cells in use from `i` on. */
  ghost function UsedSet(pool: seq<Cell>, i: nat): (r: set<nat>)
    requires i <= |pool|
    ensures forall j :: j in r <==> i <= j < |pool| && pool[j].node.location != 0
    ensures |r| == InUse(pool, i)
    decreases |pool| - i
  {
    if i == |pool| then {}
    else
      var rest := UsedSet(pool, i + 1);
      if pool[i].node.location != 0 then {i} + rest else rest
  }

  ghost function SetOf(order: seq<nat>): set<nat> {
    set i | i in order
  }

  lemma {:induction false} DistinctCount(order: seq<nat>)
    requires forall j, k :: 0 <= j < k < |order| ==> order[j] != order[k]
    ensures |SetOf(order)| == |order|
  {
    if order == [] {
      assert SetOf(order) == {};
    } else {
      var n := |order| - 1;
      DistinctCount(order[..n]);
      assert order == order[..n] + [order[n]];
      assert order[n] !in SetOf(order[..n]);
      assert SetOf(order) == SetOf(order[..n]) + {order[n]};
    }
  }

  /** Conservation: the length of the list and the number of free cells add up to 2000. */
  lemma PoolConserved(pool: seq<Cell>, head: int, order: seq<nat>)
    requires Linked(pool, head, order)
    ensures |order| + Free(pool, 0) == 2000
  {
    UsedAndFree(pool, 0);
    DistinctCount(order);
    assert SetOf(order) == UsedSet(pool, 0);
  }

  // ---- Allocation and insertion, on values ----

  /** mp1_malloc: the first free cell, the pool size if there is none. */
  function FirstFree(pool: seq<Cell>, i: nat): (r: nat)
    requires i <= |pool|
    ensures i <= r <= |pool| && (r < |pool| ==> pool[r].node.location == 0)
    ensures forall j :: i <= j < r ==> pool[j].node.location != 0
    decreases |pool| - i
  {
    if i == |pool| || pool[i].node.location == 0 then i else FirstFree(pool, i + 1)
  }

  /** A cell given back is found again by the next allocation, unless one before it is free. */
  lemma {:induction false} FreedIsFound(pool: seq<Cell>, p: nat, i: nat)
    requires i <= p < |pool|
    ensures FirstFree(pool[p := FREE], i) == if FirstFree(pool, i) < p then FirstFree(pool, i) else p
    decreases p - i
  {
    if i < p && pool[i].node.location != 0 {
      FreedIsFound(pool, p, i + 1);
    }
  }

  /** mp1_ioctl_add on the pool and the head pointer. */
  function Added(pool: seq<Cell>, head: int, n: Node): (seq<Cell>, int, int)
    requires |pool| == 2000
  {
    var i := FirstFree(pool, 0);
    if n.location >= 2000 || i == 2000 then (pool, head, -1)
    else (pool[i := Cell(Started(n), head)], i, 0)
  }

  /** An add fails exactly when the location is not on the screen or every cell is in use. */
  lemma AddFailsIff(pool: seq<Cell>, head: int, order: seq<nat>, n: Node)
    requires Linked(pool, head, order)
    ensures Added(pool, head, n).2 == -1 <==> n.location >= 2000 || |order| == 2000
  {
    PoolConserved(pool, head, order);
    FreeIsZeroIff(pool, 0);
  }

  lemma {:induction false} FreeIsZeroIff(pool: seq<Cell>, i: nat)
    requires i <= |pool|
    ensures Free(pool, i) == 0 <==> FirstFree(pool, i) == |pool|
    decreases |pool| - i
  {
    if i < |pool| {
      FreeIsZeroIff(pool, i + 1);
    }
  }

  lemma AddDistinct(order: seq<nat>, i: nat)
    requires Distinct(order) && i < 2000 && i !in order
    ensures Distinct([i] + order)
  {
  }

  lemma AddChain(pool: seq<Cell>, head: int, order: seq<nat>, i: nat, n: Node)
    requires |pool| == 2000 && Distinct(order) && Chain(pool, head, order) && i < 2000 && i !in order
    ensures Distinct([i] + order) && Chain(pool[i := Cell(n, head)], i, [i] + order)
  {
    AddDistinct(order, i);
    var more, p := [i] + order, pool[i := Cell(n, head)];
    forall k | 0 <= k < |more| ensures p[more[k]].next == LinkAt(more, k + 1) {
      if k > 0 {
        assert more[k] == order[k - 1] && pool[order[k - 1]].next == LinkAt(order, k);
      }
    }
  }

  lemma AddExact(pool: seq<Cell>, order: seq<nat>, i: nat, c: Cell)
    requires |pool| == 2000 && Exact(pool, order) && i < 2000 && c.node.location != 0
    ensures Exact(pool[i := c], [i] + order)
  {
    assert forall j :: j in [i] + order <==> j == i || j in order;
  }

  lemma AddListed(pool: seq<Cell>, order: seq<nat>, i: nat, c: Cell)
    requires |pool| == 2000 && Distinct(order) && i < 2000 && i !in order
    ensures Distinct([i] + order) && Listed(pool[i := c], [i] + order) == [c.node] + Listed(pool, order)
  {
    AddDistinct(order, i);
  }

  /** An add at a location other than 0 puts the new node in front. */
  lemma AddLinks(pool: seq<Cell>, head: int, order: seq<nat>, n: Node)
    requires Linked(pool, head, order) && n.location != 0
    requires Added(pool, head, n).2 == 0
    ensures var (p, h, _) := Added(pool, head, n); var i := FirstFree(pool, 0);
            i < 2000 && Linked(p, h, [i] + order) && Listed(p, [i] + order) == [Started(n)] + Listed(pool, order)
  {
    var i := FirstFree(pool, 0);
    var c := Cell(Started(n), head);
    AddChain(pool, head, order, i, Started(n));
    AddExact(pool, order, i, c);
    AddListed(pool, order, i, c);
  }

  ghost function OrderAfterAdd(pool: seq<Cell>, head: int, order: seq<nat>, n: Node): seq<nat>
    requires |pool| == 2000
  {
    if Added(pool, head, n).2 == 0 then [FirstFree(pool, 0)] + order else order
  }

  /** What an add does to the pool is what it should do to the list. */
  lemma AddApplies(pool: seq<Cell>, head: int, order: seq<nat>, n: Node)
    requires Linked(pool, head, order) && n.location != 0
    ensures var (p, h, r) := Added(pool, head, n); var o := OrderAfterAdd(pool, head, order, n);
            && (r == 0 || r == -1) && (r == -1 <==> n.location >= 2000 || |order| == 2000)
            && Linked(p, h, o) && Listed(p, o) == Applied(Listed(pool, order), AddOp(n))
  {
    AddFailsIff(pool, head, order, n);
    if Added(pool, head, n).2 == 0 {
      AddLinks(pool, head, order, n);
    }
    AtMostAll(pool, head, order);
  }

  lemma AtMostAll(pool: seq<Cell>, head: int, order: seq<nat>)
    requires Linked(pool, head, order)
    ensures |order| <= 2000
  {
    PoolConserved(pool, head, order);
  }

  /**
   An add that succeeds leaves a well-linked list if and only if its location is not 0: the cell of a
   node at location 0 still counts as free, so the next add would take it again.
   */
  lemma AddLinksIffNonzero(pool: seq<Cell>, head: int, order: seq<nat>, n: Node)
    requires Linked(pool, head, order) && Added(pool, head, n).2 == 0
    ensures (exists o :: Linked(Added(pool, head, n).0, Added(pool, head, n).1, o)) <==> n.location != 0
  {
    var (p, h, _) := Added(pool, head, n);
    if n.location != 0 {
      AddLinks(pool, head, order, n);
    }
    forall o | Linked(p, h, o) ensures n.location != 0 {
      assert LinkAt(o, 0) == h;
      assert o[0] in o && p[o[0]].node.location == n.location;
    }
  }

  /** Two adds at location 0 make a cell its own successor. */
  lemma ZeroLocationLoops(pool: seq<Cell>, head: int, n: Node)
    requires |pool| == 2000 && n.location == 0 && FirstFree(pool, 0) < 2000
    ensures var (p, h, _) := Added(pool, head, n);
            var (q, g, r) := Added(p, h, n);
            r == 0 && 0 <= g < 2000 && q[g].next == g
  {
    var i := FirstFree(pool, 0);
    var p := Added(pool, head, n).0;
    SameFirstFree(pool, p, 0);
  }

  lemma {:induction false} SameFirstFree(pool: seq<Cell>, p: seq<Cell>, i: nat)
    requires |pool| == |p| && i <= |pool|
    requires forall j :: 0 <= j < |pool| ==> (pool[j].node.location == 0 <==> p[j].node.location == 0)
    ensures FirstFree(p, i) == FirstFree(pool, i)
    decreases |pool| - i
  {
    if i < |pool| {
      SameFirstFree(pool, p, i + 1);
    }
  }

  // ---- Removal, on values ----

  /** The k-th cell is unlinked by its predecessor, or by the head, and cleared. */
  function Unlinked(pool: seq<Cell>, head: int, order: seq<nat>, k: nat): (r: (seq<Cell>, int))
    requires |pool| == 2000 && k < |order| && forall j :: 0 <= j < |order| ==> order[j] < 2000
    ensures |r.0| == 2000
  {
    var next := pool[order[k]].next;
    if k == 0 then (pool[order[k] := FREE], next)
    else (pool[order[k - 1] := pool[order[k - 1]].(next := next)][order[k] := FREE], head)
  }

  function Dropped(order: seq<nat>, k: nat): (r: seq<nat>)
    requires k < |order|
    ensures |r| == |order| - 1
    ensures forall j :: 0 <= j < |r| ==> r[j] == if j < k then order[j] else order[j + 1]
  {
    order[..k] + order[k + 1..]
  }

  lemma DropDistinct(order: seq<nat>, k: nat)
    requires Distinct(order) && k < |order|
    ensures Distinct(Dropped(order, k))
    ensures forall i :: i in Dropped(order, k) <==> i in order && i != order[k]
  {
    var rest := Dropped(order, k);
    forall i | i in order && i != order[k] ensures i in rest {
      var j :| 0 <= j < |order| && order[j] == i;
      assert i == rest[if j < k then j else j - 1];
    }
  }

  lemma RemoveChain(pool: seq<Cell>, head: int, order: seq<nat>, k: nat)
    requires |pool| == 2000 && Distinct(order) && Chain(pool, head, order) && k < |order|
    ensures var (p, h) := Unlinked(pool, head, order, k);
            Distinct(Dropped(order, k)) && Chain(p, h, Dropped(order, k))
  {
    DropDistinct(order, k);
    var (p, h) := Unlinked(pool, head, order, k);
    var rest := Dropped(order, k);
    assert pool[order[k]].next == LinkAt(order, k + 1);
    forall j | 0 <= j < |rest| ensures p[rest[j]].next == LinkAt(rest, j + 1) {
      var m := if j < k then j else j + 1;
      assert rest[j] == order[m] && pool[order[m]].next == LinkAt(order, m + 1);
    }
  }

  lemma RemoveExact(pool: seq<Cell>, head: int, order: seq<nat>, k: nat)
    requires |pool| == 2000 && Distinct(order) && Exact(pool, order) && k < |order|
    ensures Exact(Unlinked(pool, head, order, k).0, Dropped(order, k))
  {
    DropDistinct(order, k);
  }

  lemma RemoveListed(pool: seq<Cell>, head: int, order: seq<nat>, k: nat)
    requires |pool| == 2000 && Distinct(order) && k < |order|
    ensures Distinct(Dropped(order, k))
    ensures Listed(Unlinked(pool, head, order, k).0, Dropped(order, k)) == Without(Listed(pool, order), k)
  {
    DropDistinct(order, k);
    var p, rest := Unlinked(pool, head, order, k).0, Dropped(order, k);
    forall j | 0 <= j < |rest| ensures p[rest[j]].node == Without(Listed(pool, order), k)[j] {
      var m := if j < k then j else j + 1;
      assert rest[j] == order[m];
    }
  }

  /** Removing the k-th node leaves a well-linked list of the others, in the same order. */
  lemma {:induction false} RemoveLinks(pool: seq<Cell>, head: int, order: seq<nat>, k: nat)
    requires Linked(pool, head, order) && k < |order|
    ensures var (p, h) := Unlinked(pool, head, order, k); var rest := Dropped(order, k);
            Linked(p, h, rest) && Listed(p, rest) == Without(Listed(pool, order), k)
  {
    RemoveChain(pool, head, order, k);
    RemoveExact(pool, head, order, k);
    RemoveListed(pool, head, order, k);
  }

  /** The k-th cell of a well-linked list, its node and its link. */
  lemma LinkedAt(pool: seq<Cell>, head: int, order: seq<nat>, k: nat)
    requires Linked(pool, head, order)
    ensures head == LinkAt(order, 0)
    ensures k < |order| ==>
              && LinkAt(order, k) == order[k] < 2000
              && Listed(pool, order)[k] == pool[order[k]].node
              && pool[order[k]].next == LinkAt(order, k + 1)
  {
  }

  lemma IndexIs(list: seq<Node>, location: nat, k: nat)
    requires k <= |list| && forall j :: 0 <= j < k ==> list[j].location != location
    requires k < |list| ==> list[k].location == location
    ensures IndexOf(list, location) == k
  {
  }

  lemma SameCell(order: seq<nat>, j: nat, k: nat)
    requires Distinct(order) && j <= k < |order| && order[j] == order[k]
    ensures j == k
  {
  }

  /** A node changed where it lies, its location kept. */
  lemma NodeChanged(pool: seq<Cell>, head: int, order: seq<nat>, j: nat, node: Node)
    requires Linked(pool, head, order) && j < |order| && node.location == pool[order[j]].node.location
    ensures var p := pool[order[j] := pool[order[j]].(node := node)];
            Linked(p, head, order) && Listed(p, order) == Listed(pool, order)[j := node]
  {
    var p := pool[order[j] := pool[order[j]].(node := node)];
    assert forall k :: 0 <= k < |order| ==> p[order[k]].next == pool[order[k]].next;
  }

  /** The first `k` nodes of the list have ticked, the rest of the pool has not. */
  ghost predicate PartlyTicked(pool: seq<Cell>, now: seq<Cell>, order: seq<nat>, k: nat)
    requires |pool| == 2000 && Distinct(order)
  {
    && |now| == 2000
    && (forall j :: 0 <= j < |order| ==>
         now[order[j]] == if j < k then pool[order[j]].(node := Ticked(pool[order[j]].node)) else pool[order[j]])
    && forall i :: 0 <= i < 2000 && i !in order ==> now[i] == pool[i]
  }

  lemma OneMoreTicked(pool: seq<Cell>, before: seq<Cell>, after: seq<Cell>, order: seq<nat>, k: nat)
    requires |pool| == 2000 && Distinct(order) && k < |order| && PartlyTicked(pool, before, order, k)
    requires after == before[order[k] := before[order[k]].(node := Ticked(before[order[k]].node))]
    ensures PartlyTicked(pool, after, order, k + 1)
    ensures after[order[k]].next == pool[order[k]].next
  {
  }

  lemma AllTicked(pool: seq<Cell>, now: seq<Cell>, head: int, order: seq<nat>)
    requires Linked(pool, head, order) && PartlyTicked(pool, now, order, |order|)
    ensures Linked(now, head, order) && Listed(now, order) == TickedAll(Listed(pool, order))
  {
    forall i | 0 <= i < 2000 ensures now[i].node.location == pool[i].node.location {
      if i in order {
        var j :| 0 <= j < |order| && order[j] == i;
      }
    }
  }

  // ---- The list as blink.S keeps it ----

  class BlinkList {
    const blinkArray: array<Cell>
    var listHead: int
    ghost var order: seq<nat>

    ghost predicate Valid()
      reads this, blinkArray
    {
      Linked(blinkArray[..], listHead, order)
    }

    /** The nodes, newest first. */
    ghost function Contents(): seq<Node>
      requires Valid()
      reads this, blinkArray
    {
      Listed(blinkArray[..], order)
    }

    constructor ()
      ensures Valid() && Contents() == [] && fresh(blinkArray)
    {
      blinkArray := new Cell[2000](_ => FREE);
      listHead, order := NULL, [];
    }

    /** mp1_malloc. */
    method Malloc() returns (p: int)
      requires blinkArray.Length == 2000
      ensures p == if FirstFree(blinkArray[..], 0) == 2000 then NULL else FirstFree(blinkArray[..], 0)
    {
      var i := 0;
      while i < 2000
        invariant 0 <= i <= 2000 && FirstFree(blinkArray[..], 0) == FirstFree(blinkArray[..], i)
      {
        if blinkArray[i].node.location == 0 {
          return i;
        }
        i := i + 1;
      }
      return NULL;
    }

    /** mp1_ioctl_add: whatever the location, the pool and the head change as `Added` says. */
    method Insert(user: Node) returns (r: int)
      requires blinkArray.Length == 2000
      modifies this`listHead, blinkArray
      ensures (blinkArray[..], listHead, r) == Added(old(blinkArray[..]), old(listHead), user)
    {
      if user.location >= 2000 {
        return -1;
      }
      var temp := user.(on := true, countdown := user.onLength);
      var p := Malloc();
      if p == NULL {
        return -1;
      }
      blinkArray[p] := Cell(temp, listHead);
      listHead := p;
      return 0;
    }

    /** An add at a location other than 0. */
    method Add(user: Node) returns (r: int)
      requires Valid() && user.location != 0
      modifies this, blinkArray
      ensures Valid()
      ensures r == -1 <==> user.location >= 2000 || |old(Contents())| == 2000
      ensures r == 0 || r == -1
      ensures Contents() == Applied(old(Contents()), AddOp(user))
    {
      ghost var more := OrderAfterAdd(blinkArray[..], listHead, order, user);
      AddApplies(blinkArray[..], listHead, order, user);
      r := Insert(user);
      order := more;
    }

    /** mp1_find_helper: the newest node with a location. */
    method FindHelper(location: nat) returns (p: int)
      requires Valid()
      ensures p == LinkAt(order, IndexOf(Contents(), location))
    {
      ghost var list := Contents();
      ghost var k := 0;
      p := listHead;
      LinkedAt(blinkArray[..], listHead, order, 0);
      while p != NULL && blinkArray[p].node.location != location
        invariant 0 <= k <= |order| && p == LinkAt(order, k)
        invariant k < |order| ==> 0 <= p < blinkArray.Length && blinkArray[p].node == list[k]
        invariant forall j :: 0 <= j < k ==> list[j].location != location
        decreases |order| - k
      {
        LinkedAt(blinkArray[..], listHead, order, k);
        LinkedAt(blinkArray[..], listHead, order, k + 1);
        p := blinkArray[p].next;
        k := k + 1;
      }
      IndexIs(list, location, k);
    }

    /** mp1_ioctl_remove: the newest node with the location goes, its cell is free again, the others stay in order. */
    method Remove(location: nat) returns (r: int)
      requires Valid()
      modifies this, blinkArray
      ensures Valid()
      ensures var list := old(Contents()); var k := IndexOf(list, location);
              r == (if k < |list| then 0 else -1) && Contents() == Applied(list, RemoveOp(location))
    {
      ghost var k := IndexOf(Contents(), location);
      var p := FindHelper(location);
      if p == NULL {
        return -1;
      }
      var prev := FindPrevious(p, k);
      Unlink(p, prev, k);
      return 0;
    }

    /** The loop that looks for the pointer to `p`: the head's, or the link of the cell returned. */
    method FindPrevious(p: int, ghost k: nat) returns (prev: int)
      requires Valid() && k < |order| && p == order[k]
      ensures prev == if k == 0 then NULL else order[k - 1]
    {
      prev := NULL;
      var at := listHead;
      ghost var j := 0;
      while at != p
        invariant 0 <= j <= k && at == LinkAt(order, j)
        invariant prev == if j == 0 then NULL else order[j - 1]
        decreases k - j
      {
        assert at == order[j] && blinkArray[..][order[j]].next == LinkAt(order, j + 1);
        prev := at;
        at := blinkArray[at].next;
        j := j + 1;
      }
      SameCell(order, j, k);
    }

    /** mp1_free. */
    method FreeCell(p: nat)
      requires p < blinkArray.Length
      modifies blinkArray
      ensures blinkArray[..] == old(blinkArray[..])[p := FREE]
    {
      blinkArray[p] := FREE;
    }

    /** Takes a cell out of the list and frees it. */
    method Unlink(p: int, prev: int, ghost k: nat)
      requires Valid() && k < |order| && p == order[k]
      requires prev == if k == 0 then NULL else order[k - 1]
      modifies this, blinkArray
      ensures Valid() && Contents() == Without(old(Contents()), k)
    {
      ghost var pool, head := blinkArray[..], listHead;
      RemoveLinks(pool, head, order, k);
      var next := blinkArray[p].next;
      if prev == NULL {
        listHead := next;
      } else {
        blinkArray[prev] := blinkArray[prev].(next := next);
      }
      assert blinkArray[..][p := FREE] == Unlinked(pool, head, order, k).0;
      FreeCell(p);
      order := Dropped(order, k);
    }

    /** mp1_ioctl_sync: the newest node at `to` takes over lengths and phase of the newest node at `from`. */
    method Sync(from: nat, to: nat) returns (r: int)
      requires Valid()
      modifies blinkArray
      ensures Valid()
      ensures var list := old(Contents()); var i, j := IndexOf(list, from), IndexOf(list, to);
              r == (if i < |list| && j < |list| then 0 else -1) && Contents() == Applied(list, SyncOp(from, to))
      ensures r == 0 ==>
                var list, now := old(Contents()), Contents(); var source := list[IndexOf(list, from)]; var j := IndexOf(list, to);
                && |now| == |list|
                && now[j] == Node(list[j].location, list[j].onChar, list[j].offChar,
                                  source.onLength, source.offLength, source.countdown, source.on)
                && forall k :: 0 <= k < |list| && k != j ==> now[k] == list[k]
    {
      ghost var list := Contents();
      ghost var j := IndexOf(list, to);
      var p := FindHelper(from);
      if p == NULL {
        return -1;
      }
      var q := FindHelper(to);
      if q == NULL {
        return -1;
      }
      ghost var pool := blinkArray[..];
      var node := Synced(blinkArray[p].node, blinkArray[q].node);
      blinkArray[q] := blinkArray[q].(node := node);
      NodeChanged(pool, listHead, order, j, node);
      assert blinkArray[..] == pool[q := pool[q].(node := node)];
      return 0;
    }

    /** The body of the tasklet's loop. */
    method TickCell(p: nat)
      requires p < blinkArray.Length
      modifies blinkArray
      ensures blinkArray[..] == old(blinkArray[..])[p := old(blinkArray[p]).(node := Ticked(old(blinkArray[p].node)))]
    {
      var n := blinkArray[p].node;
      var c := (n.countdown - 1) % 0x1_0000;
      n := n.(countdown := c);
      if !(Signed(c) > 0) {
        n := n.(countdown := if n.on then n.offLength else n.onLength);
        n := n.(on := !n.on);
      }
      blinkArray[p] := blinkArray[p].(node := n);
    }

    /** mp1_rtc_tasklet: every node of the list ticks once. */
    method Tasklet()
      requires Valid()
      modifies blinkArray
      ensures Valid() && Contents() == Applied(old(Contents()), TickOp)
      ensures |Contents()| == |old(Contents())|
      ensures forall k :: 0 <= k < |Contents()| ==> Contents()[k] == Ticked(old(Contents())[k])
    {
      ghost var pool := blinkArray[..];
      var p := listHead;
      ghost var k := 0;
      while p != NULL
        invariant 0 <= k <= |order| && p == LinkAt(order, k)
        invariant PartlyTicked(pool, blinkArray[..], order, k)
        decreases |order| - k
      {
        ghost var before := blinkArray[..];
        TickCell(p);
        OneMoreTicked(pool, before, blinkArray[..], order, k);
        p := blinkArray[p].next;
        k := k + 1;
      }
      AllTicked(pool, blinkArray[..], listHead, order);
    }
  }

  // ---- Phases ----

  function Ticks(n: Node, k: nat): Node {
    if k == 0 then n else Ticked(Ticks(n, k - 1))
  }

  /**
   How many ticks a phase of a given 16-bit length takes: the lengths that are not positive as signed
   words, 0x8000 excepted, take one.
   */
  function Span(length: nat): (r: nat)
    ensures r >= 1
  {
    if 1 <= length <= 0x8000 then length else 1
  }

  /** The node `m` ticks into its period. */
  function Phase(n: Node, m: nat): Node {
    if m < Span(n.onLength) then n.(on := true, countdown := if m <= n.onLength then n.onLength - m else 0)
    else
      var k := m - Span(n.onLength);
      n.(on := false, countdown := if k <= n.offLength then n.offLength - k else 0)
  }

  /** One tick leads from each point of the period to the next, and from the last to the first. */
  lemma PhaseStep(n: Node, m: nat)
    requires n.onLength < 0x1_0000 && n.offLength < 0x1_0000
    requires m < Span(n.onLength) + Span(n.offLength)
    ensures Ticked(Phase(n, m)) ==
            Phase(n, if m + 1 == Span(n.onLength) + Span(n.offLength) then 0 else m + 1)
  {
  }

  lemma {:induction false} NextInPeriod(k: nat, period: nat)
    requires period >= 1
    ensures (k + 1) % period == if k % period + 1 == period then 0 else k % period + 1
  {
    var q, r := k / period, k % period;
    assert k == q * period + r;
    if r + 1 == period {
      assert (q + 1) * period == q * period + period;
      RemainderUnique(k + 1, period, q + 1, 0);
    } else {
      RemainderUnique(k + 1, period, q, r + 1);
    }
  }

  lemma {:induction false} RemainderUnique(x: nat, period: nat, q: nat, r: nat)
    requires r < period && x == q * period + r
    ensures x % period == r
  {
    var p, t := x / period, x % period;
    assert x == p * period + t;
    if p < q {
      Monotone(p + 1, q, period);
      assert false;
    } else if p > q {
      Monotone(q + 1, p, period);
      assert false;
    }
  }

  lemma Monotone(a: nat, b: nat, m: nat)
    requires a <= b
    ensures a * m <= b * m
    ensures a >= 1 ==> a * m == (a - 1) * m + m
  {
  }

  /**
   Closed form: k ticks after an add the node is m = k mod (on + off) ticks into its period: on with
   countdown on - m while m is below on, then off with countdown on + off - m.  This holds for every
   pair of 16-bit lengths once 0 and the lengths above 0x8000 are taken to last one tick.
   */
  lemma {:induction false} PhaseClosedForm(user: Node, k: nat)
    requires user.onLength < 0x1_0000 && user.offLength < 0x1_0000
    ensures Ticks(Started(user), k) == Phase(user, k % (Span(user.onLength) + Span(user.offLength)))
  {
    var period := Span(user.onLength) + Span(user.offLength);
    if k == 0 {
      assert 0 % period == 0;
    } else {
      PhaseClosedForm(user, k - 1);
      PhaseStep(user, (k - 1) % period);
      NextInPeriod(k - 1, period);
    }
  }

  /** For lengths from 1 to 0x7FFF, in the terms of the lengths themselves. */
  lemma {:induction false} PhaseOrdinary(user: Node, k: nat)
    requires 1 <= user.onLength < 0x8000 && 1 <= user.offLength < 0x8000
    ensures var n := Ticks(Started(user), k); var m := k % (user.onLength + user.offLength);
            if m < user.onLength then n.on && n.countdown == user.onLength - m
            else !n.on && n.countdown == user.onLength + user.offLength - m
  {
    PhaseClosedForm(user, k);
  }

  /** Equal lengths and phase stay equal at every later tick: a synced node blinks with its source. */
  lemma {:induction false} SyncedStaysInPhase(source: Node, target: Node, k: nat)
    ensures var a, b := Ticks(source, k), Ticks(Synced(source, target), k);
            a.on == b.on && a.countdown == b.countdown && a.onLength == b.onLength && a.offLength == b.offLength
  {
    if k > 0 {
      SyncedStaysInPhase(source, target, k - 1);
    }
  }

  function TicksAll(list: seq<Node>, k: nat): (r: seq<Node>)
    ensures |r| == |list|
  {
    if k == 0 then list else TickedAll(TicksAll(list, k - 1))
  }

  /** k runs of the tasklet give every node of the list its own k ticks. */
  lemma {:induction false} TicksAllAt(list: seq<Node>, k: nat, i: nat)
    requires i < |list|
    ensures TicksAll(list, k)[i] == Ticks(list[i], k)
  {
    if k > 0 {
      TicksAllAt(list, k - 1, i);
    }
  }
}
