/**
 The blink list over whole runs: for someone who looks at one location only, the list is a stack of
 character pairs of its own, whatever is done at the other locations.
 */
module BlinkRuns {
  import opened Text
  import opened Blink

  /** What a node shows. */
  datatype Pair = Pair(onChar: byte, offChar: byte)

  function PairOf(n: Node): Pair {
    Pair(n.onChar, n.offChar)
  }

  /** The nodes of one location, newest first. */
  function StackAt(list: seq<Node>, location: nat): seq<Pair> {
    if list == [] then []
    else (if list[0].location == location then [PairOf(list[0])] else []) + StackAt(list[1..], location)
  }

  /** A lookup finds the top of the location's stack, and nothing exactly when the stack is empty. */
  lemma {:induction false} FindsTheTop(list: seq<Node>, location: nat)
    ensures var k, stack := IndexOf(list, location), StackAt(list, location);
            if k < |list| then stack != [] && stack[0] == PairOf(list[k]) else stack == []
  {
    if list != [] && list[0].location != location {
      FindsTheTop(list[1..], location);
      assert IndexOf(list, location) == 1 + IndexOf(list[1..], location);
    }
  }

  /** Nodes that change neither place nor characters leave every stack as it is. */
  lemma {:induction false} StacksStay(list: seq<Node>, after: seq<Node>, location: nat)
    requires |after| == |list|
    requires forall i :: 0 <= i < |list| ==> after[i].location == list[i].location && PairOf(after[i]) == PairOf(list[i])
    ensures StackAt(after, location) == StackAt(list, location)
  {
    if list != [] {
      StacksStay(list[1..], after[1..], location);
    }
  }

  /** Taking out the newest node of a location takes the top off its stack, and off no other. */
  lemma {:induction false} TopRemoved(list: seq<Node>, k: nat, location: nat)
    requires k < |list| && forall i :: 0 <= i < k ==> list[i].location != list[k].location
    ensures var stack := StackAt(list, location);
            if list[k].location == location then stack != [] && StackAt(Without(list, k), location) == stack[1..]
            else StackAt(Without(list, k), location) == stack
  {
    var rest := Without(list, k);
    if k == 0 {
      assert rest == list[1..];
    } else {
      TopRemoved(list[1..], k - 1, location);
      assert rest[0] == list[0] && rest[1..] == Without(list[1..], k - 1);
    }
  }

  // ---- Runs ----

  /** What an operation means to one location. */
  datatype Event = Push(pair: Pair) | Pop

  function Addressed(list: seq<Node>, op: Op, location: nat): seq<Event> {
    match op
    case AddOp(n) => if n.location == location < 2000 && |list| < 2000 then [Push(PairOf(n))] else []
    case RemoveOp(l) => if l == location then [Pop] else []
    case _ => []
  }

  function Stacked(stack: seq<Pair>, events: seq<Event>): seq<Pair>
    decreases |events|
  {
    if events == [] then stack
    else
      var next := match events[0] case Push(p) => [p] + stack case Pop => if stack == [] then [] else stack[1..];
      Stacked(next, events[1..])
  }

  function AppliedAll(list: seq<Node>, ops: seq<Op>): seq<Node>
    decreases |ops|
  {
    if ops == [] then list else AppliedAll(Applied(list, ops[0]), ops[1..])
  }

  function EventsAt(list: seq<Node>, ops: seq<Op>, location: nat): seq<Event>
    decreases |ops|
  {
    if ops == [] then [] else Addressed(list, ops[0], location) + EventsAt(Applied(list, ops[0]), ops[1..], location)
  }

  lemma StackStep(list: seq<Node>, op: Op, location: nat)
    ensures StackAt(Applied(list, op), location) == Stacked(StackAt(list, location), Addressed(list, op, location))
  {
    var after := Applied(list, op);
    match op {
      case AddOp(n) =>
        if n.location < 2000 && |list| < 2000 {
          assert after[1..] == list;
        }
      case RemoveOp(l) =>
        FindsTheTop(list, location);
        if IndexOf(list, l) < |list| {
          TopRemoved(list, IndexOf(list, l), location);
        }
      case SyncOp(from, to) => StacksStay(list, after, location);
      case TickOp => StacksStay(list, after, location);
    }
  }

  lemma {:induction false} StackedAppend(stack: seq<Pair>, es: seq<Event>, fs: seq<Event>)
    requires |es| <= 1
    ensures Stacked(stack, es + fs) == Stacked(Stacked(stack, es), fs)
  {
    if es == [] {
      assert es + fs == fs;
    } else {
      assert (es + fs)[1..] == fs && es[1..] == [];
    }
  }

  /**
   Over any run of adds, removes, syncs and ticks, the nodes at a location are what its own accepted
   adds and its own removes make of a stack; nothing done at other locations, no sync and no tick
   changes which characters blink there, or in which order a remove uncovers them.
   */
  lemma {:induction false} StacksOfRun(list: seq<Node>, ops: seq<Op>, location: nat)
    ensures StackAt(AppliedAll(list, ops), location)
         == Stacked(StackAt(list, location), EventsAt(list, ops, location))
    decreases |ops|
  {
    if ops != [] {
      var after := Applied(list, ops[0]);
      StackStep(list, ops[0], location);
      StacksOfRun(after, ops[1..], location);
      StackedAppend(StackAt(list, location), Addressed(list, ops[0], location), EventsAt(after, ops[1..], location));
    }
  }

  // ---- Runs of the pool ----

  /** Whether every add is at a location other than 0. */
  ghost predicate NoZeros(ops: seq<Op>) {
    forall i :: 0 <= i < |ops| ==> ops[i].AddOp? ==> ops[i].node.location != 0
  }

  /** One operation, by the routine that performs it. */
  method Perform(list: BlinkList, op: Op)
    requires list.Valid() && (op.AddOp? ==> op.node.location != 0)
    modifies list, list.blinkArray
    ensures list.Valid() && list.Contents() == Applied(old(list.Contents()), op)
  {
    match op {
      case AddOp(node) =>
        var r := list.Add(node);
      case RemoveOp(location) =>
        var r := list.Remove(location);
      case SyncOp(from, to) =>
        var r := list.Sync(from, to);
      case TickOp => list.Tasklet();
    }
  }

  lemma {:induction false} AppliedMore(list: seq<Node>, ops: seq<Op>, i: nat)
    requires i < |ops|
    ensures AppliedAll(list, ops[i..]) == AppliedAll(Applied(list, ops[i]), ops[i + 1..])
  {
    assert ops[i..][0] == ops[i] && ops[i..][1..] == ops[i + 1..];
  }

  /**
   Any run of the routines on the pool, with adds at locations other than 0: the list stays well linked,
   and at every location it is the stack of that location's own accepted adds and removes.
   */
  method PerformAll(list: BlinkList, ops: seq<Op>)
    requires list.Valid() && NoZeros(ops)
    modifies list, list.blinkArray
    ensures list.Valid() && list.Contents() == AppliedAll(old(list.Contents()), ops)
    ensures forall location :: StackAt(list.Contents(), location)
                            == Stacked(StackAt(old(list.Contents()), location), EventsAt(old(list.Contents()), ops, location))
  {
    ghost var start := list.Contents();
    var i := 0;
    while i < |ops|
      invariant 0 <= i <= |ops| && list.Valid()
      invariant AppliedAll(list.Contents(), ops[i..]) == AppliedAll(start, ops)
    {
      AppliedMore(list.Contents(), ops, i);
      Perform(list, ops[i]);
      i := i + 1;
    }
    forall location ensures StackAt(list.Contents(), location)
                         == Stacked(StackAt(start, location), EventsAt(start, ops, location)) {
      StacksOfRun(start, ops, location);
    }
  }

  // ---- What blinks, and when ----

  /** Any number of runs of the tasklet: every node has had its own ticks. */
  method Wait(list: BlinkList, k: nat)
    requires list.Valid()
    modifies list, list.blinkArray
    ensures list.Valid() && |list.Contents()| == |old(list.Contents())|
    ensures forall i :: 0 <= i < |list.Contents()| ==> list.Contents()[i] == Ticks(old(list.Contents())[i], k)
  {
    var n := 0;
    while n < k
      invariant 0 <= n <= k && list.Valid() && |list.Contents()| == |old(list.Contents())|
      invariant forall i :: 0 <= i < |list.Contents()| ==> list.Contents()[i] == Ticks(old(list.Contents())[i], n)
    {
      list.Tasklet();
      n := n + 1;
    }
  }

  /** Ticks change nothing of a node but its status and its countdown. */
  lemma {:induction false} TicksKeep(n: Node, k: nat)
    ensures var r := Ticks(n, k); r == n.(on := r.on, countdown := r.countdown)
  {
    if k > 0 {
      TicksKeep(n, k - 1);
    }
  }

  /**
   An add and any number of runs of the tasklet: the new node is in front, with its characters, on for its
   on length and off for its off length in turn, from the add on; every older node has ticked as often.
   */
  method AddThenWait(list: BlinkList, user: Node, k: nat)
    requires list.Valid() && 0 < user.location < 2000 && |list.Contents()| < 2000
    requires 1 <= user.onLength < 0x8000 && 1 <= user.offLength < 0x8000
    modifies list, list.blinkArray
    ensures list.Valid() && |list.Contents()| == |old(list.Contents())| + 1
    ensures var n := list.Contents()[0]; var m := k % (user.onLength + user.offLength);
            && n == user.(on := n.on, countdown := n.countdown)
            && if m < user.onLength then n.on && n.countdown == user.onLength - m
               else !n.on && n.countdown == user.onLength + user.offLength - m
    ensures forall i :: 0 <= i < |old(list.Contents())| ==> list.Contents()[i + 1] == Ticks(old(list.Contents())[i], k)
  {
    var r := list.Add(user);
    Wait(list, k);
    PhaseOrdinary(user, k);
    TicksKeep(Started(user), k);
  }

  /**
   A sync and any number of runs of the tasklet: the newest node at `to` shows its own characters in the
   phase that the newest node at `from`, left alone, would have come to; that one and all others are where
   they would have been without the sync.
   */
  method SyncThenWait(list: BlinkList, from: nat, to: nat, k: nat) returns (r: int)
    requires list.Valid()
    modifies list, list.blinkArray
    ensures list.Valid() && |list.Contents()| == |old(list.Contents())|
    ensures var was := old(list.Contents());
            r == if IndexOf(was, from) < |was| && IndexOf(was, to) < |was| then 0 else -1
    ensures r == 0 ==>
              var was, now := old(list.Contents()), list.Contents(); var i, j := IndexOf(was, from), IndexOf(was, to);
              var source := Ticks(was[i], k);
              && now[j] == source.(location := was[j].location, onChar := was[j].onChar, offChar := was[j].offChar)
              && forall h :: 0 <= h < |was| && h != j ==> now[h] == Ticks(was[h], k)
  {
    ghost var was := list.Contents();
    r := list.Sync(from, to);
    ghost var mid := list.Contents();
    Wait(list, k);
    if r == 0 {
      var i, j := IndexOf(was, from), IndexOf(was, to);
      SyncedStaysInPhase(was[i], was[j], k);
      TicksKeep(mid[j], k);
      TicksKeep(was[i], k);
    }
  }
}
