/** The linked list of fish/blink.S inside the static pool of fish/fish.c, proved to be the sequence
    of module Blinks. A pointer is a slot number; NULL is -1. */
module BlinkPools {
  import opened Bytes
  import opened Blinks
  import opened Counting

  const NULL := -1

  datatype Slot = Slot(blink: Blink, next: int)

  const ZEROED := Slot(Blink(0, 0, 0, 0, 0, 0, 0), NULL)

  /** `chain` lists the nodes from `head` on; a slot is a node exactly when its location is not 0. */
  ghost predicate IsChain(pool: seq<Slot>, head: int, chain: seq<nat>) {
    |pool| == POSITIONS && Nodes(chain) && Links(pool, head, chain) && Members(pool, chain)
  }

  ghost predicate Nodes(chain: seq<nat>) {
    && (forall i :: 0 <= i < |chain| ==> chain[i] < POSITIONS)
    && (forall i, j :: 0 <= i < j < |chain| ==> chain[i] != chain[j])
  }

  ghost predicate Links(pool: seq<Slot>, head: int, chain: seq<nat>)
    requires |pool| == POSITIONS && Nodes(chain)
  {
    && head == Link(chain, 0)
    && forall i {:trigger pool[chain[i]]} :: 0 <= i < |chain| ==> pool[chain[i]].next == Link(chain, i + 1)
  }

  ghost predicate Members(pool: seq<Slot>, chain: seq<nat>)
    requires |pool| == POSITIONS
  {
    forall p {:trigger pool[p]} :: 0 <= p < POSITIONS ==> (pool[p].blink.location != 0 <==> p in chain)
  }

  ghost predicate OnScreen(pool: seq<Slot>, chain: seq<nat>)
    requires |pool| == POSITIONS && Nodes(chain)
  {
    forall i :: 0 <= i < |chain| ==> pool[chain[i]].blink.location < POSITIONS
  }

  /** The pointer to the chain's `i`th node. */
  function Link(chain: seq<nat>, i: nat): int {
    if i < |chain| then chain[i] else NULL
  }

  ghost function ListOf(pool: seq<Slot>, chain: seq<nat>): seq<Blink>
    requires forall i :: 0 <= i < |chain| ==> chain[i] < |pool|
  {
    seq(|chain|, i requires 0 <= i < |chain| => pool[chain[i]].blink)
  }

  // ---- Pure pointer manipulations ----

  /** The first free slot from `from` on, or NULL: mp1_malloc. */
  function FirstFree(pool: seq<Slot>, from: nat): (p: int)
    requires from <= |pool|
    ensures p == NULL || (from <= p < |pool| && pool[p].blink.location == 0)
    ensures forall q :: from <= q < (if p == NULL then |pool| else p) ==> pool[q].blink.location != 0
    decreases |pool| - from
  {
    if from == |pool| then NULL
    else if pool[from].blink.location == 0 then from
    else FirstFree(pool, from + 1)
  }

  /** The stores of a successful ADD into slot `p`. */
  function Linked(pool: seq<Slot>, head: int, p: nat, b: Blink): (seq<Slot>, int)
    requires p < |pool|
  {
    (pool[p := Slot(Started(b), head)], p)
  }

  /** The stores of a REMOVE of slot `p`, whose predecessor is `prev` (NULL at the head). */
  function Unlinked(pool: seq<Slot>, head: int, p: nat, prev: int): (r: (seq<Slot>, int))
    requires p < |pool| && NULL <= prev < |pool|
    ensures |r.0| == |pool| && r.1 == if prev == NULL then pool[p].next else head
    ensures forall q {:trigger r.0[q]} :: 0 <= q < |pool| ==>
      r.0[q] == if q == p then ZEROED else if q == prev then pool[q].(next := pool[p].next) else pool[q]
  {
    var next := pool[p].next;
    if prev == NULL then (pool[p := ZEROED], next)
    else (pool[prev := pool[prev].(next := next)][p := ZEROED], head)
  }

  lemma LinkedIsChain(pool: seq<Slot>, head: int, chain: seq<nat>, p: nat, b: Blink)
    requires IsChain(pool, head, chain) && p < |pool| && pool[p].blink.location == 0 && b.location != 0
    ensures var (pool', head') := Linked(pool, head, p, b);
            && IsChain(pool', head', [p] + chain)
            && ListOf(pool', [p] + chain) == [Started(b)] + ListOf(pool, chain)
  {
    LinkedMembers(pool, head, chain, p, b);
    hide Members;
    forall i: nat | i < |chain| + 1
      ensures Linked(pool, head, p, b).0[([p] + chain)[i]].next == Link([p] + chain, i + 1)
    {
      LinkedAt(pool, head, chain, p, b, i);
    }
  }

  lemma LinkedMembers(pool: seq<Slot>, head: int, chain: seq<nat>, p: nat, b: Blink)
    requires |pool| == POSITIONS && Nodes(chain) && Members(pool, chain)
    requires p < |pool| && pool[p].blink.location == 0 && b.location != 0
    ensures p !in chain && Nodes([p] + chain) && Members(Linked(pool, head, p, b).0, [p] + chain)
    ensures ListOf(Linked(pool, head, p, b).0, [p] + chain) == [Started(b)] + ListOf(pool, chain)
  {}

  lemma LinkedAt(pool: seq<Slot>, head: int, chain: seq<nat>, p: nat, b: Blink, i: nat)
    requires IsChain(pool, head, chain) && p < |pool| && p !in chain && i < |chain| + 1
    ensures Linked(pool, head, p, b).0[([p] + chain)[i]].next == Link([p] + chain, i + 1)
  {
    hide Members;
    if i > 0 {
      assert ([p] + chain)[i] == chain[i - 1] && pool[chain[i - 1]].next == Link(chain, i);
    }
  }

  lemma UnlinkedIsChain(pool: seq<Slot>, head: int, chain: seq<nat>, k: nat)
    requires IsChain(pool, head, chain) && k < |chain|
    ensures var (pool', head') := Unlinked(pool, head, chain[k], if k == 0 then NULL else chain[k - 1]);
            && IsChain(pool', head', Without(chain, k))
            && ListOf(pool', Without(chain, k)) == Without(ListOf(pool, chain), k)
  {
    UnlinkedNodes(chain, k);
    UnlinkedLinks(pool, head, chain, k);
    UnlinkedMembers(pool, head, chain, k);
  }

  lemma UnlinkedNodes(chain: seq<nat>, k: nat)
    requires k < |chain| && Nodes(chain)
    ensures Nodes(Without(chain, k))
    ensures forall q :: q in Without(chain, k) <==> q in chain && q != chain[k]
  {
    var chain' := Without(chain, k);
    forall q ensures q in chain' <==> q in chain && q != chain[k] {
      if q in chain && q != chain[k] {
        var i :| 0 <= i < |chain| && chain[i] == q;
        assert chain'[if i < k then i else i - 1] == q;
      }
    }
  }

  lemma UnlinkedMembers(pool: seq<Slot>, head: int, chain: seq<nat>, k: nat)
    requires IsChain(pool, head, chain) && k < |chain|
    ensures Members(Unlinked(pool, head, chain[k], if k == 0 then NULL else chain[k - 1]).0, Without(chain, k))
  {
    UnlinkedNodes(chain, k);
    var pool' := Unlinked(pool, head, chain[k], if k == 0 then NULL else chain[k - 1]).0;
    hide Links, Without, Nodes, Unlinked;
    forall q | 0 <= q < POSITIONS ensures pool'[q].blink.location != 0 <==> q in Without(chain, k) {
      assert pool[q].blink.location != 0 <==> q in chain;
    }
  }

  lemma UnlinkedAt(pool: seq<Slot>, head: int, chain: seq<nat>, k: nat, i: nat)
    requires IsChain(pool, head, chain) && k < |chain| && i < |chain| - 1
    ensures var pool' := Unlinked(pool, head, chain[k], if k == 0 then NULL else chain[k - 1]).0;
            var chain' := Without(chain, k);
            && pool'[chain'[i]].next == Link(chain', i + 1)
            && pool'[chain'[i]].blink == Without(ListOf(pool, chain), k)[i]
  {
    hide Members, Without, Unlinked;
    var i' := if i < k then i else i + 1;
    assert Without(chain, k)[i] == chain[i'] && chain[i'] != chain[k];
    assert k != 0 && i != k - 1 ==> chain[i'] != chain[k - 1];
    assert pool[chain[i']].next == Link(chain, i' + 1) && pool[chain[k]].next == Link(chain, k + 1);
    hide Nodes, Links;
  }

  lemma UnlinkedLinks(pool: seq<Slot>, head: int, chain: seq<nat>, k: nat)
    requires IsChain(pool, head, chain) && k < |chain|
    ensures var (pool', head') := Unlinked(pool, head, chain[k], if k == 0 then NULL else chain[k - 1]);
            && Nodes(Without(chain, k)) && Links(pool', head', Without(chain, k))
            && ListOf(pool', Without(chain, k)) == Without(ListOf(pool, chain), k)
  {
    UnlinkedNodes(chain, k);
    assert pool[chain[k]].next == Link(chain, k + 1);
    hide Members, Without, Unlinked;
    forall i: nat | i < |chain| - 1
      ensures var pool' := Unlinked(pool, head, chain[k], if k == 0 then NULL else chain[k - 1]).0;
              && pool'[Without(chain, k)[i]].next == Link(Without(chain, k), i + 1)
              && pool'[Without(chain, k)[i]].blink == Without(ListOf(pool, chain), k)[i]
    {
      UnlinkedAt(pool, head, chain, k, i);
    }
  }

  /** Replacing the contents of a node, its location aside, keeps the chain. */
  lemma RelabelledNode(pool: seq<Slot>, head: int, chain: seq<nat>, k: nat, b: Blink)
    requires IsChain(pool, head, chain) && k < |chain| && b.location == pool[chain[k]].blink.location
    ensures var pool' := pool[chain[k] := pool[chain[k]].(blink := b)];
            && IsChain(pool', head, chain) && ListOf(pool', chain) == ListOf(pool, chain)[k := b]
            && (OnScreen(pool, chain) ==> OnScreen(pool', chain))
  {
    var pool' := pool[chain[k] := pool[chain[k]].(blink := b)];
    forall i | 0 <= i < |chain| ensures pool'[chain[i]].next == Link(chain, i + 1) {
      assert pool[chain[i]].next == Link(chain, i + 1);
    }
  }

  lemma LocationsWithout(pool: seq<Slot>, chain: seq<nat>, pool': seq<Slot>, k: nat)
    requires k < |chain| && |pool| == |pool'| == POSITIONS && Nodes(chain) && Nodes(Without(chain, k))
    requires ListOf(pool', Without(chain, k)) == Without(ListOf(pool, chain), k)
    requires OnScreen(pool, chain)
    ensures OnScreen(pool', Without(chain, k))
  {
    forall i | 0 <= i < |chain| - 1 ensures pool'[Without(chain, k)[i]].blink.location < POSITIONS {
      assert pool'[Without(chain, k)[i]].blink == ListOf(pool', Without(chain, k))[i];
    }
  }

  lemma TickVideoStep(list: seq<Blink>, i: nat, video: seq<Byte>)
    requires Fish(list, video).Ok() && i < |list|
    ensures TickVideo(list[i..], video)
         == TickVideo(list[i + 1..],
                      if list[i].Toggles() then Poke(video, list[i].location, list[i].Tick().Shown()) else video)
  {
    assert list[i..][1..] == list[i + 1..];
  }

  lemma TickEnds(list: seq<Blink>, video: seq<Byte>)
    requires Fish(list, video).Ok()
    ensures list[0..] == list && TickList(list[..0]) + list[0..] == list
    ensures TickList(list[..|list|]) + list[|list|..] == TickList(list) && TickVideo(list[|list|..], video) == video
  {
    assert list[..|list|] == list;
  }

  lemma TickListStep(list: seq<Blink>, i: nat)
    requires i < |list|
    ensures (TickList(list[..i]) + list[i..])[i := list[i].Tick()] == TickList(list[..i + 1]) + list[i + 1..]
  {}

  /** Nodes are distinct slots, so the list is full exactly when no slot is free. */
  lemma FullPool(pool: seq<Slot>, head: int, chain: seq<nat>)
    requires IsChain(pool, head, chain)
    ensures |chain| <= POSITIONS
    ensures FirstFree(pool, 0) == NULL <==> |chain| == POSITIONS
  {
    DistinctBelow(chain, POSITIONS);
    var p := FirstFree(pool, 0);
    hide Links;
    if p != NULL {
      assert p !in chain;
    } else {
      forall q | 0 <= q < POSITIONS ensures q in chain {
        assert pool[q].blink.location != 0;
      }
    }
  }

  /** A node at location 0 still looks free: no chain describes the pool after such an ADD ... */
  lemma ZeroLocationBreaksChain(pool: seq<Slot>, head: int, p: nat, b: Blink, chain: seq<nat>)
    requires p < |pool| && b.location == 0
    ensures var (pool', head') := Linked(pool, head, p, b); !IsChain(pool', head', chain)
  {
    var (pool', head') := Linked(pool, head, p, b);
    assert pool'[p].blink.location == 0;
  }

  /** ... and the next ADD takes the same slot again and links it to itself. */
  lemma ZeroLocationMakesCycle(pool: seq<Slot>, head: int, b: Blink, c: Blink)
    requires FirstFree(pool, 0) != NULL && b.location == 0
    ensures var (pool1, head1) := Linked(pool, head, FirstFree(pool, 0), b);
            var p := FirstFree(pool1, 0);
            p != NULL &&
            var (pool2, head2) := Linked(pool1, head1, p, c);
            head2 == p && pool2[p].next == p
  {
    var p := FirstFree(pool, 0);
    var (pool1, head1) := Linked(pool, head, p, b);
    assert pool1[p].blink.location == 0;
  }

  // ---- The driver ----

  class Driver {
    const pool: array<Slot>
    const vmem: array<Byte>
    var head: int
    ghost var chain: seq<nat>

    ghost predicate Valid()
      reads this, pool, vmem
    {
      IsChain(pool[..], head, chain) && vmem.Length == 2 * POSITIONS && (pool as object) != vmem
      && OnScreen(pool[..], chain)
    }

    ghost function View(): (f: Fish)
      requires Valid()
      reads this, pool, vmem
    {
      Fish(ListOf(pool[..], chain), vmem[..])
    }

    /** A zeroed pool and an empty list. */
    constructor (vmem: array<Byte>)
      requires vmem.Length == 2 * POSITIONS
      ensures Valid() && fresh(pool) && this.vmem == vmem && View() == Fish([], vmem[..])
    {
      pool := new Slot[POSITIONS](_ => ZEROED);
      this.vmem := vmem;
      head, chain := NULL, [];
    }

    /** mp1_malloc */
    method Malloc() returns (p: int)
      ensures p == FirstFree(pool[..], 0)
    {
      var i := 0;
      while i < pool.Length
        invariant 0 <= i <= pool.Length && FirstFree(pool[..], 0) == FirstFree(pool[..], i)
      {
        if pool[i].blink.location == 0 {
          return i;
        }
        i := i + 1;
      }
      return NULL;
    }

    /** mp1_find_helper */
    method FindHelper(location: Word) returns (p: int)
      requires Valid()
      ensures var k := FirstAt(View().list, location); p == if k == -1 then NULL else chain[k]
    {
      p := head;
      ghost var i := 0;
      while p != NULL
        invariant 0 <= i <= |chain| && p == Link(chain, i)
        invariant forall j :: 0 <= j < i ==> View().list[j].location != location
        decreases |chain| - i
      {
        if pool[p].blink.location == location {
          FirstAtIs(View().list, location, i);
          return;
        }
        p, i := pool[p].next, i + 1;
      }
      FirstAtIs(View().list, location, -1);
    }

    /** mp1_ioctl_add. A location of 0 is accepted too, and then nothing is a valid chain any more. */
    method IoctlAdd(user: Blink) returns (r: int)
      requires Valid()
      modifies this, pool, vmem
      ensures r == if Accepts(old(View()), user) then 0 else -1
      ensures r == -1 ==> Valid() && View() == old(View())
      ensures r == 0 && user.location != 0 ==> Valid() && View() == Add(old(View()), user)
      ensures r == 0 && user.location == 0 ==> forall c :: !IsChain(pool[..], head, c)
    {
      FullPool(pool[..], head, chain);
      if user.location >= POSITIONS {
        return -1;
      }
      var temp := Started(user);
      var p := Malloc();
      if p == NULL {
        return -1;
      }
      ghost var was, wasHead := pool[..], head;
      pool[p] := Slot(temp, head);
      head := p;
      vmem[2 * temp.location] := temp.onChar;
      assert pool[..] == Linked(was, wasHead, p, user).0;
      if user.location != 0 {
        LinkedIsChain(was, wasHead, chain, p, user);
        chain := [p] + chain;
      } else {
        forall c ensures !IsChain(pool[..], head, c) {
          ZeroLocationBreaksChain(was, wasHead, p, user, c);
        }
      }
      return 0;
    }

    /** The walk of remove from the list head to the pointer that leads to `p`. */
    method FindPrev(p: nat, ghost k: nat) returns (prev: int)
      requires Valid() && k < |chain| && p == chain[k]
      ensures prev == if k == 0 then NULL else chain[k - 1]
    {
      prev := NULL;
      var at := head;
      ghost var i := 0;
      while at != p
        invariant 0 <= i <= k && at == chain[i] && prev == if i == 0 then NULL else chain[i - 1]
        decreases k - i
      {
        assert pool[chain[i]].next == Link(chain, i + 1);
        prev, at, i := at, pool[at].next, i + 1;
      }
    }

    /** mp1_ioctl_remove */
    method IoctlRemove(location: Word) returns (r: int)
      requires Valid()
      modifies this, pool
      ensures Valid() && View() == Remove(old(View()), location)
      ensures r == if FirstAt(old(View()).list, location) == -1 then -1 else 0
    {
      var p := FindHelper(location);
      if p == NULL {
        return -1;
      }
      ghost var k := FirstAt(View().list, location);
      var prev := FindPrev(p, k);
      Unlink(p, prev, k);
      return 0;
    }

    /** The removal proper and mp1_free. */
    method Unlink(p: nat, prev: int, ghost k: nat)
      requires Valid() && k < |chain| && p == chain[k]
      requires prev == if k == 0 then NULL else chain[k - 1]
      modifies this, pool
      ensures Valid() && chain == Without(old(chain), k)
      ensures View() == old(View()).(list := Without(old(View()).list, k))
    {
      ghost var was, wasHead := pool[..], head;
      UnlinkedIsChain(was, wasHead, chain, k);
      hide Links, Members, Nodes;
      var next := pool[p].next;
      if prev == NULL {
        head := next;
      } else {
        pool[prev] := pool[prev].(next := next);
      }
      pool[p] := ZEROED;
      assert pool[..] == Unlinked(was, wasHead, p, prev).0;
      chain := Without(chain, k);
      LocationsWithout(was, old(chain), pool[..], k);
    }

    /** mp1_ioctl_find: the found structure is copied out. */
    method IoctlFind(location: Word) returns (r: int, found: Option<Blink>)
      requires Valid()
      ensures var list := View().list; var k := FirstAt(list, location);
              if k == -1 then r == -1 && found == None else r == 0 && found == Some(list[k])
    {
      var p := FindHelper(location);
      if p == NULL {
        return -1, None;
      }
      return 0, Some(pool[p].blink);
    }

    /** mp1_ioctl_sync: the high half of the argument names the source, the low half the target. */
    method IoctlSync(from: Word, to: Word) returns (r: int)
      requires Valid()
      modifies pool, vmem
      ensures Valid() && View() == Sync(old(View()), from, to)
      ensures var list := old(View()).list;
              r == if FirstAt(list, from) == -1 || FirstAt(list, to) == -1 then -1 else 0
    {
      var source := FindHelper(from);
      if source == NULL {
        return -1;
      }
      var target := FindHelper(to);
      if target == NULL {
        return -1;
      }
      ghost var was, k := pool[..], FirstAt(View().list, to);
      var synced := Synced(pool[source].blink, pool[target].blink);
      RelabelledNode(was, head, chain, k, synced);
      assert was[target].blink.location < POSITIONS;
      hide Links, Members, OnScreen;
      pool[target] := pool[target].(blink := synced);
      vmem[2 * pool[target].blink.location] := pool[target].blink.offChar;
      assert pool[..] == was[target := was[target].(blink := synced)];
      return 0;
    }

    /** The first `i` nodes have been ticked; ticking the rest leads to `goal`. */
    ghost predicate HalfTicked(list: seq<Blink>, i: nat, goal: Fish)
      reads this, pool, vmem
    {
      && Valid() && i <= |chain| == |list| && Fish(list, vmem[..]).Ok()
      && ListOf(pool[..], chain) == TickList(list[..i]) + list[i..]
      && goal == Fish(TickList(list), TickVideo(list[i..], vmem[..]))
    }

    /** mp1_rtc_tasklet */
    method Tasklet()
      requires Valid()
      modifies pool, vmem
      ensures Valid() && View() == TickAll(old(View()))
    {
      ghost var list, goal := View().list, TickAll(View());
      TickEnds(list, vmem[..]);
      hide Links, Members, Nodes, OnScreen, TickList, TickVideo;
      var p := head;
      ghost var i := 0;
      while p != NULL
        invariant HalfTicked(list, i, goal) && i <= |chain| && p == Link(chain, i)
        decreases |chain| - i
      {
        hide ListOf, HalfTicked;
        p := TickNode(p, i, list, goal);
        i := i + 1;
      }
      TickEnds(list, vmem[..]);
    }

    /** One round of the tasklet's loop. */
    method TickNode(p: nat, ghost i: nat, ghost list: seq<Blink>, ghost goal: Fish) returns (next: int)
      requires HalfTicked(list, i, goal) && i < |chain| && p == chain[i]
      modifies pool, vmem
      ensures HalfTicked(list, i + 1, goal) && i + 1 <= |chain| && next == Link(chain, i + 1)
    {
      ghost var was, before := pool[..], ListOf(pool[..], chain);
      assert was[chain[i]].next == Link(chain, i + 1) && before[i] == list[i];
      TickVideoStep(list, i, vmem[..]);
      TickListStep(list, i);
      RelabelledNode(was, head, chain, i, list[i].Tick());
      assert was[p].blink.location < POSITIONS;
      hide Links, Members, Nodes, OnScreen, TickVideo, TickList;
      TickBlink(p);
      next := pool[p].next;
    }

    /** One node's countdown, and at its end the display and the status. */
    method TickBlink(p: nat)
      requires vmem.Length == 2 * POSITIONS && (pool as object) != vmem
      requires p < pool.Length && pool[p].blink.location < POSITIONS
      modifies pool, vmem
      ensures var b := old(pool[p].blink);
              && pool[..] == old(pool[..])[p := old(pool[p]).(blink := b.Tick())]
              && vmem[..] == if b.Toggles() then Poke(old(vmem[..]), b.location, b.Tick().Shown()) else old(vmem[..])
    {
      var b := pool[p].blink;
      pool[p] := pool[p].(blink := b.(countdown := b.Decremented()));
      if b.Toggles() {
        if b.On() {
          vmem[2 * b.location] := b.offChar;
          pool[p] := pool[p].(blink := b.(countdown := b.offLength, status := b.status - 1));
        } else {
          vmem[2 * b.location] := b.onChar;
          pool[p] := pool[p].(blink := b.(countdown := b.onLength, status := b.status + 1));
        }
      }
    }
  }
}
