/** The skip list (leveldb/db/skiplist.h). Its invariant holds after every single link store of Insert, so a
    reader that runs at any moment sees a sorted list at every level, with the old or the new keys. */
module SkipLists {

  /** A key, by its rank in the comparator's order. */
  type Key = real

  const MAX_HEIGHT := 12

  class Node {
    const key: Key
    var next: seq<Node?>

    constructor (key: Key, height: nat)
      ensures this.key == key && |next| == height && forall l :: 0 <= l < height ==> next[l] == null
    {
      this.key := key;
      next := seq(height, _ => null);
    }
  }

  // ---------------------------------------------------------------- positions

  /** The first position from `start` on whose node is linked at level l. */
  function After(linked: seq<nat>, start: nat, l: nat): (j: nat)
    requires start <= |linked|
    ensures start <= j <= |linked|
    ensures j < |linked| ==> linked[j] > l
    ensures forall i :: start <= i < j ==> linked[i] <= l
    decreases |linked| - start
  {
    if start == |linked| || linked[start] > l then start else After(linked, start + 1, l)
  }

  lemma AfterIs(linked: seq<nat>, start: nat, l: nat, j: nat)
    requires start <= j <= |linked| && (j < |linked| ==> linked[j] > l)
    requires forall i :: start <= i < j ==> linked[i] <= l
    ensures After(linked, start, l) == j
  {
    var a := After(linked, start, l);
  }

  function Inserted<T>(s: seq<T>, k: nat, x: T): (r: seq<T>)
    requires k <= |s|
    ensures |r| == |s| + 1
    ensures forall i :: 0 <= i < |r| ==> r[i] == if i < k then s[i] else if i == k then x else s[i-1]
  {
    s[..k] + [x] + s[k..]
  }

  /** A node that is not linked anywhere changes no link. */
  lemma AfterUnlinked(linked: seq<nat>, k: nat, start: nat, l: nat)
    requires k <= |linked| && start <= |linked| + 1
    ensures var a, b := Inserted(linked, k, 0), if start <= k then start else start - 1;
      After(a, start, l) == var j := After(linked, b, l); if j < k then j else j + 1
  {
    var j := After(linked, if start <= k then start else start - 1, l);
    AfterIs(Inserted(linked, k, 0), start, l, if j < k then j else j + 1);
  }

  /** Linking node k at one more level, level i. */
  lemma AfterLinked(linked: seq<nat>, k: nat, i: nat, start: nat, l: nat)
    requires k < |linked| && linked[k] == i && start <= |linked|
    ensures var j := After(linked, start, l);
      After(linked[k := i + 1], start, l) == if l == i && start <= k < j then k else j
  {
    var j := After(linked, start, l);
    AfterIs(linked[k := i + 1], start, l, if l == i && start <= k < j then k else j);
  }

  // ---------------------------------------------------------------- the shape of the list

  function OrNull(nodes: seq<Node>, j: nat): Node? {
    if j < |nodes| then nodes[j] else null
  }

  ghost predicate InOrder(nodes: seq<Node>) {
    forall i, j :: 0 <= i < j < |nodes| ==> nodes[i].key < nodes[j].key
  }

  /** Levels are sorted lists, each a sublist of the one below: level l links, in order, the nodes that
      are linked at more than l levels. `nexts` are the nodes' link arrays. */
  ghost predicate LinksOK(nodes: seq<Node>, linked: seq<nat>, headNext: seq<Node?>, nexts: seq<seq<Node?>>) {
    && |linked| == |nodes| == |nexts| && |headNext| == MAX_HEIGHT && InOrder(nodes)
    && HeadLinksOK(nodes, linked, headNext) && NodeLinksOK(nodes, linked, nexts)
  }

  ghost predicate HeadLinksOK(nodes: seq<Node>, linked: seq<nat>, headNext: seq<Node?>) {
    |headNext| == MAX_HEIGHT && forall l :: 0 <= l < MAX_HEIGHT ==> headNext[l] == OrNull(nodes, After(linked, 0, l))
  }

  ghost predicate NodeLinksOK(nodes: seq<Node>, linked: seq<nat>, nexts: seq<seq<Node?>>) {
    && |linked| == |nodes| == |nexts|
    && (forall p :: 0 <= p < |nodes| ==> LinkedBelow(nodes, linked, p + 1, linked[p], nexts[p]))
  }

  /** The first `height` links lead to the next nodes from `start` on. */
  ghost predicate LinkedBelow(nodes: seq<Node>, linked: seq<nat>, start: nat, height: nat, next: seq<Node?>)
    requires start <= |linked|
  {
    height <= |next| && forall l :: 0 <= l < height ==> next[l] == OrNull(nodes, After(linked, start, l))
  }

  /** Position p (-1 is the head) is linked at level l, before position k, and nothing linked lies between. */
  ghost predicate IsPrev(linked: seq<nat>, p: int, l: nat, k: nat) {
    && -1 <= p < k <= |linked| && (p >= 0 ==> linked[p] > l) && After(linked, p + 1, l) >= k
  }

  /** k nodes have a smaller key. */
  ghost predicate IsRank(nodes: seq<Node>, key: Key, k: nat) {
    && k <= |nodes| && (forall j :: 0 <= j < k ==> nodes[j].key < key)
    && (forall j :: k <= j < |nodes| ==> nodes[j].key >= key)
  }

  lemma {:induction false} RankExists(nodes: seq<Node>, key: Key) returns (k: nat)
    requires InOrder(nodes)
    ensures IsRank(nodes, key, k)
  {
    k := 0;
    while k < |nodes| && nodes[k].key < key
      invariant k <= |nodes| && forall j :: 0 <= j < k ==> nodes[j].key < key
    {
      k := k + 1;
    }
  }

  /** The keys of the nodes that level 0 links: what a reader can find. */
  ghost function VisibleKeys(nodes: seq<Node>, linked: seq<nat>): set<Key>
    requires |linked| == |nodes|
  {
    set j | 0 <= j < |nodes| && linked[j] > 0 :: nodes[j].key
  }

  /** The nodes before position k, for the levels from `from` on. */
  ghost predicate PrevsOK(head: Node, nodes: seq<Node>, linked: seq<nat>, maxHeight: nat,
                          prev: seq<Node>, at: seq<int>, from: nat, k: nat) {
    && |linked| == |nodes| && |prev| == |at| == maxHeight
    && forall l :: from <= l < maxHeight ==>
         IsPrev(linked, at[l], l, k) && prev[l] == if at[l] == -1 then head else nodes[at[l]]
  }

  lemma PrevsStay(head: Node, nodes: seq<Node>, linked: seq<nat>, maxHeight: nat,
                  prev: seq<Node>, at: seq<int>, i: nat, k: nat)
    requires PrevsOK(head, nodes, linked, maxHeight, prev, at, i, k) && k < |nodes| && linked[k] == i
    ensures PrevsOK(head, nodes, linked[k := i + 1], maxHeight, prev, at, i + 1, k)
  {
    forall l | i + 1 <= l < maxHeight ensures IsPrev(linked[k := i + 1], at[l], l, k) {
      PrevLinked(linked, k, i, at[l], l);
    }
  }

  // ---------------------------------------------------------------- changing the links

  /** A node that no level links yet leaves everything as it is. */
  lemma AddUnlinked(nodes: seq<Node>, linked: seq<nat>, headNext: seq<Node?>, nexts: seq<seq<Node?>>,
                    x: Node, next: seq<Node?>, k: nat)
    requires LinksOK(nodes, linked, headNext, nexts) && IsRank(nodes, x.key, k)
    requires x.key !in (set j | 0 <= j < |nodes| :: nodes[j].key)
    ensures LinksOK(Inserted(nodes, k, x), Inserted(linked, k, 0), headNext, Inserted(nexts, k, next))
    ensures VisibleKeys(Inserted(nodes, k, x), Inserted(linked, k, 0)) == VisibleKeys(nodes, linked)
  {
    hide After, InOrder, HeadLinksOK, NodeLinksOK;
    AddUnlinkedHead(nodes, linked, headNext, x, k);
    AddUnlinkedNodes(nodes, linked, nexts, x, next, k);
    InsertInOrder(nodes, x, k);
    VisibleUnlinked(nodes, linked, x, k);
  }

  lemma AddUnlinkedHead(nodes: seq<Node>, linked: seq<nat>, headNext: seq<Node?>, x: Node, k: nat)
    requires |linked| == |nodes| && k <= |nodes| && HeadLinksOK(nodes, linked, headNext)
    ensures HeadLinksOK(Inserted(nodes, k, x), Inserted(linked, k, 0), headNext)
  {
    hide Inserted, After;
    forall l | 0 <= l < MAX_HEIGHT
      ensures headNext[l] == OrNull(Inserted(nodes, k, x), After(Inserted(linked, k, 0), 0, l))
    {
      UnlinkedNext(nodes, linked, x, k, 0, l);
    }
  }

  lemma AddUnlinkedNodes(nodes: seq<Node>, linked: seq<nat>, nexts: seq<seq<Node?>>, x: Node, next: seq<Node?>, k: nat)
    requires NodeLinksOK(nodes, linked, nexts) && k <= |nodes|
    ensures NodeLinksOK(Inserted(nodes, k, x), Inserted(linked, k, 0), Inserted(nexts, k, next))
  {
    var nodes', linked', nexts' := Inserted(nodes, k, x), Inserted(linked, k, 0), Inserted(nexts, k, next);
    hide Inserted, LinkedBelow;
    forall p | 0 <= p < |nodes'| ensures LinkedBelow(nodes', linked', p + 1, linked'[p], nexts'[p]) {
      if p == k {
        NothingLinked(nodes', linked', p + 1, nexts'[p]);
      } else {
        UnlinkedBelow(nodes, linked, x, k, p, nexts'[p]);
      }
    }
  }

  lemma NothingLinked(nodes: seq<Node>, linked: seq<nat>, start: nat, next: seq<Node?>)
    requires start <= |linked|
    ensures LinkedBelow(nodes, linked, start, 0, next)
  {
  }

  lemma InsertedAt<T>(s: seq<T>, k: nat, x: T, p: nat)
    requires k <= |s| && p <= |s| && p != k
    ensures Inserted(s, k, x)[p] == s[if p < k then p else p - 1]
  {
  }

  lemma UnlinkedBelow(nodes: seq<Node>, linked: seq<nat>, x: Node, k: nat, p: nat, next: seq<Node?>)
    requires |linked| == |nodes| && k <= |nodes| && p <= |nodes| && p != k
    requires var q := if p < k then p else p - 1; LinkedBelow(nodes, linked, q + 1, linked[q], next)
    ensures LinkedBelow(Inserted(nodes, k, x), Inserted(linked, k, 0), p + 1, Inserted(linked, k, 0)[p], next)
  {
    hide Inserted, After, OrNull;
    var q := if p < k then p else p - 1;
    InsertedAt(linked, k, 0, p);
    forall l | 0 <= l < linked[q]
      ensures next[l] == OrNull(Inserted(nodes, k, x), After(Inserted(linked, k, 0), p + 1, l))
    {
      UnlinkedNext(nodes, linked, x, k, p + 1, l);
    }
  }

  /** The next node at a level stays the same one. */
  lemma UnlinkedNext(nodes: seq<Node>, linked: seq<nat>, x: Node, k: nat, start: nat, l: nat)
    requires |linked| == |nodes| && k <= |nodes| && start <= |nodes| + 1
    ensures OrNull(Inserted(nodes, k, x), After(Inserted(linked, k, 0), start, l)) ==
            OrNull(nodes, After(linked, if start <= k then start else start - 1, l))
  {
    AfterUnlinked(linked, k, start, l);
  }

  lemma InsertInOrder(nodes: seq<Node>, x: Node, k: nat)
    requires InOrder(nodes) && IsRank(nodes, x.key, k) && x.key !in (set j | 0 <= j < |nodes| :: nodes[j].key)
    ensures InOrder(Inserted(nodes, k, x))
  {
    var nodes' := Inserted(nodes, k, x);
    hide Inserted;
    forall j | 0 <= j < |nodes| ensures nodes[j].key != x.key {
      assert nodes[j].key in (set j | 0 <= j < |nodes| :: nodes[j].key);
    }
    forall i, j | 0 <= i < j < |nodes'| ensures nodes'[i].key < nodes'[j].key {
      assert j != k ==> nodes'[j] == nodes[if j < k then j else j - 1];
      assert i != k ==> nodes'[i] == nodes[if i < k then i else i - 1];
    }
  }

  lemma VisibleUnlinked(nodes: seq<Node>, linked: seq<nat>, x: Node, k: nat)
    requires |linked| == |nodes| && k <= |nodes|
    ensures VisibleKeys(Inserted(nodes, k, x), Inserted(linked, k, 0)) == VisibleKeys(nodes, linked)
  {
    var nodes', linked' := Inserted(nodes, k, x), Inserted(linked, k, 0);
    hide Inserted;
    forall key ensures key in VisibleKeys(nodes', linked') <==> key in VisibleKeys(nodes, linked) {
      if key in VisibleKeys(nodes', linked') {
        var j :| 0 <= j < |nodes'| && linked'[j] > 0 && nodes'[j].key == key;
        var i := if j < k then j else j - 1;
        assert linked[i] > 0 && nodes[i].key == key;
      }
      if key in VisibleKeys(nodes, linked) {
        var j :| 0 <= j < |nodes| && linked[j] > 0 && nodes[j].key == key;
        var i := if j < k then j else j + 1;
        assert linked'[i] > 0 && nodes'[i].key == key;
      }
    }
  }

  lemma PrevUnlinked(linked: seq<nat>, k: nat, p: int, l: nat)
    requires IsPrev(linked, p, l, k)
    ensures IsPrev(Inserted(linked, k, 0), p, l, k)
  {
    AfterUnlinked(linked, k, p + 1, l);
  }

  /** A node's link at a level where it is not linked is no part of the list. */
  lemma OwnLinkUnseen(nodes: seq<Node>, linked: seq<nat>, headNext: seq<Node?>, nexts: seq<seq<Node?>>,
                      k: nat, i: nat, y: Node?)
    requires LinksOK(nodes, linked, headNext, nexts) && k < |nodes| && linked[k] == i < |nexts[k]|
    ensures LinksOK(nodes, linked, headNext, nexts[k := nexts[k][i := y]])
  {
    hide After;
  }

  /** Linking node k at level i behind position p: its own link, then the link to it. */
  lemma LinkOneMore(nodes: seq<Node>, linked: seq<nat>, headNext: seq<Node?>, nexts: seq<seq<Node?>>, k: nat, i: nat, p: int)
    requires LinksOK(nodes, linked, headNext, nexts) && k < |nodes| && linked[k] == i < |nexts[k]| && i < MAX_HEIGHT
    requires IsPrev(linked, p, i, k) && nexts[k][i] == OrNull(nodes, After(linked, p + 1, i))
    ensures var headNext' := if p == -1 then headNext[i := nodes[k]] else headNext;
      var nexts' := if p == -1 then nexts else nexts[p := nexts[p][i := nodes[k]]];
      LinksOK(nodes, linked[k := i + 1], headNext', nexts')
  {
    hide After, IsPrev, InOrder, HeadLinksOK, NodeLinksOK;
    // Between p and k nothing is linked at level i, and the next one after p is behind k
    PrevBehind(linked, p, i, k);
    LinkHead(nodes, linked, headNext, k, i, p);
    LinkNodes(nodes, linked, nexts, k, i, p);
  }

  lemma LinkHead(nodes: seq<Node>, linked: seq<nat>, headNext: seq<Node?>, k: nat, i: nat, p: int)
    requires |linked| == |nodes| && k < |nodes| && linked[k] == i < MAX_HEIGHT && HeadLinksOK(nodes, linked, headNext)
    requires -1 <= p < k < After(linked, p + 1, i) && (p >= 0 ==> linked[p] > i)
    ensures HeadLinksOK(nodes, linked[k := i + 1], if p == -1 then headNext[i := nodes[k]] else headNext)
  {
    hide After;
    var headNext' := if p == -1 then headNext[i := nodes[k]] else headNext;
    forall l | 0 <= l < MAX_HEIGHT ensures headNext'[l] == OrNull(nodes, After(linked[k := i + 1], 0, l)) {
      AfterLinked(linked, k, i, 0, l);
      if l == i && p >= 0 { ReachesPrev(linked, p, i, 0); }
    }
  }

  lemma LinkNodes(nodes: seq<Node>, linked: seq<nat>, nexts: seq<seq<Node?>>, k: nat, i: nat, p: int)
    requires NodeLinksOK(nodes, linked, nexts) && k < |nodes| && linked[k] == i < |nexts[k]|
    requires -1 <= p < k < After(linked, p + 1, i) && (p >= 0 ==> linked[p] > i)
    requires nexts[k][i] == OrNull(nodes, After(linked, k + 1, i))
    ensures NodeLinksOK(nodes, linked[k := i + 1], if p == -1 then nexts else nexts[p := nexts[p][i := nodes[k]]])
  {
    hide After, LinkedBelow;
    if p >= 0 { EnoughLinks(nodes, linked, nexts, p); }
    var nexts' := if p == -1 then nexts else nexts[p := nexts[p][i := nodes[k]]];
    forall q | 0 <= q < |nodes|
      ensures LinkedBelow(nodes, linked[k := i + 1], q + 1, linked[k := i + 1][q], nexts'[q])
    {
      LinkNode(nodes, linked, nexts, k, i, p, q);
    }
  }

  lemma EnoughLinks(nodes: seq<Node>, linked: seq<nat>, nexts: seq<seq<Node?>>, p: nat)
    requires NodeLinksOK(nodes, linked, nexts) && p < |nodes|
    ensures linked[p] <= |nexts[p]|
  {
  }

  lemma LinkNode(nodes: seq<Node>, linked: seq<nat>, nexts: seq<seq<Node?>>, k: nat, i: nat, p: int, q: nat)
    requires |linked| == |nodes| == |nexts| && k < |nodes| && q < |nodes| && linked[k] == i < |nexts[k]|
    requires LinkedBelow(nodes, linked, q + 1, linked[q], nexts[q])
    requires -1 <= p < k < After(linked, p + 1, i) && (p >= 0 ==> linked[p] > i)
    requires nexts[k][i] == OrNull(nodes, After(linked, k + 1, i))
    ensures LinkedBelow(nodes, linked[k := i + 1], q + 1, linked[k := i + 1][q],
                        if q == p then nexts[p][i := nodes[k]] else nexts[q])
  {
    hide After, OrNull;
    var next := if q == p then nexts[p][i := nodes[k]] else nexts[q];
    forall l | 0 <= l < linked[k := i + 1][q] ensures next[l] == OrNull(nodes, After(linked[k := i + 1], q + 1, l)) {
      if q == k && l == i {
        AfterLinked(linked, k, i, q + 1, l);
      } else {
        OtherNext(nodes, linked, nexts, k, i, p, q, l);
      }
    }
  }

  lemma PrevBehind(linked: seq<nat>, p: int, i: nat, k: nat)
    requires IsPrev(linked, p, i, k) && k < |linked| && linked[k] == i
    ensures -1 <= p < k < After(linked, p + 1, i) && (p >= 0 ==> linked[p] > i)
    ensures After(linked, k + 1, i) == After(linked, p + 1, i)
  {
    AfterIs(linked, k + 1, i, After(linked, p + 1, i));
  }

  lemma OtherNext(nodes: seq<Node>, linked: seq<nat>, nexts: seq<seq<Node?>>, k: nat, i: nat, p: int, q: nat, l: nat)
    requires |linked| == |nodes| == |nexts| && k < |nodes| && linked[k] == i && q < |nodes| && l < linked[q] <= |nexts[q]|
    requires nexts[q][l] == OrNull(nodes, After(linked, q + 1, l))
    requires -1 <= p < k < After(linked, p + 1, i) && (p >= 0 ==> linked[p] > i)
    ensures OrNull(nodes, After(linked[k := i + 1], q + 1, l)) ==
            if q == p && l == i then nodes[k] else nexts[q][l]
  {
    AfterLinked(linked, k, i, q + 1, l);
    if l == i && q < p { ReachesPrev(linked, p, i, q + 1); }
    if l == i && p < q { AfterMonotone(linked, p + 1, q, i); }
  }

  /** A linked node behind p is not before the next one after p. */
  lemma AfterMonotone(linked: seq<nat>, start: nat, q: nat, l: nat)
    requires start <= q < |linked| && linked[q] > l
    ensures After(linked, start, l) <= q
  {
  }

  /** From before p, the next node at a level where p is linked is at most p. */
  lemma ReachesPrev(linked: seq<nat>, p: nat, i: nat, start: nat)
    requires start <= p < |linked| && linked[p] > i
    ensures After(linked, start, i) <= p
  {
  }

  lemma PrevLinked(linked: seq<nat>, k: nat, i: nat, p: int, l: nat)
    requires k < |linked| && linked[k] == i != l && IsPrev(linked, p, l, k)
    ensures IsPrev(linked[k := i + 1], p, l, k)
  {
    AfterLinked(linked, k, i, p + 1, l);
  }

  lemma VisibleLinked(nodes: seq<Node>, linked: seq<nat>, k: nat, i: nat)
    requires |linked| == |nodes| && k < |nodes| && linked[k] == i
    ensures VisibleKeys(nodes, linked[k := i + 1]) == VisibleKeys(nodes, linked) + {nodes[k].key}
  {
    var linked' := linked[k := i + 1];
    forall key | key in VisibleKeys(nodes, linked) + {nodes[k].key} ensures key in VisibleKeys(nodes, linked') {
      if key == nodes[k].key {
        assert linked'[k] > 0;
      } else {
        var j :| 0 <= j < |nodes| && linked[j] > 0 && nodes[j].key == key;
        assert linked'[j] > 0;
      }
    }
  }

  // ---------------------------------------------------------------- the list

  class SkipList {
    const head: Node
    var maxHeight: nat
    ghost var nodes: seq<Node>       // all nodes, in key order,
    ghost var linked: seq<nat>       // and at how many levels each is linked

    ghost function Nexts(): seq<seq<Node?>>
      reads nodes, this
    {
      seq(|nodes|, i requires 0 <= i < |nodes| reads nodes, this => nodes[i].next)
    }

    ghost predicate Valid()
      reads this, head, nodes
    {
      && head !in nodes && 1 <= maxHeight <= MAX_HEIGHT
      && LinksOK(nodes, linked, head.next, Nexts())
      && (forall j :: 0 <= j < |linked| ==> linked[j] <= maxHeight)
    }

    /** What a reader can find. */
    ghost function Keys(): set<Key>
      requires |linked| == |nodes|
      reads this
    {
      VisibleKeys(nodes, linked)
    }

    /** No insertion is going on. */
    ghost predicate AtRest()
      reads this
    {
      |linked| == |nodes| && forall j :: 0 <= j < |nodes| ==> linked[j] > 0
    }

    ghost function NodeAt(p: int): Node
      requires -1 <= p < |nodes|
      reads this
    {
      if p == -1 then head else nodes[p]
    }

    constructor ()
      ensures Valid() && AtRest() && Keys() == {} && fresh(head) && nodes == []
    {
      head := new Node(0.0, MAX_HEIGHT);
      maxHeight := 1;
      nodes, linked := [], [];
    }

    /** The next node at a level is before position k exactly if its key is smaller. */
    lemma NextIsBefore(key: Key, k: nat, p: int, l: nat)
      requires Valid() && IsRank(nodes, key, k) && -1 <= p < k && l < MAX_HEIGHT && (p >= 0 ==> linked[p] > l)
      ensures |linked| == |nodes| && |NodeAt(p).next| > l
      ensures var next, j := NodeAt(p).next[l], After(linked, p + 1, l);
        && next == OrNull(nodes, j) && j <= |nodes| && (next != null <==> j < |nodes|)
        && (next != null && next.key < key <==> j < k)
    {
      if p >= 0 { assert Nexts()[p] == nodes[p].next; }
    }

    lemma Bounds()
      requires Valid()
      ensures 1 <= maxHeight <= MAX_HEIGHT && |linked| == |nodes| && InOrder(nodes) && head !in nodes
    {
    }

    ghost predicate PrevFrom(prev: seq<Node>, at: seq<int>, from: nat, k: nat)
      reads this
    {
      PrevsOK(head, nodes, linked, maxHeight, prev, at, from, k)
    }

    lemma NoPrev(prev: seq<Node>, at: seq<int>, k: nat)
      requires |linked| == |nodes| && |prev| == |at| == maxHeight
      ensures PrevFrom(prev, at, maxHeight, k)
    {
    }

    lemma PrevDown(prev: seq<Node>, at: seq<int>, level: nat, k: nat, p: int)
      requires |linked| == |nodes| && level < maxHeight && PrevFrom(prev, at, level + 1, k) && IsPrev(linked, p, level, k)
      ensures |prev| == |at| == maxHeight && PrevFrom(prev[level := NodeAt(p)], at[level := p], level, k)
    {
    }

    /** The visible node with the least key at or after `key`; null if there is none. */
    ghost predicate FirstFrom(next: Node?, key: Key)
      requires |linked| == |nodes|
      reads this
    {
      if next == null then forall m :: m in Keys() ==> m < key
      else next in nodes && next.key in Keys() && next.key >= key && forall m :: m in Keys() && m >= key ==> m >= next.key
    }

    /** The visible node with the greatest key before `key`; the head if there is none. */
    ghost predicate LastBefore(x: Node, key: Key)
      requires |linked| == |nodes|
      reads this
    {
      if x == head then forall m :: m in Keys() ==> m >= key
      else x in nodes && x.key in Keys() && x.key < key && forall m :: m in Keys() && m < key ==> m <= x.key
    }

    /** The visible node with the greatest key; the head if nothing is visible. */
    ghost predicate IsLast(x: Node)
      requires |linked| == |nodes|
      reads this
    {
      if x == head then Keys() == {}
      else x in nodes && x.key in Keys() && forall m :: m in Keys() ==> m <= x.key
    }

    lemma IsFirstFrom(next: Node?, key: Key, k: nat)
      requires |linked| == |nodes| && InOrder(nodes) && IsRank(nodes, key, k) && next == OrNull(nodes, After(linked, k, 0))
      ensures FirstFrom(next, key)
    {
      FirstVisible(nodes, linked, key, k);
    }

    lemma IsLastBefore(x: Node, p: int, key: Key, k: nat)
      requires head !in nodes && |linked| == |nodes| && InOrder(nodes) && IsRank(nodes, key, k)
      requires IsPrev(linked, p, 0, k) && x == NodeAt(p)
      ensures LastBefore(x, key)
    {
      VisibleUpTo(nodes, linked, p, k);
    }

    lemma NothingAfter(x: Node, p: int)
      requires head !in nodes && |linked| == |nodes| && InOrder(nodes) && IsPrev(linked, p, 0, |nodes|) && x == NodeAt(p)
      ensures IsLast(x)
    {
      VisibleUpTo(nodes, linked, p, |nodes|);
    }

    /** FindGreaterOrEqual: the first visible node at or after the key, and the nodes before it. */
    method FindGreaterOrEqual(key: Key) returns (next: Node?, prev: seq<Node>, ghost k: nat, ghost at: seq<int>)
      requires Valid()
      ensures |linked| == |nodes| && IsRank(nodes, key, k) && next == OrNull(nodes, After(linked, k, 0))
      ensures PrevFrom(prev, at, 0, k) && FirstFrom(next, key)
    {
      hide SkipList.Valid, IsRank, PrevsOK, InOrder, SkipList.FirstFrom;
      Bounds();
      k := RankExists(nodes, key);
      RankBound(nodes, key, k);
      var x := head;
      ghost var p := -1;
      var level := maxHeight - 1;
      prev, at := seq(maxHeight, _ => head), seq(maxHeight, _ => -1);
      NoPrev(prev, at, k);
      while true
        invariant 0 <= level < maxHeight && -1 <= p < k && x == NodeAt(p) && (p >= 0 ==> linked[p] > level)
        invariant |prev| == |at| == maxHeight && PrevFrom(prev, at, level + 1, k)
        decreases level, |nodes| - p
      {
        NextIsBefore(key, k, p, level);
        next := x.next[level];
        ghost var j := After(linked, p + 1, level);
        if next != null && next.key < key {
          // Keep searching in this list
          x := next;
          p := j;
        } else {
          PrevDown(prev, at, level, k, p);
          prev, at := prev[level := x], at[level := p];
          if level == 0 {
            AfterIs(linked, k, 0, j);
            IsFirstFrom(next, key, k);
            return;
          }
          // Switch to the next list
          level := level - 1;
        }
      }
    }

    /** FindLessThan: the last visible node before the key, or the head. */
    method FindLessThan(key: Key) returns (x: Node, ghost p: int, ghost k: nat)
      requires Valid()
      ensures |linked| == |nodes| && IsRank(nodes, key, k) && IsPrev(linked, p, 0, k) && x == NodeAt(p)
      ensures LastBefore(x, key)
    {
      hide SkipList.Valid, IsRank, InOrder, SkipList.LastBefore;
      Bounds();
      k := RankExists(nodes, key);
      RankBound(nodes, key, k);
      x := head;
      p := -1;
      var level := maxHeight - 1;
      while true
        invariant 0 <= level < maxHeight && -1 <= p < k && x == NodeAt(p) && (p >= 0 ==> linked[p] > level)
        decreases level, |nodes| - p
      {
        NextIsBefore(key, k, p, level);
        var next := x.next[level];
        ghost var j := After(linked, p + 1, level);
        if next == null || next.key >= key {
          if level == 0 {
            IsLastBefore(x, p, key, k);
            return;
          }
          level := level - 1;
        } else {
          x := next;
          p := j;
        }
      }
    }

    lemma NextOf(p: int, l: nat)
      requires Valid() && -1 <= p < |nodes| && l < MAX_HEIGHT && (p >= 0 ==> p < |linked| && linked[p] > l)
      ensures |linked| == |nodes| && |NodeAt(p).next| > l && NodeAt(p).next[l] == OrNull(nodes, After(linked, p + 1, l))
    {
      if p >= 0 { assert Nexts()[p] == nodes[p].next; }
    }

    /** FindLast: the last visible node, or the head. */
    method FindLast() returns (x: Node, ghost p: int)
      requires Valid()
      ensures |linked| == |nodes| && IsPrev(linked, p, 0, |nodes|) && x == NodeAt(p)
      ensures IsLast(x)
    {
      hide SkipList.Valid, InOrder, SkipList.IsLast;
      Bounds();
      x := head;
      p := -1;
      var level := maxHeight - 1;
      while true
        invariant 0 <= level < maxHeight && -1 <= p < |nodes| && x == NodeAt(p) && (p >= 0 ==> linked[p] > level)
        decreases level, |nodes| - p
      {
        NextOf(p, level);
        var next := x.next[level];
        ghost var j := After(linked, p + 1, level);
        if next == null {
          if level == 0 {
            NothingAfter(x, p);
            return;
          }
          level := level - 1;
        } else {
          x := next;
          p := j;
        }
      }
    }

    method Contains(key: Key) returns (r: bool)
      requires Valid()
      ensures |linked| == |nodes| && (r <==> key in Keys())
    {
      var x, _, k, _ := FindGreaterOrEqual(key);
      r := x != null && x.key == key;
      FoundIsThere(nodes, linked, key, k);
    }

    // ---------------------------------------------------------------- inserting

    /** One round of the linking loop: two link stores, with a sound list after each of them. */
    method LinkLevel(x: Node, ghost k: nat, i: nat, prev: Node, ghost p: int)
      requires Valid() && k < |nodes| == |linked| && nodes[k] == x && linked[k] == i < |x.next| && i < maxHeight
      requires IsPrev(linked, p, i, k) && prev == NodeAt(p)
      modifies this`linked, x, prev
      ensures Valid() && linked == old(linked)[k := i + 1] && |x.next| == |old(x.next)|
    {
      hide LinksOK, After, IsPrev;
      PrevApart(p, k, i);
      ghost var headNext, nexts := head.next, Nexts();
      NextOf(p, i);
      DistinctNodes();
      OwnLinkUnseen(nodes, linked, headNext, nexts, k, i, prev.next[i]);
      // x's own link first: nobody can see it yet
      x.next := x.next[i := prev.next[i]];
      assert Nexts() == nexts[k := nexts[k][i := prev.next[i]]];
      assert Valid();
      LinkOneMore(nodes, linked, headNext, Nexts(), k, i, p);
      ghost var nexts2 := Nexts();
      // then the link that makes x reachable at this level
      prev.next := prev.next[i := x];
      linked := linked[k := i + 1];
      assert Nexts() == if p == -1 then nexts2 else nexts2[p := nexts2[p][i := x]];
    }

    /** Insert. `height` is what RandomHeight returned. */
    method Insert(key: Key, height: nat) returns (ghost k: nat)
      requires Valid() && AtRest() && |linked| == |nodes| && key !in Keys() && 1 <= height <= 12
      modifies this, head, nodes
      ensures Valid() && AtRest() && |linked| == |nodes| && Keys() == old(Keys()) + {key}
      ensures forall n :: n in old(nodes) ==> n in nodes
      ensures k <= |old(nodes)| && |old(linked)| == |old(nodes)| && |nodes| == |old(nodes)| + 1
      ensures nodes[..k] == old(nodes)[..k] && nodes[k+1..] == old(nodes)[k..]
      ensures fresh(nodes[k]) && nodes[k].key == key && |nodes[k].next| == height
      ensures linked == old(linked)[..k] + [height] + old(linked)[k..]
      ensures maxHeight == if height > old(maxHeight) then height else old(maxHeight)
    {
      hide SkipList.Valid, IsPrev, PrevsOK, IsRank, VisibleKeys, Inserted, InOrder, LinksOK;
      Bounds();
      var next, prev, rank, at := FindGreaterOrEqual(key);
      k := rank;
      prev, at := RaiseHeight(height, prev, at, k);
      var x := AddNode(key, height, prev, at, k);
      PlacedHeights(old(nodes), old(linked), k, x);
      assert forall n :: n in nodes ==> n in old(nodes) || fresh(n);
      assert forall i :: 0 <= i < |nodes| ==> nodes[i] in old(nodes) || fresh(nodes[i]);
      InsertedMeans(old(nodes), k, x);
      InsertedMeans(old(linked), k, 0);
      LinkAll(x, height, prev, at, k);
      LinkedUpTo(old(linked), k, height);
    }

    /** Node k is linked at the first i levels, and `prev` has the nodes before it for the others. */
    ghost predicate Linking(x: Node, height: nat, prev: seq<Node>, at: seq<int>, k: nat, i: nat)
      reads this, head, nodes
    {
      && Valid() && |linked| == |nodes| && k < |nodes| && nodes[k] == x && |x.next| == height <= maxHeight
      && linked[k] == i && (forall j :: 0 <= j < |nodes| && j != k ==> linked[j] > 0)
      && PrevFrom(prev, at, i, k)
    }

    /** The linking loop, from the lowest level up. */
    method LinkAll(x: Node, height: nat, prev: seq<Node>, ghost at: seq<int>, ghost k: nat)
      requires 1 <= height && Linking(x, height, prev, at, k, 0)
      modifies this`linked, head, nodes
      ensures Valid() && AtRest() && |linked| == |nodes|
      ensures |old(linked)| == |nodes| && Keys() == VisibleKeys(nodes, old(linked)) + {x.key}
      ensures k < |nodes| && nodes[k] == x && |x.next| == height && linked == old(linked)[k := height]
    {
      KeysAre(x, height, prev, at, k, 0);
      ghost var keys := Keys();
      hide Linking, SkipList.Valid, VisibleKeys;
      for i := 0 to height
        invariant Linking(x, height, prev, at, k, i)
        invariant |linked| == |nodes| && Keys() == if i == 0 then keys else keys + {x.key}
        invariant k < |linked| && linked == old(linked)[k := i]
      {
        LinkStep(x, height, prev, at, k, i);
      }
      KeysAre(x, height, prev, at, k, height);
    }

    lemma KeysAre(x: Node, height: nat, prev: seq<Node>, at: seq<int>, k: nat, i: nat)
      requires Linking(x, height, prev, at, k, i)
      ensures |linked| == |nodes| && Valid() && (i > 0 ==> AtRest())
      ensures k < |nodes| && nodes[k] == x && |x.next| == height && linked[k] == i
    {
    }

    method LinkStep(x: Node, height: nat, prev: seq<Node>, ghost at: seq<int>, ghost k: nat, i: nat)
      requires Linking(x, height, prev, at, k, i) && i < height
      modifies this`linked, head, nodes
      ensures Linking(x, height, prev, at, k, i + 1)
      ensures |old(linked)| == |linked| == |nodes| && Keys() == VisibleKeys(nodes, old(linked)) + {x.key}
      ensures k < |linked| && linked == old(linked)[k := i + 1]
    {
      hide SkipList.Valid, IsPrev, PrevsOK, VisibleKeys;
      Bounds();
      PrevAt(prev, at, i, k);
      VisibleLinked(nodes, linked, k, i);
      PrevsStay(head, nodes, linked, maxHeight, prev, at, i, k);
      LinkLevel(x, k, i, prev[i], at[i]);
    }

    /** New levels start at the head. */
    method RaiseHeight(height: nat, prev: seq<Node>, ghost at: seq<int>, ghost k: nat) returns (prev': seq<Node>, ghost at': seq<int>)
      requires Valid() && |linked| == |nodes| && k <= |nodes| && PrevFrom(prev, at, 0, k) && height <= MAX_HEIGHT
      modifies this`maxHeight
      ensures Valid() && height <= maxHeight && PrevFrom(prev', at', 0, k)
      ensures maxHeight == if height > old(maxHeight) then height else old(maxHeight)
    {
      hide LinksOK, After;
      prev', at' := prev, at;
      if height > maxHeight {
        forall l | maxHeight <= l < height ensures IsPrev(linked, -1, l, k) { AfterIs(linked, 0, l, |linked|); }
        prev', at' := prev + seq(height - maxHeight, _ => head), at + seq(height - maxHeight, _ => -1);
        ghost var nexts := Nexts();
        maxHeight := height;
        assert Nexts() == nexts;
      }
    }

    /** The new node, linked nowhere yet. */
    method AddNode(key: Key, height: nat, ghost prev: seq<Node>, ghost at: seq<int>, ghost k: nat) returns (x: Node)
      requires Valid() && AtRest() && |linked| == |nodes| && key !in Keys() && IsRank(nodes, key, k)
      requires PrevFrom(prev, at, 0, k) && height <= maxHeight
      modifies this`nodes, this`linked
      ensures fresh(x) && x.key == key && |x.next| == height
      ensures Valid() && nodes == Inserted(old(nodes), k, x) && linked == Inserted(old(linked), k, 0)
      ensures |linked| == |nodes| && Keys() == old(Keys()) && PrevFrom(prev, at, 0, k)
    {
      hide LinksOK, IsRank, IsPrev, PrevsOK, Inserted, VisibleKeys;
      x := new Node(key, height);
      ghost var nexts := Nexts();
      NoSuchKey(nodes, linked, key);
      RankBound(nodes, key, k);
      AddUnlinked(nodes, linked, head.next, nexts, x, x.next, k);
      PrevsUnlinked(head, nodes, linked, maxHeight, prev, at, k, x);
      HeightsUnlinked(linked, k, maxHeight);
      ghost var was := nodes;
      nodes, linked := Inserted(nodes, k, x), Inserted(linked, k, 0);
      PlacedAround(was, nexts, k, x, x.next);
      assert Nexts() == Inserted(nexts, k, x.next);
    }

    lemma PrevAt(prev: seq<Node>, at: seq<int>, i: nat, k: nat)
      requires |linked| == |nodes| && PrevFrom(prev, at, i, k) && i < maxHeight
      ensures i < |prev| == |at| && IsPrev(linked, at[i], i, k) && -1 <= at[i] < |nodes| && prev[i] == NodeAt(at[i])
    {
    }

    lemma PrevApart(p: int, k: nat, i: nat)
      requires Valid() && k < |nodes| && IsPrev(linked, p, i, k)
      ensures -1 <= p < k && NodeAt(p) != nodes[k] && nodes[k] != head && (p >= 0 ==> linked[p] > i)
      ensures |linked| == |nodes|
    {
    }

    lemma DistinctNodes()
      requires Valid()
      ensures forall i, j :: 0 <= i < j < |nodes| ==> nodes[i] != nodes[j]
    {
    }
  }

  lemma RankBound(nodes: seq<Node>, key: Key, k: nat)
    requires IsRank(nodes, key, k)
    ensures k <= |nodes|
  {
  }

  /** The first node from the rank of a key on that level 0 links has the least visible key from there on. */
  lemma FirstVisible(nodes: seq<Node>, linked: seq<nat>, key: Key, k: nat)
    requires |linked| == |nodes| && InOrder(nodes) && IsRank(nodes, key, k)
    ensures var j := After(linked, k, 0);
      && k <= j <= |nodes| && (j < |nodes| ==> nodes[j].key in VisibleKeys(nodes, linked) && nodes[j].key >= key)
      && forall m :: m in VisibleKeys(nodes, linked) && m >= key ==> j < |nodes| && m >= nodes[j].key
  {
    var j := After(linked, k, 0);
    forall m | m in VisibleKeys(nodes, linked) && m >= key ensures j < |nodes| && m >= nodes[j].key {
      var i :| 0 <= i < |nodes| && linked[i] > 0 && nodes[i].key == m;
      assert i >= k && i >= j;
    }
  }

  /** Of the nodes before position k, level 0 links none after position p. */
  lemma VisibleUpTo(nodes: seq<Node>, linked: seq<nat>, p: int, k: nat)
    requires |linked| == |nodes| && InOrder(nodes) && IsPrev(linked, p, 0, k)
    ensures p >= 0 ==> nodes[p].key in VisibleKeys(nodes, linked)
    ensures forall i :: 0 <= i < k && linked[i] > 0 ==> p >= 0 && nodes[i].key <= nodes[p].key
  {
    forall i | 0 <= i < k && linked[i] > 0 ensures p >= 0 && nodes[i].key <= nodes[p].key {
      assert i <= p;
    }
  }

  lemma FoundIsThere(nodes: seq<Node>, linked: seq<nat>, key: Key, k: nat)
    requires |linked| == |nodes| && InOrder(nodes) && IsRank(nodes, key, k)
    ensures var j := After(linked, k, 0);
      key in VisibleKeys(nodes, linked) <==> j < |nodes| && nodes[j].key == key
  {
    if key in VisibleKeys(nodes, linked) {
      var i :| 0 <= i < |nodes| && linked[i] > 0 && nodes[i].key == key;
      ReachesPrev(linked, i, 0, k);
      var j := After(linked, k, 0);
      assert nodes[j].key >= key;
    }
  }

  lemma PlacedAround(nodes: seq<Node>, nexts: seq<seq<Node?>>, k: nat, x: Node, next: seq<Node?>)
    requires |nexts| == |nodes| && k <= |nodes|
    ensures var nodes', nexts' := Inserted(nodes, k, x), Inserted(nexts, k, next);
      && |nodes'| == |nexts'| == |nodes| + 1 && nodes'[k] == x && nexts'[k] == next
      && (forall n :: n in nodes' <==> n in nodes || n == x)
      && (forall j :: 0 <= j < |nodes'| && j != k ==>
            var i := if j < k then j else j - 1; nodes'[j] == nodes[i] && nexts'[j] == nexts[i])
  {
    var nodes' := Inserted(nodes, k, x);
    forall n | n in nodes ensures n in nodes' {
      var j :| 0 <= j < |nodes| && nodes[j] == n;
      assert nodes'[if j < k then j else j + 1] == n;
    }
    assert nodes'[k] == x;
  }

  lemma NoSuchKey(nodes: seq<Node>, linked: seq<nat>, key: Key)
    requires |linked| == |nodes| && (forall j :: 0 <= j < |nodes| ==> linked[j] > 0) && key !in VisibleKeys(nodes, linked)
    ensures key !in (set j | 0 <= j < |nodes| :: nodes[j].key)
  {
  }

  lemma PrevsUnlinked(head: Node, nodes: seq<Node>, linked: seq<nat>, maxHeight: nat,
                      prev: seq<Node>, at: seq<int>, k: nat, x: Node)
    requires PrevsOK(head, nodes, linked, maxHeight, prev, at, 0, k) && k <= |nodes|
    ensures PrevsOK(head, Inserted(nodes, k, x), Inserted(linked, k, 0), maxHeight, prev, at, 0, k)
  {
    forall l | 0 <= l < maxHeight
      ensures IsPrev(Inserted(linked, k, 0), at[l], l, k)
    {
      PrevUnlinked(linked, k, at[l], l);
    }
  }

  lemma HeightsUnlinked(linked: seq<nat>, k: nat, maxHeight: nat)
    requires k <= |linked| && forall j :: 0 <= j < |linked| ==> linked[j] <= maxHeight
    ensures forall j :: 0 <= j < |Inserted(linked, k, 0)| ==> Inserted(linked, k, 0)[j] <= maxHeight
  {
  }

  lemma InsertedMeans<T>(s: seq<T>, k: nat, x: T)
    requires k <= |s|
    ensures Inserted(s, k, x) == s[..k] + [x] + s[k..]
    ensures Inserted(s, k, x)[..k] == s[..k] && Inserted(s, k, x)[k+1..] == s[k..]
  {
  }

  lemma LinkedUpTo(linked: seq<nat>, k: nat, height: nat)
    requires k <= |linked|
    ensures (linked[..k] + [0] + linked[k..])[k := height] == linked[..k] + [height] + linked[k..]
  {
  }

  lemma PlacedHeights(nodes: seq<Node>, linked: seq<nat>, k: nat, x: Node)
    requires |linked| == |nodes| && k <= |nodes| && forall j :: 0 <= j < |nodes| ==> linked[j] > 0
    ensures var nodes', linked' := Inserted(nodes, k, x), Inserted(linked, k, 0);
      && |nodes'| == |linked'| == |nodes| + 1 && nodes'[k] == x && linked'[k] == 0
      && (forall j :: 0 <= j < |nodes'| && j != k ==> linked'[j] > 0)
      && (forall n :: n in nodes' <==> n in nodes || n == x)
  {
    PlacedAround(nodes, seq(|nodes|, _ => []), k, x, []);
  }
}
