/** The intrusive doubly linked list with sentinels of utils/dll.go. */
module LinkedLists {
  import opened Api
  import opened LfuSpec

  class Node {
    var key: string
    var val: Data
    var freq: int
    var prev: Node?
    var next: Node?
    ghost var list: DoublyLinkedList?  // the list this node is linked into

    constructor (key: string, val: Data, freq: int)
      ensures this.key == key && this.val == val && this.freq == freq
      ensures prev == null && next == null && list == null
    {
      this.key, this.val, this.freq := key, val, freq;
      prev, next, list := null, null, null;
    }
  }

  ghost function RemoveAt<T>(s: seq<T>, k: nat): (t: seq<T>)
    requires k < |s|
    ensures |t| == |s| - 1
  {
    s[..k] + s[k + 1..]
  }

  lemma RemovedAt<T>(s: seq<T>, k: nat)
    requires k < |s|
    ensures forall i :: 0 <= i < |s| - 1 ==> RemoveAt(s, k)[i] == s[if i < k then i else i + 1]
    ensures forall x :: x in RemoveAt(s, k) ==> x in s
    ensures NoDuplicates(s) ==> NoDuplicates(RemoveAt(s, k)) && s[k] !in RemoveAt(s, k)
  {
  }

  /** The node is linked in between the sentinels. */
  ghost predicate Inside(spine: seq<Node>, node: Node) {
    exists i :: 0 < i < |spine| - 1 && spine[i] == node
  }

  /** A node appended before the closing sentinel. */
  ghost function Appended(spine: seq<Node>, node: Node): (t: seq<Node>)
    requires |spine| >= 2
    ensures |t| == |spine| + 1
  {
    spine[..|spine| - 1] + [node, spine[|spine| - 1]]
  }

  lemma AppendedAt(s: seq<Node>, node: Node)
    requires |s| >= 2
    ensures var t := Appended(s, node);
            && (forall i :: 0 <= i < |s| - 1 ==> t[i] == s[i]) && t[|s| - 1] == node && t[|s|] == s[|s| - 1]
            && (forall n :: n in t <==> n in s || n == node)
            && (NoDuplicates(s) && node !in s ==> NoDuplicates(t))
  {
  }

  /** The links of s, except that the node stands before the last one. */
  ghost predicate EndsWith(s: seq<Node>, node: Node)
    requires |s| >= 2
    reads s, node
  {
    && (forall i {:trigger s[i].next} :: 0 <= i < |s| - 2 ==> s[i].next == s[i + 1])
    && (forall i {:trigger s[i].prev} :: 0 < i < |s| - 1 ==> s[i].prev == s[i - 1])
    && s[|s| - 2].next == node && node.prev == s[|s| - 2]
    && node.next == s[|s| - 1] && s[|s| - 1].prev == node
  }

  lemma AppendedLinks(s: seq<Node>, node: Node)
    requires |s| >= 2 && EndsWith(s, node)
    ensures var t := Appended(s, node);
            && (forall i {:trigger t[i].next} :: 0 <= i < |t| - 1 ==> t[i].next == t[i + 1])
            && (forall i {:trigger t[i].prev} :: 0 < i < |t| ==> t[i].prev == t[i - 1])
  {
    var t := Appended(s, node);
    AppendedAt(s, node);
    hide Appended;
    forall i | 0 <= i < |t| - 1
      ensures t[i].next == t[i + 1] && t[i + 1].prev == t[i]
    {
      AppendedLink(s, node, i);
    }
  }

  lemma AppendedLink(s: seq<Node>, node: Node, i: nat)
    requires |s| >= 2 && EndsWith(s, node) && i < |s|
    ensures var t := Appended(s, node); t[i].next == t[i + 1] && t[i + 1].prev == t[i]
  {
    var t, n := Appended(s, node), |s|;
    assert t[i] == (if i < n - 1 then s[i] else node) &&
      t[i + 1] == (if i < n - 2 then s[i + 1] else if i == n - 2 then node else s[n - 1]);
    hide Appended;
    if i < n - 2 {
      assert s[i].next == s[i + 1] && s[i + 1].prev == s[i];
    }
  }

  /** The links of s, except that the neighbours of position k point at each other. */
  ghost predicate SkipsOver(s: seq<Node>, k: nat)
    requires 0 < k < |s| - 1
    reads s
  {
    && (forall i {:trigger s[i].next} :: 0 <= i < |s| - 1 && i != k - 1 && i != k ==> s[i].next == s[i + 1])
    && (forall i {:trigger s[i].prev} :: 0 < i < |s| && i != k && i != k + 1 ==> s[i].prev == s[i - 1])
    && s[k - 1].next == s[k + 1] && s[k + 1].prev == s[k - 1]
  }

  /** Links that skip position k are the links of the list without position k. */
  lemma RemovedLinks(s: seq<Node>, k: nat)
    requires 0 < k < |s| - 1 && SkipsOver(s, k)
    ensures var t := RemoveAt(s, k);
            && (forall i {:trigger t[i].next} :: 0 <= i < |t| - 1 ==> t[i].next == t[i + 1])
            && (forall i {:trigger t[i].prev} :: 0 < i < |t| ==> t[i].prev == t[i - 1])
  {
    var t := RemoveAt(s, k);
    RemovedAt(s, k);
    forall i | 0 <= i < |t| - 1
      ensures t[i].next == t[i + 1]
    {
      assert t[i] == s[if i < k then i else i + 1];
      assert t[i + 1] == s[if i + 1 < k then i + 1 else i + 2];
    }
    forall i | 0 < i < |t|
      ensures t[i].prev == t[i - 1]
    {
      assert t[i] == s[if i < k then i else i + 1];
      assert t[i - 1] == s[if i - 1 < k then i - 1 else i];
    }
  }

  /** A list none of whose nodes were touched is still well linked. */
  twostate lemma StillValid(l: DoublyLinkedList)
    requires old(l.Valid()) && unchanged(l)
    requires forall n :: n in l.spine ==> n.prev == old(n.prev) && n.next == old(n.next) && n.list == old(n.list)
    ensures l.Valid()
  {
    assert forall i :: 0 <= i < |l.spine| ==> l.spine[i] in l.spine;
  }

  class DoublyLinkedList {
    var size: int
    const head: Node
    const tail: Node
    ghost const count: int  // the use count whose entries the list holds
    ghost var spine: seq<Node>  // all nodes in order, sentinels included

    ghost predicate Valid()
      reads this, spine`prev, spine`next, spine`list
    {
      && |spine| >= 2 && spine[0] == head && spine[|spine| - 1] == tail
      && size == |spine| - 2
      && NoDuplicates(spine)
      && (forall n :: n in spine ==> n.list == this)
      && (forall i {:trigger spine[i].next} :: 0 <= i < |spine| - 1 ==> spine[i].next == spine[i + 1])
      && (forall i {:trigger spine[i].prev} :: 0 < i < |spine| ==> spine[i].prev == spine[i - 1])
    }

    constructor (ghost count: int)
      ensures Valid() && spine == [head, tail] && this.count == count && fresh(head) && fresh(tail)
    {
      size := 0;
      var h := new Node("", [], 1);
      var t := new Node("", [], 1);
      h.next := t;
      t.prev := h;
      head, tail := h, t;
      spine := [h, t];
      this.count := count;
      new;
      head.list, tail.list := this, this;
    }

    /** Another well linked list shares no node with this one, nor holds a node linked here or nowhere. */
    lemma OthersApart(node: Node)
      requires Valid() && (node.list == null || node.list == this)
      ensures forall l: DoublyLinkedList :: l != this && l.Valid() ==>
        node !in l.spine && forall n :: n in l.spine ==> n !in spine
    {
    }

    method Len() returns (n: int)
      requires Valid()
      ensures n == |spine| - 2
    {
      return size;
    }

    /** Link a node in before the closing sentinel. */
    method SpliceLinks(node: Node)
      requires Valid() && node.list == null
      modifies spine`prev, spine`next, node`prev, node`next, node`list
      ensures |spine| >= 2 && EndsWith(spine, node) && node.list == this
      ensures forall n :: n in spine ==> n.list == this && n != node
    {
      ghost var last := |spine| - 2;
      assert spine[last].next == tail && tail.prev == spine[last] by {
        assert spine[last + 1] == tail;
      }
      assert forall n :: n in spine ==> n != node;
      var prev, curr := tail.prev, tail;
      prev.next := node;
      curr.prev := node;
      node.prev := prev;
      node.next := curr;
      node.list := this;
      forall i | 0 <= i < last
        ensures spine[i].next == spine[i + 1]
      {
        assert spine[i] != spine[last] && old(spine[i].next) == spine[i + 1];
      }
      forall i | 0 < i <= last
        ensures spine[i].prev == spine[i - 1]
      {
        assert spine[i] != spine[last + 1] && old(spine[i].prev) == spine[i - 1];
      }
    }

    /** The same, with the other lists kept well linked. */
    method Splice(node: Node)
      requires Valid() && node.list == null
      modifies spine`prev, spine`next, node`prev, node`next, node`list
      ensures |spine| >= 2 && EndsWith(spine, node) && node.list == this
      ensures forall n :: n in spine ==> n.list == this && n != node
      ensures forall l: DoublyLinkedList :: old(allocated(l)) && l != this && old(l.Valid()) ==> l.Valid()
    {
      hide Valid;
      OthersApart(node);
      SpliceLinks(node);
      forall l: DoublyLinkedList | old(allocated(l)) && l != this && old(l.Valid())
        ensures l.Valid()
      {
        StillValid(l);
      }
    }

    /** Append a node; every other list stays well linked. */
    method Push(node: Node)
      requires Valid() && node.list == null
      modifies this`size, this`spine, spine`prev, spine`next, node`prev, node`next, node`list
      ensures Valid() && |old(spine)| >= 2 && spine == Appended(old(spine), node)
      ensures forall l: DoublyLinkedList :: old(allocated(l)) && l != this && old(l.Valid()) ==> l.Valid()
    {
      ghost var s := spine;
      Splice(node);
      size := size + 1;
      AppendedAt(s, node);
      AppendedLinks(s, node);
      spine := Appended(s, node);
    }

    /** Link the neighbours of the node at position k with each other. */
    method BypassLinks(node: Node, ghost k: nat)
      requires Valid() && 0 < k < |spine| - 1 && spine[k] == node
      modifies spine`prev, spine`next, node`list
      ensures SkipsOver(spine, k) && node.list == null
      ensures forall n :: n in spine && n != node ==> n.list == this
    {
      ghost var before, after := spine[k - 1], spine[k + 1];
      assert before.next == node && after.prev == node;
      assert node.prev == before && node.next == after;
      node.prev.next := node.next;
      node.next.prev := node.prev;
      node.prev, node.next := null, null;
      node.list := null;
    }

    /** The same, with the other lists kept well linked. */
    method Bypass(node: Node, ghost k: nat)
      requires Valid() && 0 < k < |spine| - 1 && spine[k] == node
      modifies spine`prev, spine`next, node`list
      ensures SkipsOver(spine, k) && node.list == null
      ensures forall n :: n in spine && n != node ==> n.list == this
      ensures forall l: DoublyLinkedList :: old(allocated(l)) && l != this && old(l.Valid()) ==> l.Valid()
    {
      assert node.list == this;
      hide Valid;
      OthersApart(node);
      BypassLinks(node, k);
      forall l: DoublyLinkedList | old(allocated(l)) && l != this && old(l.Valid())
        ensures l.Valid()
      {
        StillValid(l);
      }
    }

    /** Take out a node of the list; on an empty list nothing happens and nil comes back. */
    method Remove(node: Node) returns (r: Node?, ghost at: nat)
      requires Valid() && (|spine| == 2 || Inside(spine, node))
      modifies this`size, this`spine, spine`prev, spine`next, node`list
      ensures Valid()
      ensures |old(spine)| == 2 ==> r == null && spine == old(spine)
      ensures |old(spine)| != 2 ==>
        && r == node && node.list == null
        && 0 < at < |old(spine)| - 1 && old(spine)[at] == node && spine == RemoveAt(old(spine), at)
      ensures forall l: DoublyLinkedList :: old(allocated(l)) && l != this && old(l.Valid()) ==> l.Valid()
    {
      if size == 0 {
        return null, 0;
      }
      ghost var k :| 0 < k < |spine| - 1 && spine[k] == node;
      ghost var s := spine;
      assert s[0] == head && s[|s| - 1] == tail && size == |s| - 2 && NoDuplicates(s);
      hide Valid, NoDuplicates, SkipsOver, RemoveAt;
      Bypass(node, k);
      size := size - 1;
      spine := RemoveAt(s, k);
      Shortened(s, k);
      return node, k;
    }

    /** A list whose links skip one node is well linked without it. */
    lemma Shortened(s: seq<Node>, k: nat)
      requires 0 < k < |s| - 1 && s[0] == head && s[|s| - 1] == tail && NoDuplicates(s) && SkipsOver(s, k)
      requires forall n :: n in s && n != s[k] ==> n.list == this
      requires size == |s| - 3 && spine == RemoveAt(s, k)
      ensures Valid()
    {
      RemovedLinks(s, k);
      RemovedAt(s, k);
      hide NoDuplicates, SkipsOver, RemoveAt;
      assert spine[0] == head && spine[|spine| - 1] == tail;
    }

    /** Take out the oldest node, or return nil when there is none. */
    method Pop() returns (r: Node?)
      requires Valid()
      modifies this`size, this`spine, spine`prev, spine`next, spine`list
      ensures Valid()
      ensures |old(spine)| == 2 ==> r == null && spine == old(spine)
      ensures |old(spine)| != 2 ==>
        |old(spine)| > 2 && r == old(spine)[1] && r.list == null && spine == RemoveAt(old(spine), 1)
      ensures forall l: DoublyLinkedList :: old(allocated(l)) && l != this && old(l.Valid()) ==> l.Valid()
    {
      assert spine[0].next == spine[1];
      assert |spine| > 2 ==> Inside(spine, spine[1]);
      ghost var at;
      r, at := Remove(head.next);
    }
  }
}
