/** The LFU cache of utils/cache.go on linked lists, proved to refine module LfuSpec. */
module LfuCaches {
  import opened Api
  import opened LfuSpec
  import opened LinkedLists

  /** The nodes between the two sentinels carry the entries, in order. */
  ghost predicate Carries(m: map<string, Node>, es: seq<Entry>, spine: seq<Node>) {
    |spine| == |es| + 2 && forall i :: 0 <= i < |es| ==> es[i].key in m && m[es[i].key] == spine[i + 1]
  }

  /** Each list carries exactly the entries of its use count, and every use count has a list. */
  ghost predicate AllCarried(m: map<string, Node>, es: seq<Entry>, lists: map<int, seq<Node>>) {
    && (forall f {:trigger lists[f]} :: f in lists ==> Carries(m, Used(es, f), lists[f]))
    && (forall e :: e in es ==> e.uses in lists)
  }

  class LFUCache {
    const capacity: nat
    var size: int
    var minFreq: int
    var nodeMap: map<string, Node>
    var freqLists: map<int, DoublyLinkedList>
    ghost var spec: Cache
    ghost var lists: map<int, seq<Node>>  // the spines of freqLists
    ghost var Repr: set<object>

    /** Each entry is carried by one node of the map, with the entry's fields. */
    ghost predicate NodesMatch()
      reads this`nodeMap, this`spec, this`Repr, Repr
    {
      && (forall k {:trigger nodeMap[k]} :: k in nodeMap ==> nodeMap[k] in Repr && nodeMap[k].key == k)
      && (forall k {:trigger nodeMap[k]} :: k in nodeMap ==> Entry(k, nodeMap[k].val, nodeMap[k].freq) in spec.order)
      && (forall e :: e in spec.order ==> e.key in nodeMap)
    }

    ghost predicate InRepr(ns: seq<Node>)
      reads this`Repr
    {
      forall n :: n in ns ==> n in Repr
    }

    /** Every list is well linked, knows its use count and lies in Repr. */
    ghost predicate Wired()
      reads this`freqLists, this`lists, this`Repr, Repr
    {
      && this !in Repr
      && (forall f {:trigger freqLists[f]} :: f in freqLists ==>
            freqLists[f] in Repr && InRepr(freqLists[f].spine) && freqLists[f].Valid())
      && (forall f {:trigger freqLists[f]} :: f in freqLists ==> freqLists[f].count == f)
      && lists.Keys == freqLists.Keys
      && (forall f {:trigger freqLists[f]} :: f in freqLists ==> freqLists[f].spine == lists[f] && |lists[f]| >= 2)
    }

    /** Each list holds exactly the entries of its use count, oldest first. */
    ghost predicate ListsMatch()
      reads this
    {
      && AllCarried(nodeMap, spec.order, lists)
      && (minFreq != 0 ==> minFreq in lists)
    }

    /** Everything but the capacity bound. */
    ghost predicate Linked()
      reads this, Repr
    {
      && Wired()
      && Inv(spec)
      && minFreq == spec.minFreq
      && size == Size(spec.order)
      && NodesMatch() && ListsMatch()
    }

    ghost predicate Valid()
      reads this, Repr
    {
      Linked() && size <= capacity
    }

    constructor (capacity: nat)
      ensures Valid() && fresh(Repr) && this.capacity == capacity && spec == Cache([], 0)
    {
      this.capacity := capacity;
      size, minFreq := 0, 0;
      nodeMap, freqLists := map[], map[];
      spec := Cache([], 0);
      lists := map[];
      Repr := {};
    }

    /** Make sure a use count has a list. */
    method SetDefault(freq: int)
      requires Wired()
      modifies this`freqLists, this`lists, this`Repr
      ensures Wired() && Repr >= old(Repr) && fresh(Repr - old(Repr))
      ensures freq in lists && |lists[freq]| >= 2
      ensures if freq in old(lists) then lists == old(lists)
              else lists == old(lists)[freq := lists[freq]] && |lists[freq]| == 2
    {
      hide DoublyLinkedList.Valid;
      if freq !in freqLists {
        var l := new DoublyLinkedList(freq);
        freqLists := freqLists[freq := l];
        lists := lists[freq := l.spine];
        Repr := Repr + {l, l.head, l.tail};
      }
    }

    method Contains(key: string) returns (found: bool)
      requires Linked()
      ensures found <==> HasKey(spec.order, key)
    {
      found := key in nodeMap;
    }

    /** Nothing changed but links: the map, the counters and every node's data stay. */
    twostate predicate OnlyLinksChanged()
      reads this, nodeMap.Values
    {
      && nodeMap == old(nodeMap) && spec == old(spec) && size == old(size) && minFreq == old(minFreq)
      && (forall n :: n in nodeMap.Values ==> n.key == old(n.key) && n.val == old(n.val) && n.freq == old(n.freq))
    }

    /** Take a node out of the list of a use count. */
    method Unlink(node: Node, f: int) returns (ghost at: nat)
      requires Wired() && f in lists && Inside(lists[f], node)
      modifies this`lists, Repr
      ensures Wired() && Repr == old(Repr) && OnlyLinksChanged() && node.list == null
      ensures 0 < at < |old(lists)[f]| - 1 && old(lists)[f][at] == node
      ensures lists == old(lists)[f := RemoveAt(old(lists)[f], at)]
    {
      hide DoublyLinkedList.Valid;
      var l := freqLists[f];
      var _, k := l.Remove(node);
      at := k;
      RemovedAt(lists[f], k);
      lists := lists[f := RemoveAt(lists[f], k)];
    }

    /** Append a node to the list of a use count. */
    method Link(node: Node, f: int)
      requires Wired() && node in Repr && node.list == null && f in lists
      modifies this`lists, Repr
      ensures Wired() && Repr == old(Repr) && OnlyLinksChanged()
      ensures |old(lists)[f]| >= 2 && lists == old(lists)[f := Appended(old(lists)[f], node)]
    {
      hide DoublyLinkedList.Valid;
      var l := freqLists[f];
      l.Push(node);
      lists := lists[f := Appended(lists[f], node)];
    }

    /** Append a node to the list of a use count that may not have one yet. */
    method LinkInto(node: Node, f: int)
      requires Wired() && node in Repr && node.list == null
      modifies this`freqLists, this`lists, this`Repr, Repr
      ensures Wired() && Repr >= old(Repr) && fresh(Repr - old(Repr)) && OnlyLinksChanged()
      ensures f in lists && LinkedInto(old(lists), lists, f, node)
    {
      hide DoublyLinkedList.Valid;
      SetDefault(f);
      Link(node, f);
    }

    /** Move a node to the end of the list of the next use count. */
    method Relocate(node: Node, f: int) returns (ghost at: nat)
      requires Wired() && f in lists && Inside(lists[f], node)
      modifies this`freqLists, this`lists, this`Repr, Repr
      ensures Wired() && Repr >= old(Repr) && fresh(Repr - old(Repr)) && OnlyLinksChanged()
      ensures Promoted(old(lists), lists, f, at, node)
    {
      assert freqLists[f].spine == lists[f];
      assert node in lists[f] && node in Repr;
      hide Wired, Promoted, LinkedInto;
      ghost var was := lists;
      at := Unlink(node, f);
      LinkInto(node, f + 1);
      UnlinkedThenLinked(was, lists, f, at, node);
    }

    /** After a node left its list, an emptied lowest list moves the minimum up. */
    method AdvanceMin(freq: int)
      requires Wired() && freq in freqLists
      modifies this`minFreq
      ensures minFreq == if freq == old(minFreq) && |lists[freq]| == 2 then old(minFreq) + 1 else old(minFreq)
    {
      var len := freqLists[freq].Len();
      if freq == minFreq && len == 0 {
        minFreq := minFreq + 1;
      }
    }

    method AddUse(node: Node, ghost next: Cache)
      requires NodesMatch() && Wired() && node in nodeMap.Values
      requires HitEntries(spec.order, next.order, Entry(node.key, node.val, node.freq))
      modifies this`spec, node`freq
      ensures NodesMatch() && Wired() && lists == old(lists) && spec == next
    {
      ghost var e := Entry(node.key, node.val, node.freq);
      node.freq := node.freq + 1;
      spec := next;
      forall k | k in nodeMap
        ensures Entry(k, nodeMap[k].val, nodeMap[k].freq) in next.order
      {
        var x := Entry(k, nodeMap[k].val, nodeMap[k].freq);
        assert k != node.key ==> x in old(spec).order;
        assert k == node.key ==> x == e.(uses := e.uses + 1);
      }
    }

    /** The node of a hit has moved; next is the reference cache the hit leads to. */
    ghost predicate Moved(node: Node, next: Cache)
      reads this, Repr
    {
      && Wired() && NodesMatch() && node in nodeMap.Values && node.freq in lists && minFreq != 0
      && Inv(next) && size == Size(next.order) && AllCarried(nodeMap, next.order, lists)
      && HitEntries(spec.order, next.order, Entry(node.key, node.val, node.freq))
      && next.minFreq == (if node.freq == minFreq && |lists[node.freq]| == 2 then minFreq + 1 else minFreq)
      && next.minFreq in lists
    }

    method Move(key: string) returns (node: Node)
      requires Linked() && key in nodeMap && minFreq != 0
      modifies this`freqLists, this`lists, this`Repr, Repr
      ensures Repr >= old(Repr) && fresh(Repr - old(Repr)) && OnlyLinksChanged() && node == nodeMap[key]
      ensures Moved(node, LfuSpec.Get(spec, key))
    {
      hide Size, Used, Inv, AllCarried, HitEntries, DoublyLinkedList.Valid, LfuSpec.Get;
      node := nodeMap[key];
      ghost var was := lists;
      HitNode(key);
      ghost var at := Relocate(node, node.freq);
      CarriedKey(nodeMap, spec.order, node.freq, was, at);
      HitSpec(nodeMap, spec, key, was, lists, at);
    }

    method FinishHit(node: Node, ghost next: Cache)
      requires Moved(node, next)
      modifies this`minFreq, this`spec, node`freq
      ensures Linked() && spec == next
    {
      hide Size, Used, Inv, AllCarried, HitEntries, DoublyLinkedList.Valid;
      AdvanceMin(node.freq);
      AddUse(node, next);
    }

    /** A hit moves the node to the list of the next use count. */
    method Get(key: string) returns (val: Data, ok: bool)
      requires Linked()
      modifies this, Repr
      ensures Linked() && Repr >= old(Repr) && fresh(Repr - old(Repr))
      ensures spec == LfuSpec.Get(old(spec), key) && size == old(size)
      ensures nodeMap == old(nodeMap)
      ensures if ok then Result(old(spec), key) == Some(val) else Result(old(spec), key) == None && val == []
    {
      hide Linked, LfuSpec.Get, Result, Inv;
      Lookup(key);
      if minFreq == 0 || key !in nodeMap {
        return [], false;
      }
      var node := Hit(key);
      return node.val, true;
    }

    /** Count a use of a resident key. */
    method Hit(key: string) returns (node: Node)
      requires Linked() && key in nodeMap && minFreq != 0
      modifies this`freqLists, this`lists, this`Repr, this`minFreq, this`spec, Repr
      ensures Linked() && Repr >= old(Repr) && fresh(Repr - old(Repr))
      ensures spec == LfuSpec.Get(old(spec), key) && nodeMap == old(nodeMap) && size == old(size)
      ensures node == nodeMap[key] && node.val == old(nodeMap[key].val)
    {
      hide Linked, LfuSpec.Get, Inv, Moved;
      node := Move(key);
      InPlay(node, LfuSpec.Get(spec, key));
      FinishHit(node, LfuSpec.Get(spec, key));
    }

    lemma InPlay(node: Node, next: Cache)
      requires Moved(node, next)
      ensures node in Repr
    {
    }

    /** What a lookup will answer. */
    lemma Lookup(key: string)
      requires Linked()
      ensures minFreq == 0 || key !in nodeMap ==> Result(spec, key) == None && LfuSpec.Get(spec, key) == spec
      ensures minFreq != 0 && key in nodeMap ==> Result(spec, key) == Some(nodeMap[key].val)
    {
      if key in nodeMap {
        HitNode(key);
      }
    }

    /** Pop the oldest node of a use count, if there is one. */
    method PopOldest(f: int) returns (popped: Node?)
      requires Wired() && f in lists
      modifies this`lists, Repr
      ensures Wired() && Repr == old(Repr) && OnlyLinksChanged()
      ensures |old(lists)[f]| == 2 ==> popped == null && lists == old(lists)
      ensures |old(lists)[f]| != 2 ==>
        |old(lists)[f]| > 2 && popped == old(lists)[f][1] && lists == old(lists)[f := RemoveAt(old(lists)[f], 1)]
    {
      hide DoublyLinkedList.Valid;
      var l := freqLists[f];
      popped := l.Pop();
      if popped != null {
        RemovedAt(lists[f], 1);
        lists := lists[f := RemoveAt(lists[f], 1)];
      }
    }

    /** Forget a popped node. */
    method Forget(popped: Node, ghost next: Cache)
      requires Wired() && NodesMatch() && popped.key in nodeMap && nodeMap[popped.key] == popped
      requires DropEntry(spec.order, next.order, Entry(popped.key, popped.val, popped.freq))
      modifies this`nodeMap, this`spec, this`size
      ensures NodesMatch() && spec == next && nodeMap == old(nodeMap) - {popped.key}
      ensures size == old(size) - |popped.val|
    {
      nodeMap := nodeMap - {popped.key};
      size := size - |popped.val|;
      spec := next;
    }

    /** One round of the eviction loop. */
    method EvictOne() returns (popped: Node?)
      requires Linked() && size > capacity
      modifies this`lists, this`nodeMap, this`spec, this`size, Repr
      ensures Repr == old(Repr)
      ensures popped == null <==> Used(old(spec).order, old(spec).minFreq) == []
      ensures popped != null ==>
        Linked() && spec == Cache(DropUsed(old(spec).order, old(spec).minFreq), old(spec).minFreq)
    {
      hide Size, Used, DropUsed, Inv, AllCarried, DropEntry, DoublyLinkedList.Valid;
      ghost var c, was := spec, lists;
      NonEmptyMin();
      popped := PopOldest(minFreq);
      if popped != null {
        EvictSpec(nodeMap, c, was);
        PoppedEntry(popped, was);
        Forget(popped, Cache(DropUsed(c.order, c.minFreq), c.minFreq));
      } else {
        EmptyMeansUnused(nodeMap, c, was);
      }
    }

    /** Evict from the list of the lowest use count until the size fits; false stands for the nil
        dereference when that list runs out first. */
    method RecycleLRU() returns (ok: bool)
      requires Linked()
      modifies this`lists, this`nodeMap, this`spec, this`size, Repr
      ensures Repr == old(Repr)
      ensures ok <==> Evict(old(spec).order, old(spec).minFreq, capacity).Some?
      ensures ok ==>
        Valid() && spec == Cache(Evict(old(spec).order, old(spec).minFreq, capacity).value, old(spec).minFreq)
    {
      while size > capacity
        invariant Linked() && Repr == old(Repr) && spec.minFreq == old(spec).minFreq
        invariant Evict(spec.order, spec.minFreq, capacity) == Evict(old(spec).order, old(spec).minFreq, capacity)
        decreases |Used(spec.order, spec.minFreq)|
      {
        var popped := EvictOne();
        if popped == null {
          return false;
        }
      }
      return true;
    }

    /** Overwrite the value of a resident node. */
    method SetValue(node: Node, value: Data, ghost next: Cache)
      requires Wired() && NodesMatch() && node.key in nodeMap && nodeMap[node.key] == node
      requires NewValue(spec.order, next.order, Entry(node.key, node.val, node.freq), value)
      modifies this`size, this`spec, node`val
      ensures Wired() && NodesMatch() && spec == next
      ensures size == old(size) - |old(node.val)| + |value|
    {
      hide DoublyLinkedList.Valid;
      ghost var e := Entry(node.key, node.val, node.freq);
      size := size - |node.val|;
      size := size + |value|;
      node.val := value;
      spec := next;
      forall k | k in nodeMap
        ensures Entry(k, nodeMap[k].val, nodeMap[k].freq) in next.order
      {
        var x := Entry(k, nodeMap[k].val, nodeMap[k].freq);
        assert k != node.key ==> x in old(spec).order;
        assert k == node.key ==> x == e.(val := value);
      }
    }

    /** A Put of a resident key: a hit, then the new value. */
    method Replace(key: string, value: Data)
      requires Linked() && key in nodeMap
      modifies this, Repr
      ensures Linked() && Repr >= old(Repr) && fresh(Repr - old(Repr))
      ensures spec == Stored(old(spec), key, value)
    {
      hide Size, Used, Inv, AllCarried, NewValue, LfuSpec.Get, Stored, Wired;
      ghost var c := spec;
      ResidentMin(key);
      HitNode(key);
      var _, _ := Get(key);
      ReplaceSpec(nodeMap, c, key, value, lists);
      HitNode(key);
      SetValue(nodeMap[key], value, Stored(c, key, value));
    }

    /** Register a new node before it is linked. */
    method AddNode(node: Node, ghost next: Cache)
      requires Wired() && NodesMatch() && node.list == null && node !in Repr && node.key !in nodeMap
      requires AddedEntry(spec.order, next.order, Entry(node.key, node.val, node.freq))
      modifies this`size, this`nodeMap, this`spec, this`Repr
      ensures Wired() && NodesMatch() && spec == next && Repr == old(Repr) + {node}
      ensures nodeMap == old(nodeMap)[node.key := node] && size == old(size) + |node.val|
    {
      hide DoublyLinkedList.Valid;
      size := size + |node.val|;
      nodeMap := nodeMap[node.key := node];
      Repr := Repr + {node};
      spec := next;
    }

    /** A Put of a new key. */
    method Insert(key: string, value: Data)
      requires Linked() && key !in nodeMap
      modifies this, Repr
      ensures Linked() && Repr >= old(Repr) && fresh(Repr - old(Repr))
      ensures spec == Stored(old(spec), key, value)
    {
      hide Size, Used, Inv, AllCarried, AddedEntry, Stored, LinkedInto, Wired;
      AbsentKey(key);
      ghost var c, m, was := spec, nodeMap, lists;
      var node := new Node(key, value, 1);
      AddedLaws(c, key, value);
      AddNode(node, Stored(c, key, value));
      label L:
      LinkInto(node, 1);
      LinksKeepNodes@L();
      hide NodesMatch, OnlyLinksChanged;
      OutsideRepr();
      minFreq := 1;
      InsertSpec(m, c, key, value, was, lists, node);
    }

    twostate lemma LinksKeepNodes()
      requires OnlyLinksChanged() && old(NodesMatch()) && Repr >= old(Repr)
      ensures NodesMatch()
    {
    }

    /** Put, eviction included; false stands for the crash of evicting from an exhausted list. */
    method Put(key: string, value: Data) returns (ok: bool)
      requires Valid()
      modifies this, Repr
      ensures Repr >= old(Repr) && fresh(Repr - old(Repr))
      ensures ok <==> LfuSpec.Put(old(spec), key, value, capacity).Some?
      ensures ok ==> Valid() && Some(spec) == LfuSpec.Put(old(spec), key, value, capacity)
    {
      if capacity == 0 {
        return true;
      }
      ok := StoreAndRecycle(key, value);
    }

    method StoreAndRecycle(key: string, value: Data) returns (ok: bool)
      requires Linked()
      modifies this, Repr
      ensures Repr >= old(Repr) && fresh(Repr - old(Repr))
      ensures var s := Stored(old(spec), key, value);
        var r := Evict(s.order, s.minFreq, capacity);
        && (ok <==> r.Some?)
        && (ok ==> Valid() && spec == Cache(r.value, s.minFreq))
    {
      hide Size, Used, Inv, Stored, Evict, Wired, NodesMatch, ListsMatch;
      if key in nodeMap {
        Replace(key, value);
      } else {
        Insert(key, value);
      }
      ok := RecycleLRU();
    }

    lemma OutsideRepr()
      requires Wired()
      ensures this !in Repr
    {
    }

    lemma AbsentKey(key: string)
      requires Linked() && key !in nodeMap
      ensures !HasKey(spec.order, key)
    {
    }

    lemma ResidentMin(key: string)
      requires Linked() && key in nodeMap
      ensures minFreq != 0
    {
    }

    lemma NonEmptyMin()
      requires Linked() && size > 0
      ensures minFreq in lists
    {
    }

    /** A node taken from a list is the node of the entry it carries. */
    lemma PoppedEntry(popped: Node, was: map<int, seq<Node>>)
      requires Wired() && NodesMatch() && Inv(spec) && AllCarried(nodeMap, spec.order, was)
      requires spec.minFreq in was && |was[spec.minFreq]| > 2 && popped == was[spec.minFreq][1]
      ensures Used(spec.order, spec.minFreq) != []
      ensures Used(spec.order, spec.minFreq)[0] == Entry(popped.key, popped.val, popped.freq)
      ensures popped.key in nodeMap && nodeMap[popped.key] == popped
    {
      var e := Used(spec.order, spec.minFreq)[0];
      UsedMembers(spec.order, spec.minFreq);
      assert nodeMap[e.key] == popped;
      FindUnique(spec.order, e);
      FindUnique(spec.order, Entry(popped.key, popped.val, popped.freq));
    }

    /** The node of a resident key sits in the list of its use count. */
    lemma HitNode(key: string)
      requires Linked() && key in nodeMap
      ensures HasKey(spec.order, key) && Find(spec.order, key) == Entry(key, nodeMap[key].val, nodeMap[key].freq)
      ensures nodeMap[key].freq in lists && Inside(lists[nodeMap[key].freq], nodeMap[key])
    {
      var e := Entry(key, nodeMap[key].val, nodeMap[key].freq);
      FindUnique(spec.order, e);
      UsedMembers(spec.order, e.uses);
      var u := Used(spec.order, e.uses);
      var i :| 0 <= i < |u| && u[i] == e;
      assert lists[e.uses][i + 1] == nodeMap[key];
    }
  }

  /** The entries after dropping e. */
  ghost predicate DropEntry(was: seq<Entry>, now: seq<Entry>, e: Entry) {
    && e in was
    && forall x :: x in now <==> x in was && x.key != e.key
  }

  /** The entries after giving e a new value. */
  ghost predicate NewValue(was: seq<Entry>, now: seq<Entry>, e: Entry, v: Data) {
    && e in was
    && forall x :: x in now <==> (x in was && x.key != e.key) || x == e.(val := v)
  }

  ghost predicate AddedEntry(was: seq<Entry>, now: seq<Entry>, e: Entry) {
    forall x :: x in now <==> x in was || x == e
  }

  /** The entries after a hit on e: the others as they were, e with one more use. */
  ghost predicate HitEntries(was: seq<Entry>, now: seq<Entry>, e: Entry) {
    && e in was
    && forall x :: x in now <==> (x in was && x.key != e.key) || x == e.(uses := e.uses + 1)
  }

  /** The node at a position of a list is the node of the entry at that position. */
  lemma CarriedKey(m: map<string, Node>, es: seq<Entry>, f: int, lists: map<int, seq<Node>>, at: nat)
    requires AllCarried(m, es, lists) && f in lists && 0 < at < |lists[f]| - 1
    ensures at - 1 < |Used(es, f)| && Used(es, f)[at - 1].key in m && m[Used(es, f)[at - 1].key] == lists[f][at]
  {
  }

  /** A node moved from position at of list f to the end of list f + 1, which may be new. */
  ghost predicate Promoted(was: map<int, seq<Node>>, now: map<int, seq<Node>>, f: int, at: nat, node: Node) {
    && f in was && 0 < at < |was[f]| - 1 && was[f][at] == node
    && now.Keys == was.Keys + {f + 1}
    && now[f] == RemoveAt(was[f], at)
    && (f + 1 in was ==> |was[f + 1]| >= 2 && now[f + 1] == Appended(was[f + 1], node))
    && (f + 1 !in was ==> |now[f + 1]| == 3 && now[f + 1][1] == node)
    && (forall g :: g in was && g != f && g != f + 1 ==> now[g] == was[g])
  }

  /** A node joined the end of list f, which may be new. */
  ghost predicate LinkedInto(was: map<int, seq<Node>>, now: map<int, seq<Node>>, f: int, node: Node) {
    && now.Keys == was.Keys + {f} && (forall g :: g in was && g != f ==> now[g] == was[g])
    && (f in was ==> |was[f]| >= 2 && now[f] == Appended(was[f], node))
    && (f !in was ==> |now[f]| == 3 && now[f][1] == node)
  }

  lemma UnlinkedThenLinked(was: map<int, seq<Node>>, now: map<int, seq<Node>>, f: int, at: nat, node: Node)
    requires f in was && 0 < at < |was[f]| - 1 && was[f][at] == node
    requires LinkedInto(was[f := RemoveAt(was[f], at)], now, f + 1, node)
    ensures Promoted(was, now, f, at, node)
  {
    hide RemoveAt, Appended;
  }

  /** What a hit does to the reference cache, in the terms of the lists. */
  lemma HitSpec(m: map<string, Node>, c: Cache, k: string, was: map<int, seq<Node>>, now: map<int, seq<Node>>, at: nat)
    requires Inv(c) && c.minFreq != 0 && HasKey(c.order, k) && k in m && AllCarried(m, c.order, was)
    requires Promoted(was, now, Find(c.order, k).uses, at, m[k])
    requires Used(c.order, Find(c.order, k).uses)[at - 1].key == k
    requires c.minFreq in was
    ensures var e := Find(c.order, k);
            var next := LfuSpec.Get(c, k);
            && Inv(next) && Size(next.order) == Size(c.order) && AllCarried(m, next.order, now)
            && HitEntries(c.order, next.order, e)
            && next.minFreq == (if e.uses == c.minFreq && |now[e.uses]| == 2 then c.minFreq + 1 else c.minFreq)
            && next.minFreq in now
  {
    TouchMembers(c.order, k);
    TouchCarried(m, c.order, k, was, now, at);
    GetKeepsInv(c, k);
  }

  /** Moving the node of a used entry one list up keeps all lists carried. */
  lemma TouchCarried(m: map<string, Node>, es: seq<Entry>, k: string, was: map<int, seq<Node>>,
                     now: map<int, seq<Node>>, at: nat)
    requires UniqueKeys(es) && HasKey(es, k) && k in m && AllCarried(m, es, was)
    requires Promoted(was, now, Find(es, k).uses, at, m[k])
    requires Used(es, Find(es, k).uses)[at - 1].key == k
    ensures AllCarried(m, Touch(es, k), now)
  {
    var e := Find(es, k);
    forall g | g in now
      ensures Carries(m, Used(Touch(es, k), g), now[g])
    {
      UsedTouch(es, k, g);
      if g == e.uses {
        TouchedList(m, es, k, was[g], at);
      } else if g == e.uses + 1 {
        NextList(m, Used(es, g), Entry(k, e.val, g), was, now, g);
        if g !in was {
          UnusedIsEmpty(es, g);
        }
      }
    }
    forall x | x in Touch(es, k)
      ensures x.uses in now
    {
      TouchMembers(es, k);
    }
  }

  lemma TouchedList(m: map<string, Node>, es: seq<Entry>, k: string, spine: seq<Node>, at: nat)
    requires UniqueKeys(es) && HasKey(es, k)
    requires var u := Used(es, Find(es, k).uses); Carries(m, u, spine) && 0 < at <= |u| && u[at - 1].key == k
    ensures Carries(m, Without(Used(es, Find(es, k).uses), k), RemoveAt(spine, at))
  {
    UsedMembers(es, Find(es, k).uses);
    CarriesWithout(m, Used(es, Find(es, k).uses), spine, k, at);
  }

  lemma NextList(m: map<string, Node>, u: seq<Entry>, e: Entry, was: map<int, seq<Node>>, now: map<int, seq<Node>>,
                 g: int)
    requires e.key in m && g in now
    requires g in was ==> Carries(m, u, was[g]) && now[g] == Appended(was[g], m[e.key])
    requires g !in was ==> |now[g]| == 3 && now[g][1] == m[e.key]
    ensures g in was ==> Carries(m, u + [e], now[g])
    ensures g !in was ==> Carries(m, [e], now[g])
  {
  }

  lemma UnusedIsEmpty(es: seq<Entry>, f: int)
    requires forall e :: e in es ==> e.uses != f
    ensures Used(es, f) == []
  {
  }

  /** How a hit changes the sublist of each use count. */
  lemma UsedTouch(es: seq<Entry>, k: string, g: int)
    requires UniqueKeys(es) && HasKey(es, k)
    ensures var e := Find(es, k);
            Used(Touch(es, k), g)
            == if g == e.uses then Without(Used(es, g), k)
               else if g == e.uses + 1 then Used(es, g) + [e.(uses := e.uses + 1)]
               else Used(es, g)
  {
    var e := Find(es, k);
    var e' := e.(uses := e.uses + 1);
    UsedWithout(es, k, g);
    UsedAppend(Without(es, k), [e'], g);
    assert Used([e'], g) == if e'.uses == g then [e'] else [];
  }

  lemma {:induction false} WithoutIsRemoveAt(es: seq<Entry>, k: string, at: nat)
    requires UniqueKeys(es) && at < |es| && es[at].key == k
    ensures Without(es, k) == RemoveAt(es, at)
  {
    if at > 0 {
      assert es[0].key != k;
      WithoutIsRemoveAt(es[1..], k, at - 1);
      assert RemoveAt(es, at) == [es[0]] + RemoveAt(es[1..], at - 1);
    } else {
      assert RemoveAt(es, 0) == es[1..];
    }
  }

  lemma CarriesWithout(m: map<string, Node>, es: seq<Entry>, spine: seq<Node>, k: string, at: nat)
    requires UniqueKeys(es) && Carries(m, es, spine) && 0 < at <= |es| && es[at - 1].key == k
    ensures Carries(m, Without(es, k), RemoveAt(spine, at))
  {
    WithoutIsRemoveAt(es, k, at - 1);
    RemovedAt(es, at - 1);
    RemovedAt(spine, at);
  }

  // ---- Eviction ----

  lemma EmptyMeansUnused(m: map<string, Node>, c: Cache, lists: map<int, seq<Node>>)
    requires AllCarried(m, c.order, lists) && c.minFreq in lists && |lists[c.minFreq]| == 2
    ensures Used(c.order, c.minFreq) == []
  {
  }

  /** Dropping the oldest entry of the lowest list keeps the rest carried. */
  lemma EvictSpec(m: map<string, Node>, c: Cache, was: map<int, seq<Node>>)
    requires Inv(c) && AllCarried(m, c.order, was) && c.minFreq in was && |was[c.minFreq]| > 2
    ensures Used(c.order, c.minFreq) != []
    ensures var e := Used(c.order, c.minFreq)[0];
            var next := Cache(DropUsed(c.order, c.minFreq), c.minFreq);
            && e.key in m && m[e.key] == was[c.minFreq][1]
            && Inv(next) && Size(next.order) == Size(c.order) - |e.val|
            && DropEntry(c.order, next.order, e)
            && AllCarried(m - {e.key}, next.order, was[c.minFreq := RemoveAt(was[c.minFreq], 1)])
  {
    var f := c.minFreq;
    var e := Used(c.order, f)[0];
    DropUsedIsWithout(c.order, f);
    WithoutLaws(c.order, e.key);
    UsedMembers(c.order, f);
    DropMembers(c.order, e);
    DropCarried(m, c.order, f, was);
  }

  lemma DropMembers(es: seq<Entry>, e: Entry)
    requires UniqueKeys(es) && e in es
    ensures DropEntry(es, Without(es, e.key), e)
  {
    FindUnique(es, e);
    WithoutLaws(es, e.key);
  }

  lemma DropCarried(m: map<string, Node>, es: seq<Entry>, f: int, was: map<int, seq<Node>>)
    requires UniqueKeys(es) && AllCarried(m, es, was) && f in was && |was[f]| > 2
    ensures Used(es, f) != []
    ensures AllCarried(m - {Used(es, f)[0].key}, DropUsed(es, f), was[f := RemoveAt(was[f], 1)])
  {
    assert Carries(m, Used(es, f), was[f]);
    var e := Used(es, f)[0];
    var k := e.key;
    var now := was[f := RemoveAt(was[f], 1)];
    DropUsedIsWithout(es, f);
    UsedMembers(es, f);
    hide Used, Without, DropUsed, Carries, Find;
    forall g | g in now
      ensures Carries(m - {k}, Used(DropUsed(es, f), g), now[g])
    {
      if g == f {
        CarriesTail(m, Used(es, f), was[f]);
      } else {
        UsedWithout(es, k, g);
        CarriesOthers(m, es, g, was[g], e);
      }
    }
  }

  lemma CarriesTail(m: map<string, Node>, u: seq<Entry>, spine: seq<Node>)
    requires UniqueKeys(u) && u != [] && Carries(m, u, spine)
    ensures Carries(m - {u[0].key}, u[1..], RemoveAt(spine, 1))
  {
    RemovedAt(spine, 1);
    assert forall i :: 0 <= i < |u| - 1 ==> u[1..][i] == u[i + 1] && u[i + 1].key != u[0].key;
  }

  lemma CarriesOthers(m: map<string, Node>, es: seq<Entry>, g: int, spine: seq<Node>, e: Entry)
    requires UniqueKeys(es) && Carries(m, Used(es, g), spine) && e in es && e.uses != g
    ensures Carries(m - {e.key}, Used(es, g), spine)
  {
    UsedMembers(es, g);
    var u := Used(es, g);
    forall i | 0 <= i < |u|
      ensures u[i].key != e.key
    {
      assert u[i] in es;
      FindUnique(es, u[i]);
      FindUnique(es, e);
    }
  }

  // ---- Put ----

  lemma StoredHit(c: Cache, k: string, v: Data)
    requires Inv(c) && c.minFreq != 0 && HasKey(c.order, k)
    ensures var w, e := Without(c.order, k), Find(c.order, k);
            && LfuSpec.Get(c, k).order == w + [e.(uses := e.uses + 1)]
            && Stored(c, k, v) == Cache(w + [Entry(k, v, e.uses + 1)], LfuSpec.Get(c, k).minFreq)
            && UniqueKeys(w) && !HasKey(w, k) && e.key == k
  {
    WithoutLaws(c.order, k);
  }

  /** Replacing the value of the entry used last changes nothing else. */
  lemma ReplaceSpec(m: map<string, Node>, c: Cache, k: string, v: Data, lists: map<int, seq<Node>>)
    requires Inv(c) && c.minFreq != 0 && HasKey(c.order, k)
    requires AllCarried(m, LfuSpec.Get(c, k).order, lists)
    ensures var g, s, e := LfuSpec.Get(c, k), Stored(c, k, v), Find(c.order, k);
            && Inv(s) && s.minFreq == g.minFreq && AllCarried(m, s.order, lists)
            && Size(s.order) == Size(c.order) - |e.val| + |v|
            && HasKey(g.order, k) && Find(g.order, k) == e.(uses := e.uses + 1)
            && NewValue(g.order, s.order, Find(g.order, k), v)
  {
    StoredInv(c, k, v);
    StoredSize(c, k, v);
    StoredHit(c, k, v);
    GetKeepsInv(c, k);
    var w, e := Without(c.order, k), Find(c.order, k);
    FindUnique(LfuSpec.Get(c, k).order, e.(uses := e.uses + 1));
    SameKeysCarried(m, w, e.(uses := e.uses + 1), Entry(k, v, e.uses + 1), lists);
    LastMembers(w, e.(uses := e.uses + 1), v);
  }

  lemma LastMembers(w: seq<Entry>, e: Entry, v: Data)
    requires !HasKey(w, e.key)
    ensures NewValue(w + [e], w + [e.(val := v)], e, v)
  {
  }

  lemma SameKeysCarried(m: map<string, Node>, w: seq<Entry>, e: Entry, e': Entry, lists: map<int, seq<Node>>)
    requires e.key == e'.key && e.uses == e'.uses && AllCarried(m, w + [e], lists)
    ensures AllCarried(m, w + [e'], lists)
  {
    forall f | f in lists
      ensures Carries(m, Used(w + [e'], f), lists[f])
    {
      UsedAppend(w, [e], f);
      UsedAppend(w, [e'], f);
      assert Used([e], f) == if e.uses == f then [e] else [];
      assert Used([e'], f) == if e.uses == f then [e'] else [];
      var a, b := Used(w + [e], f), Used(w + [e'], f);
      assert Carries(m, a, lists[f]) && |a| == |b|;
      assert forall i :: 0 <= i < |a| ==> b[i].key == a[i].key;
    }
    forall x | x in w + [e']
      ensures x.uses in lists
    {
      assert x in w ==> x in w + [e];
      assert e in w + [e];
    }
  }

  lemma AddedLaws(c: Cache, k: string, v: Data)
    requires Inv(c) && !HasKey(c.order, k)
    ensures Stored(c, k, v) == Cache(c.order + [Entry(k, v, 1)], 1)
    ensures AddedEntry(c.order, Stored(c, k, v).order, Entry(k, v, 1))
    ensures Inv(Stored(c, k, v)) && Size(Stored(c, k, v).order) == Size(c.order) + |v|
  {
    WithoutAbsent(c.order, k);
    StoredInv(c, k, v);
    StoredSize(c, k, v);
  }

  /** Linking the node of a new entry at the end of the first list keeps all lists carried. */
  lemma InsertSpec(m: map<string, Node>, c: Cache, k: string, v: Data, was: map<int, seq<Node>>,
                   now: map<int, seq<Node>>, node: Node)
    requires Inv(c) && !HasKey(c.order, k) && AllCarried(m, c.order, was)
    requires LinkedInto(was, now, 1, node)
    ensures AllCarried(m[k := node], Stored(c, k, v).order, now)
  {
    AddedLaws(c, k, v);
    var e, es := Entry(k, v, 1), c.order;
    forall g | g in now
      ensures Carries(m[k := node], Used(es + [e], g), now[g])
    {
      UsedAppend(es, [e], g);
      assert Used([e], g) == if g == 1 then [e] else [];
      UsedMembers(es, g);
      if g in was {
        CarriesExtended(m, es, g, was[g], k, node);
      } else {
        UnusedIsEmpty(es, g);
      }
      if g == 1 {
        NextList(m[k := node], Used(es, 1), e, was, now, 1);
      }
    }
  }

  lemma CarriesExtended(m: map<string, Node>, es: seq<Entry>, g: int, spine: seq<Node>, k: string, node: Node)
    requires !HasKey(es, k) && Carries(m, Used(es, g), spine)
    ensures Carries(m[k := node], Used(es, g), spine)
  {
    UsedMembers(es, g);
    var u := Used(es, g);
    assert forall i :: 0 <= i < |u| ==> u[i] in es && u[i].key != k;
  }
}
