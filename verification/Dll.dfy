/**
  The intrusive doubly linked list of include/libbk_inline.h and lib/b_dll.c, for unordered lists.

  The elements carry the links themselves.  `s` is the sequence that the links, the head and the
  tail represent; every operation changes it as its contract says.
*/
module Dll {

  type Key = int

  class Element {
    var next: Element?
    var prev: Element?
    const key: Key

    constructor (key: Key)
      ensures this.key == key && next == null && prev == null
    {
      this.key := key;
      next, prev := null, null;
    }
  }

  /** The element at an index, or NULL outside. */
  function At(s: seq<Element>, i: int): Element? { if 0 <= i < |s| then s[i] else null }

  ghost predicate Distinct(s: seq<Element>)
  {
    forall i, j :: 0 <= i < j < |s| ==> s[i] != s[j]
  }

  /** The links of the elements lead through `s` in both directions. */
  ghost predicate Linked(s: seq<Element>)
    reads s
  {
    forall i {:trigger s[i].next} {:trigger s[i].prev} ::
      0 <= i < |s| ==> s[i].next == At(s, i + 1) && s[i].prev == At(s, i - 1)
  }

  /** The comparison routine finds the same pairs equal whichever way round they are. */
  ghost predicate Symmetric(cmp: (Key, Key) -> int)
  {
    forall a, b :: cmp(a, b) == 0 <==> cmp(b, a) == 0
  }

  /** No two elements compare equal. */
  ghost predicate Unique(s: seq<Element>, cmp: (Key, Key) -> int)
  {
    forall i, j :: 0 <= i < j < |s| ==> cmp(s[i].key, s[j].key) != 0
  }

  function Inserted(s: seq<Element>, k: nat, e: Element): (t: seq<Element>)
    requires k <= |s|
    ensures |t| == |s| + 1
    ensures forall i :: 0 <= i < |t| ==> t[i] == if i < k then s[i] else if i == k then e else s[i - 1]
  {
    s[..k] + [e] + s[k..]
  }

  function Removed(s: seq<Element>, k: nat): (t: seq<Element>)
    requires k < |s|
    ensures |t| == |s| - 1 && forall i :: 0 <= i < |t| ==> t[i] == if i < k then s[i] else s[i + 1]
  {
    s[..k] + s[k + 1..]
  }

  lemma InsertedDistinct(s: seq<Element>, k: nat, e: Element)
    requires k <= |s| && Distinct(s) && e !in s
    ensures var t := Inserted(s, k, e);
      && Distinct(t) && At(t, 0) == (if k == 0 then e else At(s, 0))
      && At(t, |t| - 1) == (if k == |s| then e else At(s, |s| - 1)) && (s == [] ==> t == [e])
  {
  }

  /** The new element is linked in, and no other link has changed. */
  lemma LinkedAfterInsert(s: seq<Element>, k: nat, e: Element)
    requires k <= |s| && e.next == At(s, k) && e.prev == At(s, k - 1)
    requires forall i {:trigger s[i].next} :: 0 <= i < |s| ==> s[i].next == if i == k - 1 then e else At(s, i + 1)
    requires forall i {:trigger s[i].prev} :: 0 <= i < |s| ==> s[i].prev == if i == k then e else At(s, i - 1)
    ensures Linked(Inserted(s, k, e))
  {
  }

  /** `found` is the element nearest to the tail that compares equal to the key. */
  ghost predicate LastEqual(s: seq<Element>, key: Key, cmp: (Key, Key) -> int, found: Element?)
  {
    exists k :: 0 <= k < |s| && s[k] == found && cmp(s[k].key, key) == 0
      && forall i :: k < i < |s| ==> cmp(s[i].key, key) != 0
  }

  lemma SomeEqual(s: seq<Element>, key: Key, cmp: (Key, Key) -> int, found: Element?)
    requires LastEqual(s, key, cmp, found)
    ensures exists i :: 0 <= i < |s| && cmp(s[i].key, key) == 0
  {
  }

  lemma LastEqualGrows(s: seq<Element>, g: Element, key: Key, cmp: (Key, Key) -> int, found: Element?)
    ensures cmp(g.key, key) == 0 ==> LastEqual(s + [g], key, cmp, g)
    ensures cmp(g.key, key) != 0 && LastEqual(s, key, cmp, found) ==> LastEqual(s + [g], key, cmp, found)
  {
    var t := s + [g];
    assert t[|s|] == g;
    if cmp(g.key, key) != 0 && LastEqual(s, key, cmp, found) {
      var k :| 0 <= k < |s| && s[k] == found && cmp(s[k].key, key) == 0
        && forall i :: k < i < |s| ==> cmp(s[i].key, key) != 0;
      assert t[k] == found;
    }
  }

  lemma RemovedDistinct(s: seq<Element>, k: nat)
    requires k < |s| && Distinct(s)
    ensures var t := Removed(s, k);
      && Distinct(t) && At(t, 0) == (if k == 0 then At(s, 1) else At(s, 0))
      && At(t, |t| - 1) == (if k == |s| - 1 then At(s, |s| - 2) else At(s, |s| - 1))
  {
  }

  lemma UniqueShrinks(s: seq<Element>, k: nat, cmp: (Key, Key) -> int)
    requires k < |s|
    ensures Unique(s, cmp) ==> Unique(Removed(s, k), cmp)
  {
  }

  /** The neighbours of the removed element lead to each other, and no other link has changed. */
  lemma LinkedAfterRemove(s: seq<Element>, k: nat)
    requires k < |s|
    requires forall i {:trigger s[i].next} :: 0 <= i < |s| && i != k ==>
      s[i].next == if i == k - 1 then At(s, k + 1) else At(s, i + 1)
    requires forall i {:trigger s[i].prev} :: 0 <= i < |s| && i != k ==>
      s[i].prev == if i == k + 1 then At(s, k - 1) else At(s, i - 1)
    ensures Linked(Removed(s, k))
  {
  }

  /** Both ways round, so that a list of distinct keys stays one when an element is put at either end. */
  lemma UniqueGrows(s: seq<Element>, e: Element, cmp: (Key, Key) -> int)
    requires Symmetric(cmp) && Unique(s, cmp) && forall i :: 0 <= i < |s| ==> cmp(s[i].key, e.key) != 0
    ensures Unique([e] + s, cmp) && Unique(s + [e], cmp)
  {
  }

  class Handle {
    var head: Element?
    var tail: Element?
    const cmp: (Key, Key) -> int
    const uniqueKeys: bool
    var clash: bool                        // gdh_errno is DICT_EEXISTS
    ghost var s: seq<Element>

    ghost predicate Valid()
      reads this, s
    {
      && Distinct(s) && Linked(s) && head == At(s, 0) && tail == At(s, |s| - 1)
    }

    /** bk_dll_create of an unordered list. */
    constructor (cmp: (Key, Key) -> int, uniqueKeys: bool)
      ensures Valid() && s == [] && this.cmp == cmp && this.uniqueKeys == uniqueKeys
    {
      this.cmp, this.uniqueKeys := cmp, uniqueKeys;
      head, tail, clash, s := null, null, false, [];
    }

    /** BK_DLL_INSERT_BEFORE, at any element, or at NULL in an empty list. */
    method InsertBefore(e: Element, cur: Element?, ghost k: nat)
      requires Valid() && e !in s && k <= |s| && cur == At(s, k) && (cur == null ==> s == [])
      modifies this, s, e
      ensures s == Inserted(old(s), k, e) && clash == old(clash)
      ensures Valid() <==> old(s) != [] || (old(e.next) == null && old(e.prev) == null)
      ensures old(s) == [] ==> head == tail == e && e.next == old(e.next) && e.prev == old(e.prev)
    {
      ghost var before := s;
      InsertedDistinct(before, k, e);
      hide Inserted;
      s := Inserted(before, k, e);
      if cur == null {
        head := e;
        tail := e;
        assert e.next == s[0].next && e.prev == s[0].prev;
      } else {
        assert cur.prev == At(before, k - 1);
        e.next := cur;
        if cur.prev != null {
          cur.prev.next := e;
        } else {
          head := e;
        }
        e.prev := cur.prev;
        cur.prev := e;
        LinkedAfterInsert(before, k, e);
      }
    }

    /** BK_DLL_INSERT_AFTER, at any element, or at NULL in an empty list. */
    method InsertAfter(e: Element, cur: Element?, ghost k: nat)
      requires Valid() && e !in s && k <= |s| && cur == At(s, k - 1) && (cur == null ==> s == [])
      modifies this, s, e
      ensures s == Inserted(old(s), k, e) && clash == old(clash)
      ensures Valid() <==> old(s) != [] || (old(e.next) == null && old(e.prev) == null)
      ensures old(s) == [] ==> head == tail == e && e.next == old(e.next) && e.prev == old(e.prev)
    {
      ghost var before := s;
      InsertedDistinct(before, k, e);
      hide Inserted;
      s := Inserted(before, k, e);
      if cur == null {
        head := e;
        tail := e;
        assert e.next == s[0].next && e.prev == s[0].prev;
      } else {
        assert cur.next == At(before, k);
        e.prev := cur;
        if cur.next != null {
          cur.next.prev := e;
        } else {
          tail := e;
        }
        e.next := cur.next;
        cur.next := e;
        LinkedAfterInsert(before, k, e);
      }
    }

    lemma LinksAt(k: nat)
      requires Valid() && k < |s|
      ensures s[k].next == At(s, k + 1) && s[k].prev == At(s, k - 1)
    {
    }

    /** Valid, and with unique keys no two elements compare equal. */
    ghost predicate Good()
      reads this, s
    {
      Valid() && (uniqueKeys && Symmetric(cmp) ==> Unique(s, cmp))
    }

    /** The loop of bk_dll_insert_internal that looks for an equal element; it does not stop at the first. */
    method LookForEqual(key: Key) returns (found: Element?)
      requires Valid()
      modifies `clash
      ensures if found == null then clash == old(clash) && forall i :: 0 <= i < |s| ==> cmp(s[i].key, key) != 0
        else clash && LastEqual(s, key, cmp, found)
    {
      found := null;
      var g := head;
      ghost var n := 0;
      while g != null
        invariant n <= |s| && g == At(s, n)
        invariant found == null ==> clash == old(clash) && forall i :: 0 <= i < n ==> cmp(s[i].key, key) != 0
        invariant found != null ==> clash && LastEqual(s[..n], key, cmp, found)
        decreases |s| - n
      {
        assert s[..n + 1] == s[..n] + [g];
        LastEqualGrows(s[..n], g, key, cmp, found);
        if cmp(g.key, key) == 0 {
          found := g;
          clash := true;
        }
        g := g.next;
        n := n + 1;
      }
      assert s[..|s|] == s;
    }

    /**
      bk_dll_insert_internal of an unordered list, called as insert or append with or without the
      unique flag, which is joined with that of the handle.  An insertion into an empty list
      leaves the links of the new element as they are.
    */
    method Add(e: Element, unique: bool, append: bool) returns (ok: bool, found: Element?)
      requires Good() && e !in s
      modifies this, s, e
      ensures ok <==> !(unique || uniqueKeys) || forall i :: 0 <= i < |old(s)| ==> cmp(old(s)[i].key, e.key) != 0
      ensures ok ==> s == (if append then old(s) + [e] else [e] + old(s)) && found == null
      ensures ok ==> (Good() <==> old(s) != [] || (old(e.next) == null && old(e.prev) == null))
      ensures old(s) == [] ==> ok && head == tail == e && e.next == old(e.next) && e.prev == old(e.prev)
      ensures !ok ==> Good() && s == old(s) && clash && LastEqual(s, e.key, cmp, found)
    {
      hide LastEqual;
      found := null;
      if unique || uniqueKeys {
        found := LookForEqual(e.key);
        if found != null {
          SomeEqual(s, e.key, cmp, found);
          return false, found;
        }
      }
      ok := true;
      if Symmetric(cmp) && Unique(s, cmp) && uniqueKeys {
        UniqueGrows(s, e, cmp);
      }
      if append {
        InsertAfter(e, tail, |s|);
        assert s == old(s) + [e];
      } else {
        InsertBefore(e, head, 0);
        assert s == [e] + old(s);
      }
    }

    /** bk_dll_delete */
    method Delete(e: Element, ghost k: nat)
      requires Valid() && k < |s| && e == s[k]
      modifies this, s
      ensures Valid() && s == Removed(old(s), k) && clash == old(clash) && (old(Good()) ==> Good())
      ensures e.next == null && e.prev == null
    {
      hide Unique, Symmetric, Removed;
      ghost var before := s;
      RemovedDistinct(before, k);
      UniqueShrinks(before, k, cmp);
      assert e.next == At(before, k + 1) && e.prev == At(before, k - 1);
      if e.next != null {
        e.next.prev := e.prev;
      } else {
        tail := e.prev;
      }
      if e.prev != null {
        e.prev.next := e.next;
      } else {
        head := e.next;
      }
      e.next := null;
      e.prev := null;
      s := Removed(before, k);
      LinkedAfterRemove(before, k);
    }
  }

  class Iterator {
    var current: Element?
    const forward: bool

    /** bk_dll_iterate, from the start or from the end. */
    constructor (h: Handle, forward: bool)
      ensures this.forward == forward && current == if forward then h.head else h.tail
    {
      this.forward := forward;
      current := if forward then h.head else h.tail;
    }

    /** bk_dll_nextobj: the iterator has moved on before the element is returned. */
    method NextObj() returns (cur: Element?)
      modifies this
      ensures cur == old(current)
      ensures current == if cur == null then null else if forward then cur.next else cur.prev
    {
      cur := current;
      if cur == null {
        return;
      }
      if forward {
        current := current.next;
      } else {
        current := current.prev;
      }
    }
  }

  /** An element with a link left over, put into an empty list: a walk goes on to one that is not in it. */
  method InsertedWithOldLink(cmp: (Key, Key) -> int)
    returns (h: Handle, e: Element, other: Element, seen: seq<Element?>)
    ensures fresh(h) && fresh(e) && fresh(other)
    ensures h.s == [e] && other != e && !h.Valid() && seen == [e, other]
  {
    h := new Handle(cmp, false);
    e := new Element(1);
    other := new Element(2);
    e.next := other;
    var ok, found := h.Add(e, false, false);
    var iter := new Iterator(h, true);
    var first := iter.NextObj();
    var second := iter.NextObj();
    seen := [first, second];
  }

  /** The elements that are not to be deleted. */
  function Spared(s: seq<Element>, doomed: set<Element>): (t: seq<Element>)
    ensures |t| <= |s| && forall i :: 0 <= i < |t| ==> t[i] in s && t[i] !in doomed
  {
    if s == [] then [] else Spared(s[..|s| - 1], doomed) + (if s[|s| - 1] in doomed then [] else [s[|s| - 1]])
  }

  lemma SparedAppended(s: seq<Element>, e: Element, doomed: set<Element>)
    ensures Spared(s + [e], doomed) == Spared(s, doomed) + (if e in doomed then [] else [e])
  {
  }

  lemma SparedOne(e: Element, doomed: set<Element>)
    ensures Spared([], doomed) == [] && Spared([e], doomed) == if e in doomed then [] else [e]
  {
    SparedAppended([], e, doomed);
    assert [] + [e] == [e];
  }

  lemma {:induction false} SparedPrepended(e: Element, s: seq<Element>, doomed: set<Element>)
    ensures Spared([e] + s, doomed) == (if e in doomed then [] else [e]) + Spared(s, doomed)
  {
    hide Spared;
    if s == [] {
      SparedOne(e, doomed);
      assert [e] + s == [e];
    } else {
      var x, rest := s[|s| - 1], s[..|s| - 1];
      SparedPrepended(e, rest, doomed);
      SparedAppended(rest, x, doomed);
      SparedAppended([e] + rest, x, doomed);
      assert [e] + s == ([e] + rest) + [x] && s == rest + [x];
    }
  }

  function Reversed(s: seq<Element>): seq<Element>
  {
    if s == [] then [] else [s[|s| - 1]] + Reversed(s[..|s| - 1])
  }

  lemma {:induction false} ReversedCons(e: Element, s: seq<Element>)
    ensures Reversed([e] + s) == Reversed(s) + [e]
  {
    if s == [] {
      assert ([e] + s)[..0] == [];
    } else {
      var x, rest := s[|s| - 1], s[..|s| - 1];
      ReversedCons(e, rest);
      assert ([e] + s)[..|s|] == [e] + rest;
    }
  }

  /** What the list is while a walk from the head is at element `n`. */
  function Ahead(all: seq<Element>, n: nat, doomed: set<Element>): seq<Element>
    requires n <= |all|
  {
    Spared(all[..n], doomed) + all[n..]
  }

  /** The list at a place between two parts, and without the element there. */
  lemma AtMiddle(a: seq<Element>, e: Element, b: seq<Element>)
    ensures var s := a + ([e] + b);
      && s[|a|] == e && At(s, |a| + 1) == At(b, 0) && At(s, |a| - 1) == At(a, |a| - 1)
      && Removed(s, |a|) == a + b && (a + [e]) + b == s
  {
  }

  lemma Parted(all: seq<Element>, n: nat)
    requires n < |all|
    ensures all[..n + 1] == all[..n] + [all[n]] && all[n..] == [all[n]] + all[n + 1..]
    ensures At(all[n + 1..], 0) == At(all, n + 1) && At(all[..n], n - 1) == At(all, n - 1)
  {
  }

  lemma AheadAmong(all: seq<Element>, n: nat, doomed: set<Element>)
    requires n <= |all|
    ensures var s := Ahead(all, n, doomed); forall i :: 0 <= i < |s| ==> s[i] in all
  {
    hide Spared;
  }

  /** The element returned, the one after it, and the list once it has been dealt with. */
  lemma AheadStep(all: seq<Element>, n: nat, doomed: set<Element>)
    requires n < |all|
    ensures var s, t, k := Ahead(all, n, doomed), Ahead(all, n + 1, doomed), |Spared(all[..n], doomed)|;
      && k < |s| && s[k] == all[n] && At(s, k + 1) == At(all, n + 1) && (forall i :: 0 <= i < |s| ==> s[i] in all)
      && t == (if all[n] in doomed then Removed(s, k) else s)
    ensures all[..n + 1] == all[..n] + [all[n]]
  {
    hide Spared, Removed, At;
    var e, done := all[n], Spared(all[..n], doomed);
    AheadAmong(all, n, doomed);
    Parted(all, n);
    SparedAppended(all[..n], e, doomed);
    AtMiddle(done, e, all[n + 1..]);
    assert done + [] == done;
  }

  /** One turn of a walk over what was `all`, which may delete the element that was returned. */
  method Visit(h: Handle, iter: Iterator, doomed: set<Element>, ghost k: nat, ghost all: seq<Element>)
    returns (cur: Element)
    requires h.Valid() && k < |h.s| && iter.current == h.s[k] && forall i :: 0 <= i < |h.s| ==> h.s[i] in all
    modifies h, all, iter
    ensures h.Valid() && cur == old(h.s)[k]
    ensures h.s == if cur in doomed then Removed(old(h.s), k) else old(h.s)
    ensures iter.current == At(old(h.s), if iter.forward then k + 1 else k - 1)
  {
    hide Linked, Distinct, Removed, Unique, Symmetric;
    h.LinksAt(k);
    cur := iter.NextObj();
    if cur in doomed {
      h.Delete(cur, k);
    }
  }

  /** A walk from the head that deletes some of the elements as they are returned sees each one once. */
  method SweepForward(h: Handle, doomed: set<Element>) returns (visited: seq<Element>)
    requires h.Valid()
    modifies h, h.s
    ensures h.Valid() && visited == old(h.s) && h.s == Spared(old(h.s), doomed)
  {
    hide Linked, Distinct, Spared, Ahead, Removed, Unique, Symmetric;
    ghost var all := h.s;
    ghost var n: nat := 0;
    visited := [];
    var iter := new Iterator(h, true);
    hide Handle.Valid;
    AheadEnds(all, doomed);
    while iter.current != null
      invariant h.Valid() && n <= |all| && visited == all[..n]
      invariant h.s == Ahead(all, n, doomed)
      invariant iter.forward && iter.current == At(all, n) && fresh(iter)
      decreases |all| - n
    {
      ghost var k := |Spared(all[..n], doomed)|;
      AheadStep(all, n, doomed);
      var cur := Visit(h, iter, doomed, k, all);
      visited := visited + [cur];
      n := n + 1;
    }
    assert all[..n] == all;
  }

  lemma AheadEnds(all: seq<Element>, doomed: set<Element>)
    ensures Ahead(all, 0, doomed) == all && all[..0] == []
    ensures Ahead(all, |all|, doomed) == Spared(all, doomed) && all[..|all|] == all
  {
    assert all[..|all|] == all && all[|all|..] == [] && all[0..] == all;
  }

  /** What the list is while a walk from the tail has `n` elements to go. */
  function Behind(all: seq<Element>, n: nat, doomed: set<Element>): seq<Element>
    requires n <= |all|
  {
    all[..n] + Spared(all[n..], doomed)
  }

  lemma BehindAmong(all: seq<Element>, n: nat, doomed: set<Element>)
    requires n <= |all|
    ensures var s := Behind(all, n, doomed); forall i :: 0 <= i < |s| ==> s[i] in all
  {
    hide Spared;
  }

  lemma BehindStep(all: seq<Element>, n: nat, doomed: set<Element>)
    requires n < |all|
    ensures var s, t := Behind(all, n + 1, doomed), Behind(all, n, doomed);
      && n < |s| && s[n] == all[n] && At(s, n - 1) == At(all, n - 1) && (forall i :: 0 <= i < |s| ==> s[i] in all)
      && t == (if all[n] in doomed then Removed(s, n) else s)
  {
    hide Spared, Removed, At;
    var e, rest := all[n], Spared(all[n + 1..], doomed);
    BehindAmong(all, n + 1, doomed);
    Parted(all, n);
    SparedPrepended(e, all[n + 1..], doomed);
    AtMiddle(all[..n], e, rest);
    assert [] + rest == rest;
  }

  lemma ReversedStep(all: seq<Element>, n: nat)
    requires n < |all|
    ensures Reversed(all[n..]) == Reversed(all[n + 1..]) + [all[n]]
  {
    assert all[n..] == [all[n]] + all[n + 1..];
    ReversedCons(all[n], all[n + 1..]);
  }

  lemma BehindEnds(all: seq<Element>, doomed: set<Element>)
    ensures Behind(all, |all|, doomed) == all && Reversed(all[|all|..]) == []
    ensures Behind(all, 0, doomed) == Spared(all, doomed) && all[0..] == all
  {
  }

  /** The same walk from the tail. */
  method SweepBackward(h: Handle, doomed: set<Element>) returns (visited: seq<Element>)
    requires h.Valid()
    modifies h, h.s
    ensures h.Valid() && visited == Reversed(old(h.s)) && h.s == Spared(old(h.s), doomed)
  {
    hide Linked, Distinct, Spared, Behind, Removed, Reversed, Unique, Symmetric;
    ghost var all := h.s;
    ghost var n: nat := |all|;
    visited := [];
    var iter := new Iterator(h, false);
    hide Handle.Valid;
    BehindEnds(all, doomed);
    while iter.current != null
      invariant h.Valid() && n <= |all| && visited == Reversed(all[n..])
      invariant h.s == Behind(all, n, doomed)
      invariant !iter.forward && iter.current == At(all, n - 1) && fresh(iter)
      decreases n
    {
      n := n - 1;
      BehindStep(all, n, doomed);
      ReversedStep(all, n);
      var cur := Visit(h, iter, doomed, n, all);
      visited := visited + [cur];
    }
  }
}
