/**
  The address list of a network endpoint and its primary address (lib/b_netinfo.c).

  The list is a unique-key list of the CLC library, which decides where a new address goes: `place`
  stands for that.  Over any calls the addresses have one type and no two are the same, and the
  primary is unset or one of them; a reset and then advances go through every address once.
*/
module Netinfo {
  import opened Options

  datatype Kind = Inet | Inet6 | Ether

  /** bna_type, bna_len and the bytes of bna_addr. */
  datatype Addr = Addr(kind: Kind, len: nat, data: seq<bv8>)

  /** The bytes that bna_oo_cmp looks at. */
  function Bytes(a: Addr): seq<bv8> { if a.len <= |a.data| then a.data[..a.len] else a.data }

  /** bna_oo_cmp finds no difference. */
  predicate Same(a: Addr, b: Addr) { a.kind == b.kind && a.len == b.len && Bytes(a) == Bytes(b) }

  /** Two addresses are the same if kind, length and so many bytes agree, whatever follows those. */
  lemma SameExactly(a: Addr, b: Addr)
    requires a.len <= |a.data| && b.len <= |b.data|
    ensures Same(a, b) <==> a.kind == b.kind && a.len == b.len && forall i :: 0 <= i < a.len ==> a.data[i] == b.data[i]
  {
    if a.len == b.len {
      assert forall i :: 0 <= i < a.len ==> Bytes(a)[i] == a.data[i] && Bytes(b)[i] == b.data[i];
    }
  }

  /** netinfo_addrs_search: the index of the first address that is the same, or the length. */
  function Find(s: seq<Addr>, a: Addr): (k: nat)
    ensures k <= |s| && (k < |s| ==> Same(a, s[k])) && forall i :: 0 <= i < k ==> !Same(a, s[i])
  {
    if s == [] || Same(a, s[0]) then 0 else 1 + Find(s[1..], a)
  }

  predicate NoneSame(s: seq<Addr>)
  {
    forall i, j :: 0 <= i < j < |s| ==> !Same(s[i], s[j])
  }

  predicate OneKind(s: seq<Addr>)
  {
    forall i :: 0 <= i < |s| ==> s[i].kind == s[0].kind
  }

  /** The list with an address put in at some place. */
  function Inserted(s: seq<Addr>, at: nat, a: Addr): (t: seq<Addr>)
    requires at <= |s|
    ensures |t| == |s| + 1 && multiset(t) == multiset(s) + multiset{a}
    ensures forall i :: 0 <= i < |t| ==> t[i] == if i < at then s[i] else if i == at then a else s[i - 1]
  {
    assert s == s[..at] + s[at..];
    s[..at] + [a] + s[at..]
  }

  lemma InsertedHeld(s: seq<Addr>, at: nat, a: Addr)
    requires at <= |s| && OneKind(s) && NoneSame(s) && Find(s, a) == |s| && (s != [] ==> s[0].kind == a.kind)
    ensures var t := Inserted(s, at, a); OneKind(t) && NoneSame(t) && forall x :: x in t <==> x in s || x == a
  {
    hide Find, Same, NoneSame, OneKind, Inserted;
    InsertedMembers(s, at, a);
    NoneLike(s, a);
    InsertedApart(s, at, a);
    InsertedOneKind(s, at, a);
  }

  lemma InsertedApart(s: seq<Addr>, at: nat, a: Addr)
    requires at <= |s| && NoneSame(s) && forall i :: 0 <= i < |s| ==> !Same(a, s[i]) && !Same(s[i], a)
    ensures NoneSame(Inserted(s, at, a))
  {
    var t := Inserted(s, at, a);
    hide Same, Inserted;
    Positions(s, at, a);
    forall i, j | 0 <= i < j < |t| ensures !Same(t[i], t[j]) {
      var p, q := if i < at then i else i - 1, if j < at then j else j - 1;
      if i != at && j != at {
        assert !Same(s[p], s[q]);
      }
    }
  }

  lemma InsertedOneKind(s: seq<Addr>, at: nat, a: Addr)
    requires at <= |s| && OneKind(s) && (s != [] ==> s[0].kind == a.kind)
    ensures OneKind(Inserted(s, at, a))
  {
    var t := Inserted(s, at, a);
    hide Inserted;
    Positions(s, at, a);
    assert forall i :: 0 <= i < |t| ==> t[i].kind == a.kind;
  }

  lemma Positions(s: seq<Addr>, at: nat, a: Addr)
    requires at <= |s|
    ensures var t := Inserted(s, at, a);
      |t| == |s| + 1 && forall i :: 0 <= i < |t| ==> t[i] == if i < at then s[i] else if i == at then a else s[i - 1]
  {
  }

  lemma InsertedMembers(s: seq<Addr>, at: nat, a: Addr)
    requires at <= |s|
    ensures forall x :: x in Inserted(s, at, a) <==> x in s || x == a
  {
    assert s == s[..at] + s[at..];
  }

  lemma NoneLike(s: seq<Addr>, a: Addr)
    requires Find(s, a) == |s|
    ensures forall i :: 0 <= i < |s| ==> !Same(a, s[i]) && !Same(s[i], a)
  {
  }

  /** An address is found where it is. */
  lemma FoundAt(s: seq<Addr>, k: nat)
    requires k < |s| && NoneSame(s)
    ensures Find(s, s[k]) == k
  {
  }

  lemma CutOut(s: seq<Addr>, k: nat)
    requires k < |s| && NoneSame(s) && OneKind(s)
    ensures var rest := s[..k] + s[k + 1..];
      NoneSame(rest) && OneKind(rest) && forall x :: x in s && x != s[k] ==> x in rest
  {
  }

  class Info {
    var addrs: seq<Addr>
    var primary: Option<Addr>
    var secondary: Option<Addr>

    ghost predicate Valid()
      reads this
    {
      && OneKind(addrs) && NoneSame(addrs)
      && (primary.Some? ==> primary.value in addrs) && (secondary.Some? ==> secondary.value in addrs)
    }

    /** bk_netinfo_create */
    constructor ()
      ensures Valid() && addrs == [] && primary == None && secondary == None
    {
      addrs, primary, secondary := [], None, None;
    }

    /**
      bk_netinfo_add_addr: 1 for another type; for an address that is there already, success with
      the old one if there is room for it, and failure otherwise.  The first address becomes the primary.
    */
    method Add(a: Addr, wantOld: bool, place: nat) returns (ret: int, existing: Option<Addr>)
      requires Valid() && place <= |addrs|
      modifies `addrs, `primary
      ensures Valid()
      ensures ret == 1 <==> old(addrs) != [] && old(addrs)[0].kind != a.kind
      ensures ret == -1 <==> old(Find(addrs, a) < |addrs|) && !wantOld
      ensures ret == 0 || ret == 1 || ret == -1
      ensures addrs == if ret == 0 && existing == None then Inserted(old(addrs), place, a) else old(addrs)
      ensures existing.Some? <==> wantOld && old(Find(addrs, a) < |addrs|)
      ensures existing.Some? ==> existing.value == old(addrs)[old(Find(addrs, a))]
      ensures primary == if old(addrs) == [] && addrs != [] && old(primary) == None then Some(a) else old(primary)
    {
      existing := None;
      var k := Find(addrs, a);
      if addrs != [] && addrs[0].kind != a.kind {
        return 1, None;
      }
      var firstEntry := addrs == [];
      if k < |addrs| {
        if wantOld {
          return 0, Some(addrs[k]);
        }
        return -1, None;
      }
      InsertedHeld(addrs, place, a);
      hide Inserted, NoneSame, OneKind, Same;
      addrs := Inserted(addrs, place, a);
      if firstEntry {
        var r := SetPrimary(None);
      }
      return 0, None;
    }

    /** One turn of the loop of bk_netinfo_clone. */
    method AddCopy(a: Addr, isPrimary: bool, isSecondary: bool, place: nat)
      requires Valid() && place <= |addrs| && Find(addrs, a) == |addrs| && (addrs != [] ==> addrs[0].kind == a.kind)
      modifies this
      ensures Valid() && addrs == Inserted(old(addrs), place, a)
      ensures primary == if isPrimary || (old(addrs) == [] && old(primary) == None) then Some(a) else old(primary)
      ensures secondary == if isSecondary then Some(a) else old(secondary)
    {
      var ret, o := Add(a, false, place);
      if isPrimary {
        primary := Some(a);
      }
      if isSecondary {
        secondary := Some(a);
      }
    }

    /**
      bk_netinfo_delete_addr.  When the address is not there, the warning prints the name of an
      address that is NULL: the call does not return.
    */
    method Delete(a: Addr) returns (crashed: bool, removed: Option<Addr>)
      requires Valid()
      modifies this
      ensures Valid()
      ensures crashed <==> forall x :: x in old(addrs) ==> !Same(a, x)
      ensures crashed ==> addrs == old(addrs) && primary == old(primary) && secondary == old(secondary)
      ensures !crashed ==>
        (var k := old(Find(addrs, a));
         k < |old(addrs)| && addrs == old(addrs)[..k] + old(addrs)[k + 1..] && removed == Some(old(addrs)[k]))
      ensures !crashed ==> primary == if old(primary) == removed then None else old(primary)
      ensures !crashed ==> secondary == if old(secondary) == removed then None else old(secondary)
    {
      var k := Find(addrs, a);
      if k == |addrs| {
        return true, None;
      }
      assert addrs[k] in addrs;
      removed := Some(addrs[k]);
      CutOut(addrs, k);
      hide NoneSame, OneKind;
      addrs := addrs[..k] + addrs[k + 1..];
      if primary == removed {
        primary := None;
      }
      if secondary == removed {
        secondary := None;
      }
      crashed := false;
    }

    /** bk_netinfo_get_addr: the primary, or the first address. */
    method GetAddr() returns (a: Option<Addr>)
      requires Valid()
      ensures a == if primary.Some? then primary else if addrs == [] then None else Some(addrs[0])
      ensures a.Some? ==> a.value in addrs
    {
      if primary.Some? {
        return primary;
      }
      a := if addrs == [] then None else Some(addrs[0]);
    }

    /** bk_netinfo_set_primary_address */
    method SetPrimary(a: Option<Addr>) returns (ret: int)
      requires Valid()
      modifies `primary
      ensures Valid() && (ret == 0 || ret == -1)
      ensures ret == 0 ==> primary.Some? && (if a.Some? then Same(a.value, primary.value)
        else primary == (if old(primary).Some? then old(primary) else Some(addrs[0])))
      ensures ret == -1 ==> primary == old(primary)
      ensures ret == -1 <==> if a.Some? then forall x :: x in addrs ==> !Same(a.value, x) else addrs == []
    {
      var found: Option<Addr>;
      if a.Some? {
        var k := Find(addrs, a.value);
        assert k < |addrs| ==> addrs[k] in addrs;
        found := if k < |addrs| then Some(addrs[k]) else None;
      } else {
        found := GetAddr();
      }
      if found == None {
        return -1;
      }
      primary := found;
      ret := 0;
    }

    /** bk_netinfo_reset_primary_address */
    method Reset()
      requires Valid()
      modifies `primary
      ensures Valid() && primary == None
    {
      primary := None;
    }

    /** Where the primary address is in the list; one less than the start when it is unset. */
    ghost function Place(): int
      requires Valid()
      reads this
    {
      if primary.Some? then Find(addrs, primary.value) else -1
    }

    lemma PlaceIs(k: nat)
      requires Valid() && k < |addrs| && primary == Some(addrs[k])
      ensures Place() == k
    {
    }

    lemma PlaceHolds()
      requires Valid() && primary.Some?
      ensures 0 <= Place() < |addrs| && addrs[Place()] == primary.value
    {
    }

    /** bk_netinfo_advance_primary_address: one place on, and unset after the last. */
    method Advance() returns (a: Option<Addr>)
      requires Valid()
      modifies `primary
      ensures Valid() && a == primary
      ensures var k := old(Place()) + 1; a == if 0 <= k < |addrs| then Some(addrs[k]) else None
      ensures a.Some? ==> Place() == old(Place()) + 1
    {
      if primary == None {
        var ret := SetPrimary(None);
        if ret == -1 {
          return None;
        }
        PlaceIs(0);
      } else {
        PlaceHolds();
        var k := Find(addrs, primary.value);
        if k + 1 < |addrs| {
          FoundAt(addrs, k + 1);
          var ret := SetPrimary(Some(addrs[k + 1]));
          assert Same(addrs[k + 1], addrs[k + 1]);
          PlaceHolds();
          assert primary == Some(addrs[k + 1]) by {
            OnlySame(addrs, k + 1, Place());
          }
          PlaceIs(k + 1);
        } else {
          primary := None;
        }
      }
      a := primary;
    }

    /** A reset, and advances until there is no address: every address once, in the order of the list. */
    method Enumerate() returns (seen: seq<Addr>)
      requires Valid()
      modifies `primary
      ensures Valid() && seen == addrs && primary == None
    {
      Reset();
      seen := [];
      var a := Advance();
      while a.Some?
        invariant Valid() && a == primary && |seen| <= |addrs| && seen == addrs[..|seen|]
        invariant a == if |seen| < |addrs| then Some(addrs[|seen|]) else None
        invariant a.Some? ==> Place() == |seen|
        decreases |addrs| - |seen|
      {
        seen := seen + [a.value];
        a := Advance();
      }
    }
  }

  lemma OnlySame(s: seq<Addr>, i: nat, j: nat)
    requires NoneSame(s) && i < |s| && j < |s| && Same(s[i], s[j])
    ensures i == j
  {
  }

  /** An address that is added, deleted, and deleted again: the second time the call does not return. */
  method DeletedTwice(a: Addr) returns (info: Info, first: bool, second: bool)
    ensures fresh(info) && info.Valid() && info.addrs == [] && !first && second
  {
    info := new Info();
    var ret, existing := info.Add(a, false, 0);
    assert info.addrs == [a] && a in info.addrs;
    var removed;
    first, removed := info.Delete(a);
    second, removed := info.Delete(a);
  }

  /** What has been copied of a pointer into the list, when this much of the list has been. */
  function Copied(p: Option<Addr>, part: seq<Addr>, otherwise: Option<Addr>): Option<Addr>
  {
    if p.Some? && p.value in part then p else otherwise
  }

  predicate PointersIn(p: Option<Addr>, q: Option<Addr>, s: seq<Addr>)
  {
    (p.Some? ==> p.value in s) && (q.Some? ==> q.value in s)
  }

  lemma NothingCopied(p: Option<Addr>, q: Option<Addr>, s: seq<Addr>)
    ensures s[..0] == [] && Copied(p, s[..0], None) == None && Copied(q, s[..0], None) == None
  {
  }

  lemma AllCopied(p: Option<Addr>, q: Option<Addr>, s: seq<Addr>)
    requires PointersIn(p, q, s)
    ensures p.Some? ==> forall o :: Copied(p, s, o) == p
    ensures p.None? ==> forall o :: Copied(p, s, o) == o
    ensures Copied(q, s, None) == q
  {
  }

  lemma CopiedStep(p: Option<Addr>, s: seq<Addr>, n: nat, before: Option<Addr>, after: Option<Addr>)
    requires n < |s| && (before == after || n == 0)
    ensures Copied(p, s[..n + 1], after)
      == if p == Some(s[n]) then p else if n == 0 then after else Copied(p, s[..n], before)
  {
  }

  lemma NotYetThere(s: seq<Addr>, n: nat, done: seq<Addr>, place: nat)
    requires n < |s| && NoneSame(s) && OneKind(s) && multiset(done) == multiset(s[..n])
    ensures Find(done, s[n]) == |done| == n && (done != [] ==> done[0].kind == s[n].kind)
    ensures place <= n ==> multiset(s[..n + 1]) == multiset(Inserted(done, place, s[n]))
  {
    hide Inserted;
    assert s[..n + 1] == s[..n] + [s[n]];
    SameLength(done, s[..n]);
    forall i | 0 <= i < |done| ensures !Same(s[n], done[i]) && done[i].kind == s[n].kind {
      var j := Elsewhere(done, s[..n], i);
      assert !Same(s[j], s[n]);
    }
    FindNone(done, s[n]);
    if place <= n {
      InsertedCount(done, place, s[n]);
    }
  }

  lemma InsertedCount(s: seq<Addr>, at: nat, a: Addr)
    requires at <= |s|
    ensures multiset(Inserted(s, at, a)) == multiset(s) + multiset{a}
  {
  }

  lemma SameLength(a: seq<Addr>, b: seq<Addr>)
    requires multiset(a) == multiset(b)
    ensures |a| == |b|
  {
    assert |a| == |multiset(a)| && |b| == |multiset(b)|;
  }

  lemma Elsewhere(a: seq<Addr>, b: seq<Addr>, i: nat) returns (j: nat)
    requires multiset(a) == multiset(b) && i < |a|
    ensures j < |b| && b[j] == a[i]
  {
    assert a[i] in multiset(b);
    j :| j < |b| && b[j] == a[i];
  }

  lemma FindNone(s: seq<Addr>, a: Addr)
    requires forall i :: 0 <= i < |s| ==> !Same(a, s[i])
    ensures Find(s, a) == |s|
  {
  }

  /**
    bk_netinfo_clone, as far as the addresses go: the same addresses, wherever the list puts each,
    and the same primary, or the first address of the original if it had none.
  */
  method Clone(from: Info, places: seq<nat>) returns (to: Info)
    requires from.Valid() && |places| == |from.addrs| && forall i :: 0 <= i < |places| ==> places[i] <= i
    ensures fresh(to) && to.Valid() && multiset(to.addrs) == multiset(from.addrs)
    ensures to.primary ==
      if from.primary.Some? then from.primary else if from.addrs == [] then None else Some(from.addrs[0])
    ensures to.secondary == from.secondary
  {
    hide Find;
    to := new Info();
    ghost var source := from.addrs;
    assert NoneSame(source) && OneKind(source) && PointersIn(from.primary, from.secondary, source);
    hide NoneSame, OneKind, Same, Inserted, Copied, Info.Valid;
    NothingCopied(from.primary, from.secondary, source);
    var n := 0;
    while n < |from.addrs|
      invariant n <= |source| && fresh(to) && to.Valid()
      invariant multiset(to.addrs) == multiset(source[..n])
      invariant to.primary == Copied(from.primary, source[..n], if n == 0 then None else Some(source[0]))
      invariant to.secondary == Copied(from.secondary, source[..n], None)
    {
      var a := from.addrs[n];
      NotYetThere(source, n, to.addrs, places[n]);
      to.AddCopy(a, from.primary == Some(a), from.secondary == Some(a), places[n]);
      CopiedStep(from.primary, source, n, if n == 0 then None else Some(source[0]), Some(source[0]));
      CopiedStep(from.secondary, source, n, None, None);
      n := n + 1;
    }
    assert source[..n] == source;
    AllCopied(from.primary, from.secondary, source);
  }
}
