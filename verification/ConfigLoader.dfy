/**
  load_config_from_file and the tree of file records it grows (lib/b_config.c).

  The records live in sequences indexed by record number; `insideOf` is bcf_insideof and `kids` is
  bcf_includes, newest first.  A load does what `ConfigInclude.LoadFile` says, and the recursive
  search of the tree for the same file answers exactly whether the file was read before.
*/
module ConfigLoader {
  import opened ConfigInclude
  import opened ConfigText
  import opened Options

  /** The fields of all file records, and which records are live. */
  datatype Records = Records(
    names: seq<string>, ids: seq<Option<FileId>>, insideOf: seq<nat>, kids: seq<seq<nat>>, tree: set<nat>)

  /** A record is made after the one it is inside of; record 0 is the root. */
  ghost predicate Ordered(insideOf: seq<nat>)
  {
    forall k :: 0 < k < |insideOf| ==> insideOf[k] < k
  }

  /** Record `j` is `a`, or is inside of it, directly or not. */
  ghost predicate Under(insideOf: seq<nat>, a: nat, j: nat)
    requires Ordered(insideOf) && j < |insideOf|
    decreases j
  {
    j == a || (j > 0 && Under(insideOf, a, insideOf[j]))
  }

  ghost predicate IsKid(insideOf: seq<nat>, tree: set<nat>, p: nat, c: nat)
  {
    c in tree && 0 < c < |insideOf| && insideOf[c] == p
  }

  /** The lists of included files agree with the upward links, on the live records. */
  ghost predicate Shaped(r: Records)
  {
    && |r.names| == |r.ids| == |r.insideOf| == |r.kids| && Ordered(r.insideOf)
    && (forall k :: k in r.tree ==> k < |r.kids|)
    && (forall p, c :: p in r.tree && p < |r.kids| ==> (c in r.kids[p] <==> IsKid(r.insideOf, r.tree, p, c)))
    && (forall c {:trigger r.insideOf[c]} :: c in r.tree && 0 < c < |r.insideOf| ==> r.insideOf[c] in r.tree)
  }

  /** The files read are those that the live records were found to be. */
  ghost predicate Shows(r: Records, order: seq<FileId>)
    requires Shaped(r)
  {
    forall id :: id in order <==> exists j :: j in r.tree && r.ids[j] == Some(id)
  }

  ghost predicate AllFound(r: Records, but: set<nat>)
    requires Shaped(r)
  {
    forall j :: j in r.tree && j !in but ==> r.ids[j].Some?
  }

  /** What a load of record `i` leaves alone: the other records, their links and their lists. */
  ghost predicate Keeps(a: Records, b: Records, i: nat)
    requires Shaped(a) && Shaped(b)
  {
    && a.names <= b.names && a.insideOf <= b.insideOf && a.tree <= b.tree
    && forall j :: j in a.tree && j != i ==> b.ids[j] == a.ids[j] && b.kids[j] == a.kids[j]
  }

  lemma KeepsTransitive(a: Records, b: Records, c: Records, i: nat, j: nat)
    requires Shaped(a) && Shaped(b) && Shaped(c) && Keeps(a, b, i) && Keeps(b, c, j)
    requires j == i || j !in a.tree
    ensures Keeps(a, c, i)
  {
  }

  /** dll_delete of one element. */
  function Without(s: seq<nat>, x: nat): (r: seq<nat>)
    ensures forall y :: y in r <==> y in s && y != x
    ensures |r| <= |s| && (x in s ==> |r| < |s|)
  {
    if s == [] then [] else (if s[0] == x then [] else [s[0]]) + Without(s[1..], x)
  }

  lemma {:induction false} WithoutAbsent(s: seq<nat>, x: nat)
    requires x !in s
    ensures Without(s, x) == s
  {
    if s != [] {
      WithoutAbsent(s[1..], x);
    }
  }

  lemma InsertedGone(s: seq<nat>, x: nat)
    requires x !in s
    ensures Without([x] + s, x) == s
  {
    WithoutAbsent(s, x);
    assert ([x] + s)[1..] == s;
  }

  /** What is inside of a record, other than itself, is under one of its included files. */
  lemma {:induction false} UnderKid(r: Records, a: nat, j: nat)
    requires Shaped(r) && j in r.tree && a < |r.kids| && Under(r.insideOf, a, j) && j != a
    ensures exists c :: c in r.kids[a] && c < |r.insideOf| && Under(r.insideOf, c, j)
    decreases j
  {
    if r.insideOf[j] == a {
      assert j in r.kids[a] && Under(r.insideOf, j, j);
    } else {
      UnderKid(r, a, r.insideOf[j]);
      var c :| c in r.kids[a] && c < |r.insideOf| && Under(r.insideOf, c, r.insideOf[j]);
      assert Under(r.insideOf, c, j);
    }
  }

  /** What is under an included file is under the including one. */
  lemma {:induction false} UnderParent(insideOf: seq<nat>, c: nat, j: nat)
    requires Ordered(insideOf) && j < |insideOf| && 0 < c < |insideOf| && Under(insideOf, c, j)
    ensures Under(insideOf, insideOf[c], j)
    decreases j
  {
    if j != c {
      UnderParent(insideOf, c, insideOf[j]);
    }
  }

  lemma {:induction false} UnderRoot(insideOf: seq<nat>, j: nat)
    requires Ordered(insideOf) && j < |insideOf|
    ensures Under(insideOf, 0, j)
    decreases j
  {
    if j > 0 {
      UnderRoot(insideOf, insideOf[j]);
    }
  }

  lemma AllUnderRoot(r: Records)
    requires Shaped(r)
    ensures forall j :: j in r.tree ==> Under(r.insideOf, 0, j)
  {
    forall j | j in r.tree ensures Under(r.insideOf, 0, j) {
      UnderRoot(r.insideOf, j);
    }
  }

  lemma {:induction false} RootLive(r: Records, j: nat)
    requires Shaped(r) && j in r.tree
    ensures 0 in r.tree
    decreases j
  {
    if j > 0 {
      RootLive(r, r.insideOf[j]);
    }
  }

  /** Nothing is under a younger record. */
  lemma {:induction false} NotAbove(insideOf: seq<nat>, c: nat, i: nat)
    requires Ordered(insideOf) && i < c < |insideOf|
    ensures !Under(insideOf, c, i)
    decreases i
  {
    if i > 0 {
      NotAbove(insideOf, c, insideOf[i]);
    }
  }

  // ----- adding and removing a record

  function Grown(r: Records, name: string, i: nat): Records
    requires i < |r.kids|
  {
    var n := |r.kids|;
    Records(r.names + [name], r.ids + [None], r.insideOf + [i], r.kids[i := [n] + r.kids[i]] + [[]], r.tree + {n})
  }

  lemma ShapeGrows(r: Records, name: string, i: nat)
    requires Shaped(r) && i in r.tree
    ensures var n, g := |r.kids|, Grown(r, name, i);
      && Shaped(g) && Keeps(r, g, i) && n !in r.tree && i < n == |r.ids| == |r.names| == |r.insideOf|
  {
    var g := Grown(r, name, i);
    forall p, c | p in g.tree && p < |g.kids| ensures c in g.kids[p] <==> IsKid(g.insideOf, g.tree, p, c) {
      if p < |r.kids| {
        assert c in r.kids[p] <==> IsKid(r.insideOf, r.tree, p, c);
      }
    }
  }

  lemma GrownShows(r: Records, name: string, i: nat, order: seq<FileId>)
    requires Shaped(r) && i in r.tree && Shows(r, order) && AllFound(r, {}) && Shaped(Grown(r, name, i))
    ensures var g := Grown(r, name, i); Shows(g, order) && AllFound(g, {|r.kids|})
  {
  }

  /** A record without included files taken out of its list. */
  function Shrunk(r: Records, i: nat): Records
    requires i < |r.insideOf| && (i > 0 ==> r.insideOf[i] < |r.kids|)
  {
    r.(kids := if i > 0 then r.kids[r.insideOf[i] := Without(r.kids[r.insideOf[i]], i)] else r.kids,
       tree := r.tree - {i})
  }

  lemma ShapeShrinks(r: Records, i: nat)
    requires Shaped(r) && i in r.tree && r.kids[i] == []
    ensures Shaped(Shrunk(r, i))
  {
    var g := Shrunk(r, i);
    forall p, c | p in g.tree && p < |g.kids| ensures c in g.kids[p] <==> IsKid(g.insideOf, g.tree, p, c) {
      assert c in r.kids[p] <==> IsKid(r.insideOf, r.tree, p, c);
    }
    forall c | c in g.tree && 0 < c < |g.insideOf| ensures g.insideOf[c] in g.tree {
      assert c in r.kids[r.insideOf[c]] <==> IsKid(r.insideOf, r.tree, r.insideOf[c], c);
    }
  }

  /** Taking back a record whose file could not be opened. */
  lemma GrownThenShrunk(r: Records, name: string, i: nat, g: Records, b: Records)
    requires Shaped(r) && i in r.tree && g == Grown(r, name, i) && Shaped(g) && Shaped(b)
    requires b.names == g.names && b.ids == g.ids && b.insideOf == g.insideOf
    requires b.tree == set j | j in g.tree && !Under(g.insideOf, |r.kids|, j)
    requires forall j :: j in b.tree ==>
      b.kids[j] == if |r.kids| > 0 && j == g.insideOf[|r.kids|] then Without(g.kids[j], |r.kids|) else g.kids[j]
    ensures b.tree == r.tree && Keeps(r, b, i) && b.kids[i] == r.kids[i] && b.ids[..|r.ids|] == r.ids
  {
    forall j | j in r.tree ensures j in b.tree {
      NotAbove(g.insideOf, |r.kids|, j);
    }
    assert Under(g.insideOf, |r.kids|, |r.kids|);
    InsertedGone(r.kids[i], |r.kids|);
  }

  lemma SameShows(r: Records, b: Records, order: seq<FileId>)
    requires Shaped(r) && Shaped(b) && b.tree == r.tree && |r.ids| <= |b.ids| && b.ids[..|r.ids|] == r.ids
    requires Shows(r, order) && AllFound(r, {})
    ensures Shows(b, order) && AllFound(b, {})
  {
  }

  /** fstat fills in the record of a file that was just opened. */
  function Found(r: Records, i: nat, id: FileId): Records
    requires i < |r.ids|
  {
    r.(ids := r.ids[i := Some(id)])
  }

  lemma FoundShows(r: Records, i: nat, id: FileId, order: seq<FileId>)
    requires Shaped(r) && i in r.tree && r.ids[i] == None && AllFound(r, {i}) && Shows(r, order)
    ensures var f := Found(r, i, id);
      && Shaped(f) && AllFound(f, {}) && Keeps(r, f, i) && Shows(f, if id in order then order else order + [id])
      && (id in order <==> exists j :: j in f.tree && j != i && f.ids[j] == Some(id))
  {
  }

  lemma AddAllOne(kv: Kv, key: string, value: string)
    ensures AddAll(kv, [(key, value)]) == Add(kv, key, value)
  {
  }

  /** The three ways a load of one file can go. */
  lemma FileCases(fs: Fs, prefs: Prefs, name: string, st: Loaded)
    ensures var o, r := Open(fs, name), LoadFile(fs, prefs, name, st);
      && (o == None || o.value in st.order ==> r == st)
      && (o.Some? && o.value !in st.order ==>
            r == LoadLines(fs, prefs, Lines(fs.contents[o.value]), st.(order := st.order + [o.value])))
  {
  }

  class Loader {
    const fs: Fs
    const prefs: Prefs
    var names: seq<string>
    var ids: seq<Option<FileId>>
    var insideOf: seq<nat>
    var kids: seq<seq<nat>>
    var kv: Kv
    ghost var tree: set<nat>
    ghost var done: Loaded

    ghost function State(): Records
      reads this
    {
      Records(names, ids, insideOf, kids, tree)
    }

    ghost predicate Valid()
      reads this
    {
      Shaped(State()) && kv == AddAll(map[], done.pairs)
    }

    /** Between lines: every live record has been found, and they show what was read. */
    ghost predicate Settled()
      reads this
    {
      Valid() && Shows(State(), done.order) && AllFound(State(), {})
    }

    /** bk_config_init: a root record, and a load of its file; a load that fails is not fatal. */
    constructor (fs: Fs, prefs: Prefs, filename: string)
      ensures this.fs == fs && this.prefs == prefs && Valid() && 0 in tree
      ensures done == LoadFile(fs, prefs, filename, Loaded([], []))
      ensures Open(fs, filename).Some? ==> Settled()
    {
      this.fs, this.prefs := fs, prefs;
      names, ids, insideOf, kids := [filename], [None], [0], [[]];
      kv, tree, done := map[], {0}, Loaded([], []);
      new;
      var ret := Load(0);
    }

    /** bk_config_destroy: no record is left. */
    method Close()
      requires Valid() && 0 in tree
      modifies `kids, `tree
      ensures Valid() && tree == {}
    {
      AllUnderRoot(State());
      Destroy(0);
    }

    /** bcf_create inside of another record. */
    method CreateInside(name: string, i: nat) returns (n: nat)
      requires Valid() && i in tree
      modifies this
      ensures Valid() && n == |old(kids)| && done == old(done)
      ensures State() == Grown(old(State()), name, i)
    {
      hide AddAll;
      ShapeGrows(State(), name, i);
      n := |names|;
      names, ids, insideOf := names + [name], ids + [None], insideOf + [i];
      kids := kids[i := [n] + kids[i]] + [[]];
      tree := tree + {n};
    }

    /** bcf_destroy: everything under the record goes, and the record leaves the list it was in. */
    method Destroy(i: nat)
      requires Valid() && i in tree
      modifies `kids, `tree
      decreases |insideOf| - i
      ensures Valid()
      ensures tree == set j | j in old(tree) && !Under(insideOf, i, j)
      ensures forall j :: j in tree ==>
        kids[j] == if i > 0 && j == insideOf[i] then Without(old(kids[j]), i) else old(kids[j])
    {
      hide AddAll;
      while kids[i] != []
        invariant Valid() && i in tree && tree <= old(tree)
        invariant forall j: nat :: j in old(tree) && j !in tree ==> Under(insideOf, i, j)
        invariant forall j :: j in tree && j != i ==> kids[j] == old(kids[j])
        decreases |kids[i]|
      {
        var c := kids[i][0];
        assert c in kids[i] && insideOf[c] == i;
        forall j: nat | j < |insideOf| && Under(insideOf, c, j) ensures Under(insideOf, i, j) {
          UnderParent(insideOf, c, j);
        }
        NotAbove(insideOf, c, i);
        Destroy(c);
      }
      forall j | j in tree && Under(insideOf, i, j) ensures j == i {
        if j != i {
          UnderKid(State(), i, j);
        }
      }
      ShapeShrinks(State(), i);
      if i > 0 {
        kids := kids[insideOf[i] := Without(kids[insideOf[i]], i)];
      }
      tree := tree - {i};
    }

    /** check_for_double_include: is there another record of this file at `cur` or under it? */
    method CheckForDoubleInclude(cur: nat, proposed: nat) returns (ret: int)
      requires Valid() && cur in tree && proposed in tree && kids[proposed] == []
      decreases |insideOf| - cur
      ensures ret == 0 || ret == 1
      ensures ret == 1 <==>
        forall j :: j in tree && Under(insideOf, cur, j) && j != proposed ==> ids[j] != ids[proposed]
    {
      hide AddAll;
      if proposed == cur {
        forall j | j in tree && Under(insideOf, cur, j) ensures j == proposed {
          if j != cur {
            UnderKid(State(), cur, j);
          }
        }
        return 1;
      }
      if ids[proposed] == ids[cur] {
        assert Under(insideOf, cur, cur);
        return 0;
      }
      var n := 0;
      while n < |kids[cur]|
        invariant n <= |kids[cur]|
        invariant forall m, j :: 0 <= m < n && j in tree && Under(insideOf, kids[cur][m], j) && j != proposed ==>
          ids[j] != ids[proposed]
      {
        var c := kids[cur][n];
        assert c in kids[cur];
        ret := CheckForDoubleInclude(c, proposed);
        if ret != 1 {
          forall j | j in tree && Under(insideOf, c, j) ensures Under(insideOf, cur, j) {
            UnderParent(insideOf, c, j);
          }
          return;
        }
        n := n + 1;
      }
      forall j | j in tree && Under(insideOf, cur, j) && j != proposed ensures ids[j] != ids[proposed] {
        if j != cur {
          UnderKid(State(), cur, j);
        }
      }
      ret := 1;
    }

    /** fstat, and the search of the whole tree. */
    method Identify(i: nat, id: FileId) returns (ret: int)
      requires Valid() && Shows(State(), done.order)
      requires i in tree && AllFound(State(), {i}) && kids[i] == [] && ids[i] == None
      modifies `ids
      ensures Valid() && AllFound(State(), {}) && Keeps(old(State()), State(), i)
      ensures ret == 1 <==> id !in done.order
      ensures Shows(State(), if id in done.order then done.order else done.order + [id])
    {
      RootLive(State(), i);
      FoundShows(State(), i, id, done.order);
      hide Shows, AllFound, Keeps, AddAll;
      ids := ids[i := Some(id)];
      assert State() == Found(old(State()), i, id);
      AllUnderRoot(State());
      ret := CheckForDoubleInclude(0, i);
    }

    /** load_config_from_file, with the record of the file already made. */
    method Load(i: nat) returns (ret: int)
      requires Valid() && Shows(State(), done.order)
      requires i in tree && AllFound(State(), {i}) && kids[i] == [] && ids[i] == None
      modifies this
      decreases Unseen(fs, done.order), 0
      ensures done == LoadFile(fs, prefs, old(names[i]), old(done))
      ensures ret == if Open(fs, old(names[i])).Some? then 0 else -1
      ensures ret < 0 ==> unchanged(this)
      ensures ret == 0 ==> Settled() && Keeps(old(State()), State(), i)
    {
      hide LoadFile, Shows, AllFound, Keeps, LoadLines, AddAll, Unseen, Open, Lines;
      FileCases(fs, prefs, names[i], done);
      var o := Open(fs, names[i]);
      hide Shaped;
      if o == None {
        return -1;
      }
      var alone := Identify(i, o.value);
      if alone != 1 {
        return 0;
      }
      UnseenShrinks(fs, done.order, done.order + [o.value]);
      done := done.(order := done.order + [o.value]);
      ghost var before := State();
      ReadLines(i, Lines(fs.contents[o.value]));
      KeepsTransitive(old(State()), before, State(), i, i);
      ret := 0;
    }

    /** The read loop. */
    method ReadLines(i: nat, lines: seq<string>)
      requires Settled() && i in tree
      modifies this
      decreases Unseen(fs, done.order), 2
      ensures Settled() && Keeps(old(State()), State(), i)
      ensures done == LoadLines(fs, prefs, lines, old(done))
    {
      hide Shaped, Shows, AllFound, LoadFile, AddAll, Unseen, ParseLine;
      var n := 0;
      while n < |lines|
        invariant n <= |lines|
        invariant Settled() && Keeps(old(State()), State(), i)
        invariant old(done).order <= done.order
        invariant LoadLines(fs, prefs, lines[n..], done) == LoadLines(fs, prefs, lines, old(done))
      {
        assert lines[n..][0] == lines[n] && lines[n..][1..] == lines[n + 1..];
        UnseenShrinks(fs, old(done).order, done.order);
        var p := ReadLine(lines[n], prefs);
        ghost var before := State();
        if p.Include? {
          LoadInclude(i, p.name);
          KeepsTransitive(old(State()), before, State(), i, i);
        } else if p.Pair? {
          AddAllConcat(map[], done.pairs, [(p.key, p.value)]);
          AddAllOne(AddAll(map[], done.pairs), p.key, p.value);
          kv := Add(kv, p.key, p.value);
          done := done.(pairs := done.pairs + [(p.key, p.value)]);
        }
        n := n + 1;
      }
    }

    /** One include line: a new record, removed again if its file cannot be opened. */
    method LoadInclude(i: nat, name: string)
      requires Settled() && i in tree
      modifies this
      decreases Unseen(fs, done.order), 1
      ensures Settled() && Keeps(old(State()), State(), i)
      ensures done == LoadFile(fs, prefs, name, old(done))
    {
      hide Shaped, Shows, AllFound, Keeps, LoadFile, AddAll, Unseen, Open;
      ghost var r := State();
      ShapeGrows(r, name, i);
      GrownShows(r, name, i, done.order);
      var n := CreateInside(name, i);
      ghost var g := State();
      var ret := Load(n);
      if ret < 0 {
        Destroy(n);
        GrownThenShrunk(r, name, i, g, State());
        SameShows(r, State(), done.order);
      } else {
        KeepsTransitive(r, g, State(), i, n);
      }
    }
  }
}
