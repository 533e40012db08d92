/**
  Loading a configuration file that includes others (lib/b_config.c).

  `LoadFile` says what a load does: depth first, each (device, inode) pair at most once, a file
  that cannot be opened skipped.  The theorems below say that exactly the files reachable through
  openable includes are read, that each is read once, and that each contributes its pairs once.
  The class `Loader` is load_config_from_file with its growing tree of file records.
*/
module ConfigInclude {
  import opened ConfigText
  import opened Options

  /** What fstat identifies a file by. */
  datatype FileId = FileId(dev: nat, ino: nat)

  /** Names lead to files; only the files with contents can be opened. */
  datatype Fs = Fs(names: map<string, FileId>, contents: map<FileId, string>)

  function Open(fs: Fs, name: string): (r: Option<FileId>)
    ensures r.Some? ==> r.value in fs.contents
  {
    if name in fs.names && fs.names[name] in fs.contents then Some(fs.names[name]) else None
  }

  /** What a load has done so far: the files read, in order, and the pairs added, in order. */
  datatype Loaded = Loaded(order: seq<FileId>, pairs: seq<(string, string)>)

  /** How many files have not been read yet. */
  function Unseen(fs: Fs, order: seq<FileId>): nat
  {
    |fs.contents.Keys - (set id | id in order)|
  }

  lemma SubsetSmaller<T>(a: set<T>, b: set<T>)
    requires a <= b
    ensures |a| <= |b|
  {
    assert b == a + (b - a);
  }

  lemma UnseenShrinks(fs: Fs, a: seq<FileId>, b: seq<FileId>)
    requires a <= b
    ensures Unseen(fs, b) <= Unseen(fs, a)
    ensures forall id :: id in fs.contents && id !in a && id in b ==> Unseen(fs, b) < Unseen(fs, a)
  {
    var u, v := fs.contents.Keys - (set id | id in a), fs.contents.Keys - (set id | id in b);
    SubsetSmaller(v, u);
    forall id | id in fs.contents && id !in a && id in b ensures |v| < |u| {
      SubsetSmaller(v, u - {id});
    }
  }

  // ----- what a load does

  function LoadFile(fs: Fs, prefs: Prefs, name: string, st: Loaded): (r: Loaded)
    ensures st.order <= r.order && st.pairs <= r.pairs
    decreases Unseen(fs, st.order), 0, 0
  {
    match Open(fs, name)
    case None => st
    case Some(id) =>
      if id in st.order then st
      else
        UnseenShrinks(fs, st.order, st.order + [id]);
        LoadLines(fs, prefs, Lines(fs.contents[id]), st.(order := st.order + [id]))
  }

  function LoadLine(fs: Fs, prefs: Prefs, line: string, st: Loaded): (r: Loaded)
    ensures st.order <= r.order && st.pairs <= r.pairs
    decreases Unseen(fs, st.order), 0, 1
  {
    match ParseLine(line, prefs)
    case Include(name) => LoadFile(fs, prefs, name, st)
    case Pair(key, value) => st.(pairs := st.pairs + [(key, value)])
    case _ => st
  }

  function LoadLines(fs: Fs, prefs: Prefs, lines: seq<string>, st: Loaded): (r: Loaded)
    ensures st.order <= r.order && st.pairs <= r.pairs
    decreases Unseen(fs, st.order), |lines|, 0
  {
    if lines == [] then st
    else
      var next := LoadLine(fs, prefs, lines[0], st);
      UnseenShrinks(fs, st.order, next.order);
      LoadLines(fs, prefs, lines[1..], next)
  }

  lemma {:induction false} LinesInTurn(fs: Fs, prefs: Prefs, a: seq<string>, b: seq<string>, st: Loaded)
    ensures LoadLines(fs, prefs, a + b, st) == LoadLines(fs, prefs, b, LoadLines(fs, prefs, a, st))
    decreases |a|
  {
    if a == [] {
      assert a + b == b;
    } else {
      hide LoadLine;
      assert (a + b)[1..] == a[1..] + b;
      LinesInTurn(fs, prefs, a[1..], b, LoadLine(fs, prefs, a[0], st));
    }
  }

  // ----- which files are read

  /** One of these lines includes `to`, and it can be opened. */
  ghost predicate LinesInclude(fs: Fs, prefs: Prefs, lines: seq<string>, to: FileId)
  {
    exists i :: 0 <= i < |lines| && IncludeLine(fs, prefs, lines[i], to)
  }

  predicate IncludeLine(fs: Fs, prefs: Prefs, line: string, to: FileId)
  {
    var p := ParseLine(line, prefs);
    p.Include? && Open(fs, p.name) == Some(to)
  }

  ghost predicate Includes(fs: Fs, prefs: Prefs, from: FileId, to: FileId)
  {
    from in fs.contents && LinesInclude(fs, prefs, Lines(fs.contents[from]), to)
  }

  /** `path` leads from `root` to its last file, each file including the next. */
  ghost predicate IsPath(fs: Fs, prefs: Prefs, root: FileId, path: seq<FileId>)
  {
    && path != [] && path[0] == root
    && forall i :: 0 < i < |path| ==> Includes(fs, prefs, path[i - 1], path[i])
  }

  ghost predicate Reachable(fs: Fs, prefs: Prefs, root: FileId, id: FileId)
  {
    exists path :: IsPath(fs, prefs, root, path) && path[|path| - 1] == id
  }

  predicate Avoids(path: seq<FileId>, base: seq<FileId>)
  {
    forall i :: 0 <= i < |path| ==> path[i] !in base
  }

  /** Reachable from `root` through files of which none, the ends included, is in `base`. */
  ghost predicate ReachableAround(fs: Fs, prefs: Prefs, root: FileId, base: seq<FileId>, id: FileId)
  {
    exists path :: IsPath(fs, prefs, root, path) && Avoids(path, base) && path[|path| - 1] == id
  }

  /** In `base`, or reachable around it. */
  ghost predicate Accounted(fs: Fs, prefs: Prefs, root: FileId, base: seq<FileId>, id: FileId)
  {
    id in base || ReachableAround(fs, prefs, root, base, id)
  }

  lemma ReachableStep(fs: Fs, prefs: Prefs, root: FileId, base: seq<FileId>, a: FileId, b: FileId)
    requires Accounted(fs, prefs, root, base, a) && a !in base && Includes(fs, prefs, a, b)
    ensures Accounted(fs, prefs, root, base, b)
  {
    hide Includes;
    if b !in base {
      var path :| IsPath(fs, prefs, root, path) && Avoids(path, base) && path[|path| - 1] == a;
      assert IsPath(fs, prefs, root, path + [b]) && Avoids(path + [b], base);
    }
  }

  ghost predicate AllAccounted(fs: Fs, prefs: Prefs, root: FileId, base: seq<FileId>, order: seq<FileId>)
  {
    forall id :: id in order ==> Accounted(fs, prefs, root, base, id)
  }

  /** From `from` on, every file is different from all before it. */
  predicate NoRepeats(order: seq<FileId>, from: nat)
  {
    forall i, j :: 0 <= i < j < |order| && from <= j ==> order[i] != order[j]
  }

  /** Every file that was read after the first `from` includes only files that were read. */
  ghost predicate ClosedFrom(fs: Fs, prefs: Prefs, order: seq<FileId>, from: nat)
  {
    forall i, to :: from <= i < |order| && Includes(fs, prefs, order[i], to) ==> to in order
  }

  lemma ClosedGrows(fs: Fs, prefs: Prefs, a: seq<FileId>, from: nat, b: seq<FileId>)
    requires ClosedFrom(fs, prefs, a, from) && ClosedFrom(fs, prefs, b, |a|) && a <= b
    requires NoRepeats(a, from) && NoRepeats(b, |a|)
    ensures ClosedFrom(fs, prefs, b, from) && NoRepeats(b, from)
  {
    hide Includes;
    assert forall i :: 0 <= i < |a| ==> a[i] == b[i];
    forall i, to | from <= i < |b| && Includes(fs, prefs, b[i], to) ensures to in b {
      if i < |a| {
        assert a[i] == b[i] && b == a + b[|a|..];
      }
    }
  }

  /** Reading a file from `st`: nothing is read twice, and all that the new files include is read. */
  lemma {:induction false} FileClosed(fs: Fs, prefs: Prefs, name: string, st: Loaded)
    ensures var r := LoadFile(fs, prefs, name, st);
      NoRepeats(r.order, |st.order|) && ClosedFrom(fs, prefs, r.order, |st.order|)
      && (Open(fs, name).Some? ==> Open(fs, name).value in r.order)
    decreases Unseen(fs, st.order), 0, 0
  {
    var o := Open(fs, name);
    if o.Some? && o.value !in st.order {
      hide ParseLine, LinesInclude, Lines;
      var order := st.order + [o.value];
      UnseenShrinks(fs, st.order, order);
      var lines := Lines(fs.contents[o.value]);
      LinesClosed(fs, prefs, lines, st.(order := order));
      var r := LoadLines(fs, prefs, lines, st.(order := order));
      forall i, to | |st.order| <= i < |r.order| && Includes(fs, prefs, r.order[i], to) ensures to in r.order {
        if i == |st.order| {
          assert r.order[i] == order[i];
          assert LinesInclude(fs, prefs, lines, to);
        }
      }
    }
  }

  lemma {:induction false} LineClosed(fs: Fs, prefs: Prefs, line: string, st: Loaded)
    ensures var r := LoadLine(fs, prefs, line, st);
      NoRepeats(r.order, |st.order|) && ClosedFrom(fs, prefs, r.order, |st.order|)
      && (forall to :: IncludeLine(fs, prefs, line, to) ==> to in r.order)
    decreases Unseen(fs, st.order), 0, 1
  {
    hide LoadFile, ParseLine, Includes;
    var p := ParseLine(line, prefs);
    if p.Include? {
      FileClosed(fs, prefs, p.name, st);
    }
  }

  lemma {:induction false} LinesClosed(fs: Fs, prefs: Prefs, lines: seq<string>, st: Loaded)
    ensures var r := LoadLines(fs, prefs, lines, st);
      NoRepeats(r.order, |st.order|) && ClosedFrom(fs, prefs, r.order, |st.order|)
      && (forall to :: LinesInclude(fs, prefs, lines, to) ==> to in r.order)
    decreases Unseen(fs, st.order), |lines|, 0
  {
    if lines != [] {
      hide LoadLine, IncludeLine, Includes, NoRepeats, ClosedFrom, Unseen;
      var next := LoadLine(fs, prefs, lines[0], st);
      LineClosed(fs, prefs, lines[0], st);
      UnseenShrinks(fs, st.order, next.order);
      LinesClosed(fs, prefs, lines[1..], next);
      var r := LoadLines(fs, prefs, lines[1..], next);
      ClosedGrows(fs, prefs, next.order, |st.order|, r.order);
      forall to | LinesInclude(fs, prefs, lines, to) ensures to in r.order {
        LaterLine(fs, prefs, lines, to);
      }
    } else {
      hide LoadLine, IncludeLine, Includes;
    }
  }

  lemma LaterLine(fs: Fs, prefs: Prefs, lines: seq<string>, to: FileId)
    requires lines != []
    ensures LinesInclude(fs, prefs, lines, to)
      <==> IncludeLine(fs, prefs, lines[0], to) || LinesInclude(fs, prefs, lines[1..], to)
  {
  }

  /** Only files reachable around `base`, which was read before, are read. */
  lemma {:induction false} FileReachable(
    fs: Fs, prefs: Prefs, root: FileId, base: seq<FileId>, name: string, st: Loaded)
    requires base <= st.order && AllAccounted(fs, prefs, root, base, st.order)
    requires Open(fs, name).Some? ==> Accounted(fs, prefs, root, base, Open(fs, name).value)
    ensures AllAccounted(fs, prefs, root, base, LoadFile(fs, prefs, name, st).order)
    decreases Unseen(fs, st.order), 0, 0
  {
    var o := Open(fs, name);
    if o.Some? && o.value !in st.order {
      hide ParseLine, Lines, LinesInclude, Accounted;
      var order := st.order + [o.value];
      UnseenShrinks(fs, st.order, order);
      forall to | LinesInclude(fs, prefs, Lines(fs.contents[o.value]), to)
        ensures Accounted(fs, prefs, root, base, to) {
        ReachableStep(fs, prefs, root, base, o.value, to);
      }
      LinesReachable(fs, prefs, root, base, Lines(fs.contents[o.value]), st.(order := order));
    }
  }

  lemma {:induction false} LineReachable(
    fs: Fs, prefs: Prefs, root: FileId, base: seq<FileId>, line: string, st: Loaded)
    requires base <= st.order && AllAccounted(fs, prefs, root, base, st.order)
    requires forall to :: IncludeLine(fs, prefs, line, to) ==> Accounted(fs, prefs, root, base, to)
    ensures AllAccounted(fs, prefs, root, base, LoadLine(fs, prefs, line, st).order)
    decreases Unseen(fs, st.order), 0, 1
  {
    hide ParseLine, LoadFile, Accounted;
    var p := ParseLine(line, prefs);
    if p.Include? {
      assert Open(fs, p.name).Some? ==> IncludeLine(fs, prefs, line, Open(fs, p.name).value);
      FileReachable(fs, prefs, root, base, p.name, st);
    }
  }

  lemma {:induction false} LinesReachable(
    fs: Fs, prefs: Prefs, root: FileId, base: seq<FileId>, lines: seq<string>, st: Loaded)
    requires base <= st.order && AllAccounted(fs, prefs, root, base, st.order)
    requires forall to :: LinesInclude(fs, prefs, lines, to) ==> Accounted(fs, prefs, root, base, to)
    ensures AllAccounted(fs, prefs, root, base, LoadLines(fs, prefs, lines, st).order)
    decreases Unseen(fs, st.order), |lines|, 0
  {
    if lines != [] {
      hide LoadLine, Accounted, IncludeLine, LinesInclude, AllAccounted, Unseen;
      var next := LoadLine(fs, prefs, lines[0], st);
      forall to ensures (IncludeLine(fs, prefs, lines[0], to) ==> Accounted(fs, prefs, root, base, to))
        && (LinesInclude(fs, prefs, lines[1..], to) ==> Accounted(fs, prefs, root, base, to)) {
        LaterLine(fs, prefs, lines, to);
      }
      LineReachable(fs, prefs, root, base, lines[0], st);
      UnseenShrinks(fs, st.order, next.order);
      LinesReachable(fs, prefs, root, base, lines[1..], next);
    }
  }

  lemma {:induction false} PathInside(
    fs: Fs, prefs: Prefs, root: FileId, path: seq<FileId>, base: seq<FileId>, order: seq<FileId>, n: nat)
    requires root in order && base <= order && ClosedFrom(fs, prefs, order, |base|)
    requires IsPath(fs, prefs, root, path) && Avoids(path, base) && n < |path|
    ensures path[n] in order[|base|..]
  {
    hide Includes;
    var added := order[|base|..];
    assert order == base + added;
    if n > 0 {
      PathInside(fs, prefs, root, path, base, order, n - 1);
      var i :| 0 <= i < |added| && added[i] == path[n - 1];
      assert order[|base| + i] == path[n - 1];
    }
    assert path[n] in base + added ==> path[n] in base || path[n] in added;
  }

  /**
    From any state, reading a file adds to the end of the order: nothing if it cannot be opened or
    was read before, and else the file itself, followed by exactly the files that are reachable
    from it without passing through a file that was read before, each once.
  */
  lemma NewFilesExactly(fs: Fs, prefs: Prefs, name: string, st: Loaded)
    ensures var o, r := Open(fs, name), LoadFile(fs, prefs, name, st).order;
      if o == None || o.value in st.order then r == st.order
      else
        var added := r[|st.order|..];
        && r == st.order + added && added != [] && added[0] == o.value && NoRepeats(r, |st.order|)
        && forall id :: id in added <==> ReachableAround(fs, prefs, o.value, st.order, id)
  {
    hide Includes, ParseLine;
    var o, base, r := Open(fs, name), st.order, LoadFile(fs, prefs, name, st).order;
    if o.Some? && o.value !in base {
      var added := r[|base|..];
      assert r == base + added;
      FileClosed(fs, prefs, name, st);
      assert IsPath(fs, prefs, o.value, [o.value]) && Avoids([o.value], base);
      FileReachable(fs, prefs, o.value, base, name, st);
      assert base + [o.value] <= r;
      assert r[|base|] == (base + [o.value])[|base|];
      NewIsNotOld(r, |base|);
      forall id | ReachableAround(fs, prefs, o.value, base, id) ensures id in added {
        var path :| IsPath(fs, prefs, o.value, path) && Avoids(path, base) && path[|path| - 1] == id;
        PathInside(fs, prefs, o.value, path, base, r, |path| - 1);
      }
    }
  }

  lemma NewIsNotOld(order: seq<FileId>, from: nat)
    requires from <= |order| && NoRepeats(order, from)
    ensures forall id :: id in order[from..] ==> id in order && id !in order[..from]
  {
  }

  /**
    Depth first: where an include line stands between others, the new files of the one it names are
    read together, in one piece of the order, after those of the lines before it and before those
    of the lines after it.
  */
  lemma DepthFirst(fs: Fs, prefs: Prefs, before: seq<string>, line: string, after: seq<string>, st: Loaded)
    requires ParseLine(line, prefs).Include?
    ensures var o := Open(fs, ParseLine(line, prefs).name);
      var above := LoadLines(fs, prefs, before, st).order;
      var whole := LoadLines(fs, prefs, before + [line] + after, st).order;
      exists piece, below ::
        && whole == above + piece + below
        && (o == None || o.value in above ==> piece == [])
        && (o.Some? && o.value !in above ==> piece != [] && piece[0] == o.value)
        && (o.Some? && o.value !in above ==>
              forall id :: id in piece <==> ReachableAround(fs, prefs, o.value, above, id))
  {
    hide ParseLine, LoadFile, ReachableAround;
    var name, above := ParseLine(line, prefs).name, LoadLines(fs, prefs, before, st);
    LinesInTurn(fs, prefs, before + [line], after, st);
    LinesInTurn(fs, prefs, before, [line], st);
    assert [line][1..] == [];
    var inner := LoadFile(fs, prefs, name, above);
    assert LoadLines(fs, prefs, [line], above) == LoadLine(fs, prefs, line, above) == inner;
    NewFilesExactly(fs, prefs, name, above);
    FileGrows(fs, prefs, name, above);
    var whole := LoadLines(fs, prefs, after, inner).order;
    var piece, below := inner.order[|above.order|..], whole[|inner.order|..];
    assert inner.order == above.order + piece && whole == inner.order + below;
  }

  /**
    An include line between others, with any blanks around its tag: the file of that name is loaded
    there, after what the lines before it load and before what those after it do.
  */
  lemma IncludedAtItsLine(fs: Fs, prefs: Prefs, before: seq<string>, b0: string, b1: string, name: string,
                          after: seq<string>, st: Loaded)
    requires Blanks(b0) && Blanks(b1) && OneLine(b0 + prefs.includeTag + b1 + name)
    requires prefs.includeTag == "" || !IsBlank(prefs.includeTag[0])
    requires name != "" && !IsBlank(name[0])
    ensures var line := b0 + prefs.includeTag + b1 + name + "\n";
      LoadLines(fs, prefs, before + [line] + after, st)
        == LoadLines(fs, prefs, after, LoadFile(fs, prefs, name, LoadLines(fs, prefs, before, st)))
  {
    hide ParseLine, LoadFile, Blanks, OneLine;
    var text := b0 + prefs.includeTag + b1 + name;
    var line := text + "\n";
    NamedInclude(b0, b1, name, prefs);
    NewlineDropped(text, prefs);
    LinesInTurn(fs, prefs, before + [line], after, st);
    LinesInTurn(fs, prefs, before, [line], st);
    var above := LoadLines(fs, prefs, before, st);
    assert [line][1..] == [];
    assert LoadLines(fs, prefs, [line], above) == LoadLine(fs, prefs, line, above);
  }

  lemma FileGrows(fs: Fs, prefs: Prefs, name: string, st: Loaded)
    ensures st.order <= LoadFile(fs, prefs, name, st).order
  {
  }

  /** A load reads exactly the files reachable from the root file, each once, the root first. */
  lemma LoadReadsReachable(fs: Fs, prefs: Prefs, name: string)
    requires Open(fs, name).Some?
    ensures var root, order := Open(fs, name).value, LoadFile(fs, prefs, name, Loaded([], [])).order;
      order != [] && order[0] == root && NoRepeats(order, 0)
      && forall id :: id in order <==> Reachable(fs, prefs, root, id)
  {
    hide Includes, LoadFile;
    var root, order := Open(fs, name).value, LoadFile(fs, prefs, name, Loaded([], [])).order;
    NewFilesExactly(fs, prefs, name, Loaded([], []));
    assert order[0..] == order;
    forall id ensures ReachableAround(fs, prefs, root, [], id) <==> Reachable(fs, prefs, root, id) {
      if Reachable(fs, prefs, root, id) {
        var path :| IsPath(fs, prefs, root, path) && path[|path| - 1] == id;
        assert Avoids(path, []);
      }
    }
  }

  // ----- which pairs are added

  /** The pairs on these lines themselves. */
  function LinePairs(lines: seq<string>, prefs: Prefs): multiset<(string, string)>
  {
    if lines == [] then multiset{}
    else
      var p := ParseLine(lines[0], prefs);
      (if p.Pair? then multiset{(p.key, p.value)} else multiset{}) + LinePairs(lines[1..], prefs)
  }

  /** The pairs of these files, file by file. */
  function FilesPairs(fs: Fs, prefs: Prefs, order: seq<FileId>): multiset<(string, string)>
  {
    if order == [] then multiset{}
    else (if order[0] in fs.contents then LinePairs(Lines(fs.contents[order[0]]), prefs) else multiset{})
         + FilesPairs(fs, prefs, order[1..])
  }

  lemma {:induction false} FilesPairsConcat(fs: Fs, prefs: Prefs, a: seq<FileId>, b: seq<FileId>)
    ensures FilesPairs(fs, prefs, a + b) == FilesPairs(fs, prefs, a) + FilesPairs(fs, prefs, b)
    decreases |a|
  {
    if a == [] {
      assert a + b == b;
    } else {
      hide LinePairs, Lines;
      assert (a + b)[1..] == a[1..] + b;
      FilesPairsConcat(fs, prefs, a[1..], b);
    }
  }

  /** From `a` to `b`, the files read are new at the end, and the pairs are theirs plus `own`. */
  ghost predicate Added(fs: Fs, prefs: Prefs, a: Loaded, b: Loaded, own: multiset<(string, string)>)
    requires a.order <= b.order
  {
    multiset(b.pairs) == multiset(a.pairs) + own + FilesPairs(fs, prefs, b.order[|a.order|..])
  }

  lemma AddedThenAdded(fs: Fs, prefs: Prefs, a: Loaded, b: Loaded, c: Loaded,
                       first: multiset<(string, string)>, second: multiset<(string, string)>)
    requires a.order <= b.order <= c.order
    requires Added(fs, prefs, a, b, first) && Added(fs, prefs, b, c, second)
    ensures Added(fs, prefs, a, c, first + second)
  {
    hide FilesPairs;
    var x, y := b.order[|a.order|..], c.order[|b.order|..];
    assert c.order[|a.order|..] == x + y;
    FilesPairsConcat(fs, prefs, x, y);
  }

  lemma {:induction false} FileAdds(fs: Fs, prefs: Prefs, name: string, st: Loaded)
    ensures Added(fs, prefs, st, LoadFile(fs, prefs, name, st), multiset{})
    decreases Unseen(fs, st.order), 0, 0
  {
    var o := Open(fs, name);
    hide LoadLines, LinePairs, Lines, Unseen;
    if o.Some? && o.value !in st.order {
      var order := st.order + [o.value];
      UnseenShrinks(fs, st.order, order);
      var lines := Lines(fs.contents[o.value]);
      LinesAdd(fs, prefs, lines, st.(order := order));
      var r := LoadLines(fs, prefs, lines, st.(order := order));
      assert r.order[|st.order|..] == [o.value] + r.order[|order|..];
      FilesPairsConcat(fs, prefs, [o.value], r.order[|order|..]);
      assert [o.value][1..] == [];
    } else {
      assert st.order[|st.order|..] == [];
    }
  }

  lemma {:induction false} LineAdds(fs: Fs, prefs: Prefs, line: string, st: Loaded)
    ensures Added(fs, prefs, st, LoadLine(fs, prefs, line, st), LinePairs([line], prefs))
    decreases Unseen(fs, st.order), 0, 1
  {
    hide ParseLine, LoadFile;
    var p := ParseLine(line, prefs);
    assert [line][1..] == [];
    if p.Include? {
      FileAdds(fs, prefs, p.name, st);
    } else {
      assert st.order[|st.order|..] == [];
    }
  }

  lemma {:induction false} LinesAdd(fs: Fs, prefs: Prefs, lines: seq<string>, st: Loaded)
    ensures Added(fs, prefs, st, LoadLines(fs, prefs, lines, st), LinePairs(lines, prefs))
    decreases Unseen(fs, st.order), |lines|, 0
  {
    if lines != [] {
      hide LoadLine, Added, ParseLine, Unseen;
      var next := LoadLine(fs, prefs, lines[0], st);
      LineAdds(fs, prefs, lines[0], st);
      UnseenShrinks(fs, st.order, next.order);
      LinesAdd(fs, prefs, lines[1..], next);
      AddedThenAdded(fs, prefs, st, next, LoadLines(fs, prefs, lines[1..], next),
                     LinePairs([lines[0]], prefs), LinePairs(lines[1..], prefs));
      FirstLinePairs(lines, prefs);
    } else {
      assert st.order[|st.order|..] == [];
    }
  }

  lemma FirstLinePairs(lines: seq<string>, prefs: Prefs)
    requires lines != []
    ensures LinePairs(lines, prefs) == LinePairs([lines[0]], prefs) + LinePairs(lines[1..], prefs)
  {
  }

  /** Each file that is read contributes the pairs on its own lines exactly once. */
  lemma LoadAddsEachFileOnce(fs: Fs, prefs: Prefs, name: string)
    ensures var r := LoadFile(fs, prefs, name, Loaded([], []));
      multiset(r.pairs) == FilesPairs(fs, prefs, r.order)
  {
    hide LoadFile, FilesPairs;
    FileAdds(fs, prefs, name, Loaded([], []));
    var r := LoadFile(fs, prefs, name, Loaded([], []));
    assert r.order[0..] == r.order;
  }

  /** The file written by bk_config_print loads as the map that was printed, and alone, exactly if it is printable. */
  lemma PrintedFileLoads(fs: Fs, prefs: Prefs, name: string, kv: Kv, keys: seq<string>)
    requires Open(fs, name).Some? && Enumerates(keys, kv)
    requires fs.contents[Open(fs, name).value] == Print(kv, keys)
    ensures var root, r := Open(fs, name).value, LoadFile(fs, prefs, name, Loaded([], []));
      r.order == [root] && AddAll(map[], r.pairs) == kv <==> AllPrintable(kv, prefs)
  {
    hide Printable, ParseLine, Print, Lines, AllPrintable, AddAll;
    PrintedMapReadBack(kv, keys, prefs);
    var root, lines := Open(fs, name).value, Lines(Print(kv, keys));
    var st := Loaded([root], []);
    assert [] + [root] == [root];
    ReadLinesAdds(lines, prefs, map[]);
    if AllPrintable(kv, prefs) {
      PairLinesAlone(fs, prefs, lines, st);
    }
    if LoadLines(fs, prefs, lines, st).order == [root] {
      NothingElseRead(fs, prefs, lines, st);
      assert [] + PairsRead(lines, prefs) == PairsRead(lines, prefs);
    }
  }

  lemma {:induction false} PairLinesAlone(fs: Fs, prefs: Prefs, lines: seq<string>, st: Loaded)
    requires forall i :: 0 <= i < |lines| ==> ParseLine(lines[i], prefs).Pair?
    ensures LoadLines(fs, prefs, lines, st).order == st.order
    decreases |lines|
  {
    hide ParseLine;
    if lines != [] {
      var p := ParseLine(lines[0], prefs);
      PairLinesAlone(fs, prefs, lines[1..], st.(pairs := st.pairs + [(p.key, p.value)]));
    }
  }

  /** If no other file is read, the pairs are those on the lines. */
  lemma {:induction false} NothingElseRead(fs: Fs, prefs: Prefs, lines: seq<string>, st: Loaded)
    requires LoadLines(fs, prefs, lines, st).order == st.order
    ensures LoadLines(fs, prefs, lines, st).pairs == st.pairs + PairsRead(lines, prefs)
    decreases |lines|
  {
    hide ParseLine;
    if lines != [] {
      var next, p := LoadLine(fs, prefs, lines[0], st), ParseLine(lines[0], prefs);
      assert st.order <= next.order <= LoadLines(fs, prefs, lines[1..], next).order;
      if p.Include? {
        FileNotRead(fs, prefs, p.name, st);
      }
      NothingElseRead(fs, prefs, lines[1..], next);
    }
  }

  lemma FileNotRead(fs: Fs, prefs: Prefs, name: string, st: Loaded)
    requires LoadFile(fs, prefs, name, st).order == st.order
    ensures LoadFile(fs, prefs, name, st) == st
  {
  }
}
