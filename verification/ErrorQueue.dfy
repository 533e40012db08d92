/**
  The error queues of lib/b_error.c.

  Messages go to one of two bounded queues, newest first; a message that repeats the last one is
  only counted, and the count becomes a node of its own when something else is printed.  The
  theorems say what the queues hold after any messages, that nothing that was printed is lost by
  the counting, and exactly when a dump merges the two queues back into the order of issue.
*/
module ErrorQueue {
  import opened Options

  /** The message is the formatted one; `serial` counts all nodes and marks, `Seq` is what is stored of it. */
  datatype Node = Node(time: int, serial: nat, level: int, msg: string, repeat: nat)

  const NONE := -1

  function Seq(n: Node): nat { n.serial % 0x1_0000_0000 }

  /** A value stored in an int. */
  function Int32(x: int): int
  {
    var y := x % 0x1_0000_0000;
    if y < 0x8000_0000 then y else y - 0x1_0000_0000
  }

  predicate IsHigh(n: Node, pivot: int) { n.level <= pivot && n.level != NONE }

  /** The nodes of one queue if nothing is ever dropped, newest first. */
  function Newest(s: seq<Node>, pivot: int, high: bool): seq<Node>
  {
    if s == [] then []
    else
      var x := s[|s| - 1];
      (if IsHigh(x, pivot) == high then [x] else []) + Newest(s[..|s| - 1], pivot, high)
  }

  function Prefix<T>(s: seq<T>, n: nat): seq<T> { if n < |s| then s[..n] else s }

  /** How many nodes a queue can hold: one more than be_maxsize, but the size counter cannot pass 65535. */
  function Limited(s: seq<Node>, maxsize: nat): seq<Node>
  {
    if maxsize < 65535 then Prefix(s, maxsize + 1) else s
  }

  // ----- repeats

  function Copies(msg: string, n: nat): seq<string> { if n == 0 then [] else Copies(msg, n - 1) + [msg] }

  /** What the nodes stand for: one with a repeat count stands for so many copies of the message before it. */
  function Expand(s: seq<Node>): seq<string>
  {
    if s == [] then []
    else
      var x, e := s[|s| - 1], Expand(s[..|s| - 1]);
      if x.repeat > 0 && e != [] then e + Copies(e[|e| - 1], x.repeat) else e + [x.msg]
  }

  /** The counted message and its count say what was printed. */
  ghost predicate Tells(issued: seq<Node>, last: Option<Node>, printed: seq<string>)
  {
    match last
    case None => Expand(issued) == printed
    case Some(x) =>
      && Expand(issued) + Copies(x.msg, x.repeat) == printed
      && Expand(issued) != [] && Expand(issued)[|Expand(issued)| - 1] == x.msg
  }

  /** The node that a flush makes of a count. */
  function RepeatNode(last: Node): Node
    requires last.repeat > 0
  {
    if last.repeat == 1 then last.(repeat := 0) else last.(msg := RepeatText(last.repeat))
  }

  function Decimal(n: nat): string
  {
    (if n < 10 then "" else Decimal(n / 10)) + [('0' as int + n % 10) as char]
  }

  lemma DecimalExample()
    ensures Decimal(7) == "7" && Decimal(120) == "120"
  {
    assert Decimal(1) == "1" && Decimal(12) == "12";
  }

  lemma RepeatTextIs(n: nat)
    ensures RepeatText(n) == "Last message repeated " + Decimal(n) + " times\n"
  {
  }

  /** The text of a flushed count. */
  lemma RepeatTextExample()
    ensures RepeatText(120) == "Last message repeated 120 times\n"
  {
    DecimalExample();
  }

  function RepeatText(n: nat): string { "Last message repeated " + Decimal(n) + " times\n" }

  /** What a flush adds to the nodes. */
  function Flushed(last: Option<Node>): seq<Node>
  {
    if last.Some? && last.value.repeat > 0 then [RepeatNode(last.value)] else []
  }

  lemma FlushTells(issued: seq<Node>, last: Option<Node>, printed: seq<string>)
    requires Tells(issued, last, printed)
    ensures Tells(issued + Flushed(last), None, printed)
  {
    hide RepeatText;
    if last.Some? && last.value.repeat > 0 {
      var s := issued + Flushed(last);
      assert s[..|s| - 1] == issued;
      assert last.value.repeat == 1 ==> Copies(last.value.msg, 1) == [last.value.msg];
    } else {
      assert issued + Flushed(last) == issued;
      assert Expand(issued) + [] == Expand(issued);
    }
  }

  lemma PrintTells(issued: seq<Node>, printed: seq<string>, x: Node)
    requires Tells(issued, None, printed) && x.repeat == 0
    ensures Tells(issued + [x], Some(x), printed + [x.msg])
  {
  }

  lemma RepeatTells(issued: seq<Node>, x: Node, printed: seq<string>)
    requires Tells(issued, Some(x), printed)
    ensures Tells(issued, Some(x.(repeat := x.repeat + 1)), printed + [x.msg])
  {
  }

  // ----- what a queue holds

  /** Adding a node to a queue that is full drops its oldest one first. */
  lemma Enqueued(all: seq<Node>, maxsize: nat, x: Node)
    ensures Limited([x] + all, maxsize)
      == [x] + (if maxsize < 65535 then Prefix(Limited(all, maxsize), maxsize) else Limited(all, maxsize))
    ensures maxsize < 65535 ==> |Limited(all, maxsize)| <= maxsize + 1
  {
  }

  lemma NewestAppended(s: seq<Node>, x: Node, pivot: int, high: bool)
    ensures Newest(s + [x], pivot, high)
      == if IsHigh(x, pivot) == high then [x] + Newest(s, pivot, high) else Newest(s, pivot, high)
  {
  }

  lemma {:induction false} AllHigh(s: seq<Node>, pivot: int)
    requires forall x :: x in s ==> IsHigh(x, pivot)
    ensures |Newest(s, pivot, true)| == |s|
  {
    if s != [] {
      hide IsHigh;
      assert s[|s| - 1] in s;
      AllHigh(s[..|s| - 1], pivot);
    }
  }

  /** A queue stays within its bound whatever is issued exactly if be_maxsize is below 65535. */
  lemma BoundedExactly(pivot: int, maxsize: nat)
    requires 0 <= pivot && maxsize <= 65535
    ensures maxsize < 65535 <==> forall s: seq<Node> :: |Limited(Newest(s, pivot, true), maxsize)| <= maxsize + 1
  {
    if maxsize == 65535 {
      var s := seq(65537, i => Node(0, 0, 0, "", 0));
      AllHigh(s, pivot);
      assert |Limited(Newest(s, pivot, true), maxsize)| == 65537;
    }
  }

  // ----- the order of issue

  /** What the two queues hold together, in the order of issue: the newest `a` high and `b` low ones. */
  function Kept(s: seq<Node>, pivot: int, a: nat, b: nat): seq<Node>
  {
    if s == [] then []
    else
      var x, rest := s[|s| - 1], s[..|s| - 1];
      if IsHigh(x, pivot) then
        if a > 0 then Kept(rest, pivot, a - 1, b) + [x] else Kept(rest, pivot, a, b)
      else
        if b > 0 then Kept(rest, pivot, a, b - 1) + [x] else Kept(rest, pivot, a, b)
  }

  lemma {:induction false} KeptIsInQueues(s: seq<Node>, pivot: int, a: nat, b: nat)
    ensures Newest(Kept(s, pivot, a, b), pivot, true) == Prefix(Newest(s, pivot, true), a)
    ensures Newest(Kept(s, pivot, a, b), pivot, false) == Prefix(Newest(s, pivot, false), b)
  {
    if s != [] {
      hide Newest, IsHigh, Prefix, Kept;
      var x, rest := s[|s| - 1], s[..|s| - 1];
      assert s == rest + [x];
      KeptAppended(rest, x, pivot, a, b);
      NewestAppended(rest, x, pivot, true);
      NewestAppended(rest, x, pivot, false);
      if IsHigh(x, pivot) && a > 0 {
        KeptIsInQueues(rest, pivot, a - 1, b);
        KeptOneMore(Kept(rest, pivot, a - 1, b), x, Newest(rest, pivot, true), a - 1, pivot);
      } else if !IsHigh(x, pivot) && b > 0 {
        KeptIsInQueues(rest, pivot, a, b - 1);
        KeptOneMore(Kept(rest, pivot, a, b - 1), x, Newest(rest, pivot, false), b - 1, pivot);
      } else {
        KeptIsInQueues(rest, pivot, a, b);
        PrefixCons(x, Newest(rest, pivot, IsHigh(x, pivot)), 0);
      }
    }
  }

  lemma KeptAppended(rest: seq<Node>, x: Node, pivot: int, a: nat, b: nat)
    ensures var high := IsHigh(x, pivot);
      Kept(rest + [x], pivot, a, b)
      == if high && a > 0 then Kept(rest, pivot, a - 1, b) + [x]
         else if !high && b > 0 then Kept(rest, pivot, a, b - 1) + [x]
         else Kept(rest, pivot, a, b)
  {
  }

  lemma KeptOneMore(k: seq<Node>, x: Node, all: seq<Node>, n: nat, pivot: int)
    requires Newest(k, pivot, IsHigh(x, pivot)) == Prefix(all, n)
    ensures Newest(k + [x], pivot, IsHigh(x, pivot)) == Prefix([x] + all, n + 1)
    ensures Newest(k + [x], pivot, !IsHigh(x, pivot)) == Newest(k, pivot, !IsHigh(x, pivot))
  {
    hide Newest, IsHigh, Prefix;
    NewestAppended(k, x, pivot, true);
    NewestAppended(k, x, pivot, false);
    PrefixCons(x, all, n);
  }

  lemma PrefixCons(x: Node, s: seq<Node>, n: nat)
    ensures Prefix([x] + s, n + 1) == [x] + Prefix(s, n) && Prefix(s, 0) == [] && Prefix([x] + s, 0) == []
  {
  }

  lemma {:induction false} AllKept(s: seq<Node>, pivot: int, a: nat, b: nat)
    requires |Newest(s, pivot, true)| <= a && |Newest(s, pivot, false)| <= b
    ensures Kept(s, pivot, a, b) == s
  {
    if s != [] {
      var x, rest := s[|s| - 1], s[..|s| - 1];
      var high := IsHigh(x, pivot);
      AllKept(rest, pivot, if high then a - 1 else a, if high then b else b - 1);
      assert s == rest + [x];
    }
  }

  /** `a` was issued before `b`, or they are a message and its repeat, which share their place. */
  predicate NotAfter(a: Node, b: Node, pivot: int)
  {
    a.time <= b.time && a.serial <= b.serial && (a.serial == b.serial ==> IsHigh(a, pivot) == IsHigh(b, pivot))
  }

  ghost predicate InOrder(s: seq<Node>, pivot: int)
  {
    forall i, j :: 0 <= i < j < |s| ==> NotAfter(s[i], s[j], pivot)
  }

  /** No node is so far from a later one of the other queue that an int cannot hold the difference. */
  ghost predicate Close(s: seq<Node>, pivot: int)
  {
    forall i, j :: 0 <= i < j < |s| && IsHigh(s[i], pivot) != IsHigh(s[j], pivot) ==> CloseTo(s[i], s[j])
  }

  predicate CloseTo(x: Node, y: Node)
  {
    y.time - x.time < 0x8000_0000 && y.serial - x.serial < 0x8000_0000
  }

  lemma {:induction false} KeptInOrder(s: seq<Node>, pivot: int, a: nat, b: nat)
    requires InOrder(s, pivot)
    ensures InOrder(Kept(s, pivot, a, b), pivot)
    ensures forall x :: x in Kept(s, pivot, a, b) ==> x in s
  {
    if s != [] {
      hide NotAfter, IsHigh;
      var x, rest := s[|s| - 1], s[..|s| - 1];
      var high := IsHigh(x, pivot);
      var a', b' := if high && a > 0 then a - 1 else a, if !high && b > 0 then b - 1 else b;
      KeptInOrder(rest, pivot, a', b');
      var k := Kept(rest, pivot, a', b');
      forall i | 0 <= i < |k| ensures NotAfter(k[i], x, pivot) {
        assert k[i] in k && k[i] in rest;
        var j :| 0 <= j < |rest| && rest[j] == k[i];
        assert s[j] == rest[j];
      }
    }
  }

  // ----- the merge of a dump

  /** The oldest node of a queue. */
  function Oldest(q: seq<Node>): Option<Node> { if q == [] then None else Some(q[|q| - 1]) }

  /** Positive when the high node comes next. */
  function WantHigh(hi: Option<Node>, lo: Option<Node>): int
  {
    if hi.None? || lo.None? then (if lo.None? then 1 else 0)
    else if Int32(lo.value.time - hi.value.time) != 0 then Int32(lo.value.time - hi.value.time)
    else Int32(Seq(lo.value) - Seq(hi.value))
  }

  lemma DifferenceWraps(a: nat, b: nat)
    ensures Int32(a % 0x1_0000_0000 - b % 0x1_0000_0000) == Int32(a - b)
  {
  }

  /** Times and numbers in between which the first of two nodes is taken first; a tie goes to the low queue. */
  predicate InTurn(first: Node, second: Node, pivot: int)
  {
    var d, e := (second.time - first.time) % 0x1_0000_0000, (second.serial - first.serial) % 0x1_0000_0000;
    if IsHigh(first, pivot) then 0 < d < 0x8000_0000 || (d == 0 && 0 < e < 0x8000_0000)
    else 0 < d <= 0x8000_0000 || (d == 0 && e <= 0x8000_0000)
  }

  lemma Opposite(x: int)
    ensures Int32(x) > 0 <==> 0 < x % 0x1_0000_0000 < 0x8000_0000
    ensures Int32(-x) < 0 <==> 0 < x % 0x1_0000_0000 <= 0x8000_0000
    ensures Int32(x) == 0 <==> x % 0x1_0000_0000 == 0
    ensures Int32(-x) == 0 <==> x % 0x1_0000_0000 == 0
  {
    var m := 0x1_0000_0000;
    var r := x % m;
    assert -x == -r + m * -(x / m);
    assert (-x) % m == (if r == 0 then 0 else m - r) by {
      ModOfMultiple(if r == 0 then 0 else m - r, if r == 0 then -(x / m) else -(x / m) - 1, -x);
    }
  }

  lemma ModOfMultiple(r: int, q: int, x: int)
    requires 0 <= r < 0x1_0000_0000 && x == r + 0x1_0000_0000 * q
    ensures x % 0x1_0000_0000 == r
  {
  }

  /** Of two nodes from different queues the comparison takes the first exactly if it is in turn. */
  lemma TakenExactly(first: Node, second: Node, pivot: int)
    requires IsHigh(first, pivot) != IsHigh(second, pivot)
    ensures var high := IsHigh(first, pivot);
      var hi, lo := if high then first else second, if high then second else first;
      (WantHigh(Some(hi), Some(lo)) > 0) == high <==> InTurn(first, second, pivot)
  {
    hide Int32, IsHigh;
    Opposite(second.time - first.time);
    Opposite(second.serial - first.serial);
    DifferenceWraps(second.serial, first.serial);
    DifferenceWraps(first.serial, second.serial);
  }

  /** The merge of a dump, of two queues with their newest nodes first. */
  function Merge(hi: seq<Node>, lo: seq<Node>): seq<Node>
    decreases |hi| + |lo|
  {
    if hi == [] && lo == [] then []
    else if WantHigh(Oldest(hi), Oldest(lo)) > 0 then [hi[|hi| - 1]] + Merge(hi[..|hi| - 1], lo)
    else [lo[|lo| - 1]] + Merge(hi, lo[..|lo| - 1])
  }

  /** Whatever the times and numbers, every node is there exactly once. */
  lemma {:induction false} MergeIsComplete(hi: seq<Node>, lo: seq<Node>)
    ensures multiset(Merge(hi, lo)) == multiset(hi) + multiset(lo)
    decreases |hi| + |lo|
  {
    if hi != [] || lo != [] {
      hide WantHigh;
      WantHighFinds(hi, lo);
      if WantHigh(Oldest(hi), Oldest(lo)) > 0 {
        MergeIsComplete(hi[..|hi| - 1], lo);
        LastApart(hi, Merge(hi[..|hi| - 1], lo));
      } else {
        MergeIsComplete(hi, lo[..|lo| - 1]);
        LastApart(lo, Merge(hi, lo[..|lo| - 1]));
      }
    }
  }

  lemma WantHighFinds(hi: seq<Node>, lo: seq<Node>)
    requires hi != [] || lo != []
    ensures if WantHigh(Oldest(hi), Oldest(lo)) > 0 then hi != [] else lo != []
  {
  }

  lemma LastApart(q: seq<Node>, rest: seq<Node>)
    requires q != []
    ensures multiset([q[|q| - 1]] + rest) == multiset(rest) + multiset{q[|q| - 1]}
    ensures multiset(q) == multiset(q[..|q| - 1]) + multiset{q[|q| - 1]}
  {
    assert q == q[..|q| - 1] + [q[|q| - 1]];
  }

  /** Every node is in turn with the next one of the other queue. */
  predicate MergesInOrder(k: seq<Node>, pivot: int)
  {
    k == [] ||
    ( var next := Oldest(Newest(k[1..], pivot, !IsHigh(k[0], pivot)));
      (next.Some? ==> InTurn(k[0], next.value, pivot)) && MergesInOrder(k[1..], pivot))
  }

  lemma {:induction false} NewestCons(x: Node, s: seq<Node>, pivot: int, high: bool)
    ensures Newest([x] + s, pivot, high) == Newest(s, pivot, high) + (if IsHigh(x, pivot) == high then [x] else [])
  {
    hide Newest, IsHigh;
    NewestOfNone(pivot, high);
    if s == [] {
      assert [x] + s == [] + [x];
      NewestAppended([], x, pivot, high);
    } else {
      var y, rest := s[|s| - 1], s[..|s| - 1];
      NewestCons(x, rest, pivot, high);
      assert [x] + s == ([x] + rest) + [y] && s == rest + [y];
      NewestAppended([x] + rest, y, pivot, high);
      NewestAppended(rest, y, pivot, high);
    }
  }

  lemma NewestOfNone(pivot: int, high: bool)
    ensures Newest([], pivot, high) == []
  {
  }

  lemma {:induction false} NewestFrom(s: seq<Node>, pivot: int, high: bool)
    ensures forall x :: x in Newest(s, pivot, high) ==> x in s && IsHigh(x, pivot) == high
  {
    if s != [] {
      NewestFrom(s[..|s| - 1], pivot, high);
    }
  }

  lemma OldestOf(q: seq<Node>, x: Node)
    ensures Oldest(q + [x]) == Some(x) && Oldest(q) == (if q == [] then None else Some(q[|q| - 1])) && q + [] == q
  {
  }

  /** The first node is the oldest of its queue; the merge takes it first exactly if it is in turn. */
  lemma FirstIsTaken(k: seq<Node>, pivot: int)
    requires k != []
    ensures var x, rest := k[0], k[1..]; var hi, lo := Newest(rest, pivot, true), Newest(rest, pivot, false);
      var next := Oldest(if IsHigh(x, pivot) then lo else hi);
      && Newest(k, pivot, true) == (if IsHigh(x, pivot) then hi + [x] else hi)
      && Newest(k, pivot, false) == (if IsHigh(x, pivot) then lo else lo + [x])
      && ((WantHigh(Oldest(Newest(k, pivot, true)), Oldest(Newest(k, pivot, false))) > 0) == IsHigh(x, pivot)
          <==> (next.Some? ==> InTurn(x, next.value, pivot)))
      && (next.Some? ==> IsHigh(next.value, pivot) != IsHigh(x, pivot))
  {
    hide WantHigh, Newest, IsHigh, InTurn, Oldest;
    var x, rest := k[0], k[1..];
    var high := IsHigh(x, pivot);
    assert k == [x] + rest;
    NewestCons(x, rest, pivot, true);
    NewestCons(x, rest, pivot, false);
    OldestOf(Newest(rest, pivot, high), x);
    OldestOf(Newest(rest, pivot, !high), x);
    var other := Newest(rest, pivot, !high);
    if other == [] {
      NoOther(x, high);
    } else {
      var y := other[|other| - 1];
      assert y in other;
      NewestFrom(rest, pivot, !high);
      TakenExactly(x, y, pivot);
    }
  }

  lemma NoOther(x: Node, high: bool)
    ensures (WantHigh(if high then Some(x) else None, if high then None else Some(x)) > 0) == high
  {
  }

  /** The merge restores the order of issue exactly if every node is in turn with the next of the other queue. */
  lemma {:induction false} MergeExactly(k: seq<Node>, pivot: int)
    ensures Merge(Newest(k, pivot, true), Newest(k, pivot, false)) == k <==> MergesInOrder(k, pivot)
  {
    if k != [] {
      hide WantHigh, Newest, IsHigh, InTurn, Oldest, Merge;
      var rest := k[1..];
      FirstIsTaken(k, pivot);
      MergeExactly(rest, pivot);
      MergeFirst(k, pivot);
      SameTail(k, Merge(Newest(rest, pivot, true), Newest(rest, pivot, false)));
    }
  }

  lemma SameTail(k: seq<Node>, rest: seq<Node>)
    requires k != []
    ensures [k[0]] + rest == k <==> rest == k[1..]
  {
    assert ([k[0]] + rest)[1..] == rest && [k[0]] + k[1..] == k;
  }

  /** What the merge does with the first node. */
  lemma MergeFirst(k: seq<Node>, pivot: int)
    requires k != []
    ensures var rest := Merge(Newest(k[1..], pivot, true), Newest(k[1..], pivot, false));
      var all := Merge(Newest(k, pivot, true), Newest(k, pivot, false));
      var wanted := WantHigh(Oldest(Newest(k, pivot, true)), Oldest(Newest(k, pivot, false))) > 0;
      if wanted == IsHigh(k[0], pivot) then all == [k[0]] + rest else all != [] && all[0] != k[0]
  {
    hide WantHigh, Newest, IsHigh, InTurn;
    FirstIsTaken(k, pivot);
    var x := k[0];
    var hi, lo := Newest(k[1..], pivot, true), Newest(k[1..], pivot, false);
    assert (hi + [x])[..|hi|] == hi && (lo + [x])[..|lo|] == lo;
    if IsHigh(x, pivot) {
      if lo == [] {
        NoOther(x, true);
      }
    } else if hi == [] {
      NoOther(x, false);
    }
  }

  /** While the clock does not step back, nodes close enough to each other are all in turn. */
  lemma {:induction false} CloseMergesInOrder(k: seq<Node>, pivot: int)
    requires InOrder(k, pivot) && Close(k, pivot)
    ensures MergesInOrder(k, pivot)
  {
    if k != [] {
      hide NotAfter, IsHigh, Newest, InTurn, CloseTo, InOrder, Close;
      var rest := k[1..];
      FirstIsClose(k, pivot);
      CloseMergesInOrder(rest, pivot);
      var high := IsHigh(k[0], pivot);
      var other := Newest(rest, pivot, !high);
      if other != [] {
        var y := other[|other| - 1];
        assert y in other;
        NewestFrom(rest, pivot, !high);
        CloseInTurn(k[0], y, pivot);
      }
    }
  }

  /** The order and the distances, taken apart into those of the first node and the rest. */
  lemma FirstIsClose(k: seq<Node>, pivot: int)
    requires k != [] && InOrder(k, pivot) && Close(k, pivot)
    ensures InOrder(k[1..], pivot) && Close(k[1..], pivot)
    ensures forall y :: y in k[1..] ==>
      NotAfter(k[0], y, pivot) && (IsHigh(k[0], pivot) != IsHigh(y, pivot) ==> CloseTo(k[0], y))
  {
    hide NotAfter, IsHigh, CloseTo;
    var rest := k[1..];
    assert forall i :: 0 <= i < |rest| ==> rest[i] == k[i + 1];
  }

  lemma CloseInTurn(x: Node, y: Node, pivot: int)
    requires NotAfter(x, y, pivot) && CloseTo(x, y) && IsHigh(x, pivot) != IsHigh(y, pivot)
    ensures InTurn(x, y, pivot)
  {
  }

  // ----- what a dump shows

  /** The two filters of a dump. */
  predicate Passes(cur: Node, mark: Option<Node>, minimum: int)
  {
    && (mark.Some? ==> !(cur.time < mark.value.time
                         || (cur.time == mark.value.time && Int32(Seq(cur) - Seq(mark.value)) < 0)))
    && !(minimum >= 0 && cur.level > minimum)
  }

  function Passing(k: seq<Node>, mark: Option<Node>, minimum: int): seq<Node>
  {
    if k == [] then []
    else
      var x := k[|k| - 1];
      Passing(k[..|k| - 1], mark, minimum) + (if Passes(x, mark, minimum) then [x] else [])
  }

  /** Time and count agree about which of the two came first, and the count tells them apart. */
  predicate Told(x: Node, mark: Node)
  {
    if x.serial < mark.serial then x.time <= mark.time else x.serial > mark.serial && x.time >= mark.time
  }

  /** By its time, and by the distance of the numbers if the times are the same, a node is on its side of the mark. */
  predicate OnItsSide(x: Node, mark: Node)
  {
    var d := (x.serial - mark.serial) % 0x1_0000_0000;
    if x.serial > mark.serial then x.time > mark.time || (x.time == mark.time && d < 0x8000_0000)
    else x.time < mark.time || (x.time == mark.time && d >= 0x8000_0000)
  }

  /**
    The mark lets through what was first printed after it, and holds back the rest, exactly as far
    as nodes are on their side of it.  The repeat of an older message counts as older.
  */
  lemma PassesMarkExactly(x: Node, mark: Node)
    ensures (Passes(x, Some(mark), NONE) <==> x.serial > mark.serial) <==> OnItsSide(x, mark)
  {
    DifferenceWraps(x.serial, mark.serial);
  }

  /** So it is while the clock does not step back, within 2^31 numbers. */
  lemma ToldOnItsSide(x: Node, mark: Node)
    requires Told(x, mark) && -0x8000_0000 <= x.serial - mark.serial < 0x8000_0000
    ensures OnItsSide(x, mark)
  {
  }

  /** The nodes counted after a mark. */
  function After(k: seq<Node>, serial: nat): seq<Node>
  {
    if k == [] then []
    else After(k[..|k| - 1], serial) + (if k[|k| - 1].serial > serial then [k[|k| - 1]] else [])
  }

  lemma {:induction false} PassingMembers(k: seq<Node>, mark: Option<Node>, minimum: int)
    ensures forall x :: x in Passing(k, mark, minimum) <==> x in k && Passes(x, mark, minimum)
  {
    hide Passes;
    if k != [] {
      PassingMembers(k[..|k| - 1], mark, minimum);
      assert k == k[..|k| - 1] + [k[|k| - 1]];
    }
  }

  lemma {:induction false} AfterMembers(k: seq<Node>, serial: nat)
    ensures forall x :: x in After(k, serial) <==> x in k && x.serial > serial
  {
    if k != [] {
      AfterMembers(k[..|k| - 1], serial);
      assert k == k[..|k| - 1] + [k[|k| - 1]];
    }
  }

  lemma {:induction false} OnTheirSide(k: seq<Node>, mark: Node)
    requires forall x :: x in k ==> OnItsSide(x, mark)
    ensures Passing(k, Some(mark), NONE) == After(k, mark.serial)
  {
    hide OnItsSide, Passes;
    if k != [] {
      OnTheirSide(k[..|k| - 1], mark);
      PassesMarkExactly(k[|k| - 1], mark);
    }
  }

  /** A dump from a mark shows those whose message was first printed after it, exactly if all are on their side. */
  lemma MarkShowsNewer(k: seq<Node>, mark: Node)
    ensures Passing(k, Some(mark), NONE) == After(k, mark.serial) <==> forall x :: x in k ==> OnItsSide(x, mark)
  {
    hide OnItsSide, Passes, Passing, After;
    if forall x :: x in k ==> OnItsSide(x, mark) {
      OnTheirSide(k, mark);
    } else {
      var x :| x in k && !OnItsSide(x, mark);
      PassingMembers(k, Some(mark), NONE);
      AfterMembers(k, mark.serial);
      PassesMarkExactly(x, mark);
    }
  }

  /** What passes is shown as often as it is there, and nothing else is shown. */
  lemma {:induction false} PassingCount(k: seq<Node>, mark: Option<Node>, minimum: int, x: Node)
    ensures multiset(Passing(k, mark, minimum))[x] == if Passes(x, mark, minimum) then multiset(k)[x] else 0
  {
    hide Passes;
    if k != [] {
      PassingCount(k[..|k| - 1], mark, minimum, x);
      assert k == k[..|k| - 1] + [k[|k| - 1]];
    }
  }

  /** A minimum is the highest level that is shown: the more important a message, the lower its level. */
  lemma LevelPasses(x: Node, minimum: int)
    ensures Passes(x, None, minimum) <==> minimum < 0 || x.level <= minimum
  {
  }

  lemma PassingAppended(k: seq<Node>, x: Node, mark: Option<Node>, minimum: int)
    ensures Passing(k + [x], mark, minimum)
      == Passing(k, mark, minimum) + (if Passes(x, mark, minimum) then [x] else [])
  {
  }

  lemma {:induction false} AllPass(k: seq<Node>, minimum: int)
    requires minimum < 0
    ensures Passing(k, None, minimum) == k
  {
    if k != [] {
      AllPass(k[..|k| - 1], minimum);
    }
  }

  lemma {:induction false} NewestShorter(s: seq<Node>, pivot: int, high: bool)
    ensures |Newest(s, pivot, high)| <= |s|
  {
    if s != [] {
      NewestShorter(s[..|s| - 1], pivot, high);
    }
  }

  /**
    Nodes and marks have numbers of their own, and be_last is the newest node.  As long as the
    clock has not stepped back, times follow the order of issue as well.
  */
  ghost predicate Stamped(issued: seq<Node>, last: Option<Node>, marks: map<nat, Node>, seqnum: nat)
  {
    && (forall x :: x in issued ==> x.serial < seqnum) && (forall m :: m in marks ==> marks[m].serial < seqnum)
    && (last.Some? ==> issued != [] && issued[|issued| - 1] == last.value.(repeat := 0))
  }

  ghost predicate Steady(issued: seq<Node>, marks: map<nat, Node>, clock: int, pivot: int)
  {
    && InOrder(issued, pivot) && (forall x :: x in issued ==> x.time <= clock)
    && (forall m :: m in marks ==> marks[m].time <= clock)
    && (forall x, m :: x in issued && m in marks ==> Told(x, marks[m]))
  }

  lemma NewSteady(issued: seq<Node>, marks: map<nat, Node>, clock: int, seqnum: nat, pivot: int, x: Node)
    requires Stamped(issued, None, marks, seqnum) && Steady(issued, marks, clock, pivot)
    requires clock <= x.time && x.serial == seqnum
    ensures Steady(issued + [x], marks, x.time, pivot)
  {
  }

  lemma LaterSteady(issued: seq<Node>, marks: map<nat, Node>, clock: int, now: int, pivot: int)
    requires Steady(issued, marks, clock, pivot) && clock <= now
    ensures Steady(issued, marks, now, pivot)
  {
  }

  lemma NewStamped(issued: seq<Node>, marks: map<nat, Node>, seqnum: nat, x: Node)
    requires Stamped(issued, None, marks, seqnum) && x.serial == seqnum && x.repeat == 0
    ensures Stamped(issued + [x], Some(x), marks, seqnum + 1)
  {
  }

  lemma CountStamped(issued: seq<Node>, last: Node, marks: map<nat, Node>, seqnum: nat)
    requires Stamped(issued, Some(last), marks, seqnum)
    ensures Stamped(issued, Some(last.(repeat := last.repeat + 1)), marks, seqnum)
  {
  }

  lemma RepeatSteady(issued: seq<Node>, last: Node, marks: map<nat, Node>, clock: int, pivot: int)
    requires Steady(issued, marks, clock, pivot) && last.repeat > 0
    requires issued != [] && issued[|issued| - 1] == last.(repeat := 0)
    ensures Steady(issued + [RepeatNode(last)], marks, clock, pivot)
  {
    var node := RepeatNode(last);
    RepeatOrdered(issued, last, pivot);
    hide InOrder, RepeatText;
    assert last.(repeat := 0) in issued;
    forall m | m in marks ensures Told(node, marks[m]) {
      assert Told(last.(repeat := 0), marks[m]);
    }
  }

  class ErrorInfo {
    const pivot: int
    const maxsize: nat
    // newest first
    var hi: seq<Node>
    var lo: seq<Node>
    // u_short counters
    var hiSize: nat
    var loSize: nat
    // how many nodes and marks there have been; be_seqnum holds it modulo 2^32
    var seqnum: nat
    // be_last, its ben_repeat counting the repeats not yet turned into a node
    var last: Option<Node>
    var marks: map<nat, Node>
    ghost var issued: seq<Node>
    ghost var printed: seq<string>
    // the time of the last call, and whether it has never gone down
    ghost var clock: int
    ghost var steady: bool

    /** What the queues hold. */
    ghost predicate Held()
      reads `hi, `lo, `hiSize, `loSize, `issued
    {
      && hi == Limited(Newest(issued, pivot, true), maxsize) && hiSize == |hi| % 65536
      && lo == Limited(Newest(issued, pivot, false), maxsize) && loSize == |lo| % 65536
    }

    ghost predicate Valid()
      reads this
    {
      && maxsize <= 65535 && Held() && Tells(issued, last, printed) && Stamped(issued, last, marks, seqnum)
      && (steady ==> Steady(issued, marks, clock, pivot))
    }

    /** The retained nodes, in the order of issue. */
    ghost function Retained(): seq<Node>
      reads this
    {
      var limit := if maxsize < 65535 then maxsize + 1 else |issued|;
      Kept(issued, pivot, limit, limit)
    }

    /** bk_error_init */
    constructor (pivot: int, maxsize: nat)
      requires maxsize <= 65535
      ensures Valid() && this.pivot == pivot && this.maxsize == maxsize && printed == [] && issued == [] && steady
      ensures clock == 0 && last == None && seqnum == 0 && marks == map[]
    {
      this.pivot, this.maxsize := pivot, maxsize;
      hi, lo, hiSize, loSize, seqnum, last, marks := [], [], 0, 0, 0, None, map[];
      issued, printed, clock, steady := [], [], 0, true;
    }

    /** bk_error_enqueue on the chosen queue and its counter. */
    method Insert(ghost all: seq<Node>, q0: seq<Node>, size0: nat, node: Node) returns (q: seq<Node>, size: nat)
      requires maxsize <= 65535 && size0 == |q0| % 65536 && q0 == Limited(all, maxsize)
      ensures size == |q| % 65536 && q == Limited([node] + all, maxsize)
      ensures q != [] && q[0] == node && q[1..] <= q0
    {
      Enqueued(all, maxsize, node);
      hide Limited;
      q, size := q0, size0;
      while size > maxsize
        invariant if maxsize < 65535 then |q| <= maxsize + 1 else q == q0
        invariant size == |q| % 65536 && q <= q0 && (|q| < |q0| ==> |q| == maxsize)
        decreases |q|
      {
        q := q[..|q| - 1];
        size := size - 1;
      }
      q := [node] + q;
      size := (size + 1) % 65536;
    }

    /** bk_error_enqueue */
    method Enqueue(node: Node)
      requires maxsize <= 65535 && Held()
      modifies `hi, `lo, `hiSize, `loSize, `issued
      ensures Held() && issued == old(issued) + [node]
      ensures if node.level <= pivot && node.level != -1
        then hi != [] && hi[0] == node && hi[1..] <= old(hi) && lo == old(lo)
        else lo != [] && lo[0] == node && lo[1..] <= old(lo) && hi == old(hi)
      ensures maxsize < 65535 ==> |hi| <= maxsize + 1 && |lo| <= maxsize + 1
    {
      hide Newest, Limited;
      NewestAppended(issued, node, pivot, true);
      NewestAppended(issued, node, pivot, false);
      if IsHigh(node, pivot) {
        hi, hiSize := Insert(Newest(issued, pivot, true), hi, hiSize, node);
      } else {
        lo, loSize := Insert(Newest(issued, pivot, false), lo, loSize, node);
      }
      issued := issued + [node];
      Enqueued(Newest(issued, pivot, true), maxsize, node);
      Enqueued(Newest(issued, pivot, false), maxsize, node);
    }

    /** Any run of bk_error_enqueue; with high nodes alone, what is left of them. */
    method EnqueueAll(nodes: seq<Node>)
      requires maxsize <= 65535 && Held() && issued == []
      modifies `hi, `lo, `hiSize, `loSize, `issued
      ensures Held() && issued == nodes
      ensures maxsize < 65535 && nodes != [] ==> |hi| <= maxsize + 1 && |lo| <= maxsize + 1
      ensures (forall x :: x in nodes ==> IsHigh(x, pivot)) ==>
        |hi| == if maxsize < 65535 && |nodes| > maxsize + 1 then maxsize + 1 else |nodes|
    {
      hide Newest, IsHigh;
      var n := 0;
      while n < |nodes|
        invariant n <= |nodes| && Held() && issued == nodes[..n]
        invariant maxsize < 65535 && n > 0 ==> |hi| <= maxsize + 1 && |lo| <= maxsize + 1
      {
        assert nodes[..n + 1] == nodes[..n] + [nodes[n]];
        Enqueue(nodes[n]);
        n := n + 1;
      }
      assert nodes[..n] == nodes;
      if forall x :: x in nodes ==> IsHigh(x, pivot) {
        AllHigh(nodes, pivot);
      }
    }

    /** bk_error_irepeater_flush */
    method Flush()
      requires Valid()
      modifies `hi, `lo, `hiSize, `loSize, `issued, `last
      ensures Valid() && last == None && issued == old(issued) + Flushed(old(last))
      ensures old(last.Some? && last.value.repeat > 0) ==>
        var x, l := issued[|issued| - 1], old(last.value);
        && |issued| == old(|issued|) + 1 && x.time == l.time && x.serial == l.serial && x.level == l.level
        && x.msg == (if l.repeat == 1 then l.msg else "Last message repeated " + Decimal(l.repeat) + " times\n")
    {
      hide Limited, Newest, Expand, RepeatText;
      FlushTells(issued, last, printed);
      if last.Some? && last.value.repeat > 0 {
        var node := RepeatNode(last.value);
        if steady {
          RepeatSteady(issued, last.value, marks, clock, pivot);
        }
        assert last.value.(repeat := 0) in issued;
        assert node.msg == (if last.value.repeat == 1 then last.value.msg
          else "Last message repeated " + Decimal(last.value.repeat) + " times\n") by {
          RepeatTextIs(last.value.repeat);
        }
        Enqueue(node);
      } else {
        assert issued + [] == issued;
      }
      last := None;
    }

    /** The part of bk_error_iprint for a message that is not a repeat, after the flush. */
    method PrintNew(level: int, msg: string, now: int)
      requires Valid() && last == None
      modifies `hi, `lo, `hiSize, `loSize, `issued, `last, `seqnum, `printed, `clock, `steady
      ensures Valid() && printed == old(printed) + [msg]
      ensures clock == now && steady == old(steady && now >= clock)
      ensures last == Some(Node(now, old(seqnum), level, msg, 0)) && seqnum == old(seqnum) + 1
      ensures issued == old(issued) + [last.value]
    {
      hide Limited, Newest, Expand, RepeatText, Held, Tells, Steady, Stamped, Flushed;
      var node := Node(now, seqnum, level, msg, 0);
      NewStamped(issued, marks, seqnum, node);
      if steady && now >= clock {
        NewSteady(issued, marks, clock, seqnum, pivot, node);
      }
      PrintTells(issued, printed, node);
      seqnum := seqnum + 1;
      last := Some(node);
      Enqueue(node);
      printed := printed + [msg];
      clock, steady := now, steady && now >= clock;
    }

    /** bk_error_iprint of an already formatted message. */
    method Print(level: int, msg: string, now: int)
      requires Valid()
      modifies this
      ensures Valid() && printed == old(printed) + [msg] && marks == old(marks)
      ensures clock == now && steady == old(steady && now >= clock)
      ensures if old(last.Some? && last.value.msg == msg) then
          last == Some(old(last.value).(repeat := old(last.value.repeat) + 1)) && seqnum == old(seqnum)
        else last == Some(Node(now, old(seqnum), level, msg, 0)) && seqnum == old(seqnum) + 1
      ensures issued == old(issued) +
          if old(last.Some? && last.value.msg == msg) then []
          else Flushed(old(last)) + [Node(now, old(seqnum), level, msg, 0)]
    {
      hide Limited, Newest, Expand, RepeatText, Held, Tells, Steady, Stamped, Flushed;
      if last.Some? && last.value.msg == msg {
        if steady && now >= clock {
          LaterSteady(issued, marks, clock, now, pivot);
        }
        RepeatTells(issued, last.value, printed);
        CountStamped(issued, last.value, marks, seqnum);
        last := Some(last.value.(repeat := last.value.repeat + 1));
        printed := printed + [msg];
        clock, steady := now, steady && now >= clock;
        assert issued + [] == issued;
      } else {
        Flush();
        PrintNew(level, msg, now);
      }
    }

    /** bk_error_imark */
    method Mark(mark: nat, now: int)
      requires Valid()
      modifies `marks, `seqnum, `clock, `steady
      ensures Valid() && seqnum == old(seqnum) + 1
      ensures clock == now && steady == old(steady && now >= clock)
      ensures marks == old(marks)[mark := Node(now, old(seqnum), 0, "", 0)]
    {
      hide Limited, Newest, Expand, Held, Tells;
      marks := marks[mark := Node(now, seqnum, 0, "", 0)];
      seqnum := seqnum + 1;
      clock, steady := now, steady && now >= clock;
    }

    /** The loop of bk_error_idump, with its two cursors. */
    method Show(mark: Option<Node>, minimum: int) returns (out: seq<Node>)
      ensures out == Passing(Merge(hi, lo), mark, minimum)
    {
      hide Passes, WantHigh, Merge;
      assert hi[..|hi|] == hi && lo[..|lo|] == lo;
      var i: nat, j: nat := |hi|, |lo|;
      ghost var done: seq<Node> := [];
      out := [];
      while i > 0 || j > 0
        invariant i <= |hi| && j <= |lo|
        invariant Merge(hi, lo) == done + Merge(hi[..i], lo[..j])
        invariant out == Passing(done, mark, minimum)
        decreases i + j
      {
        var h, l := if i > 0 then Some(hi[i - 1]) else None, if j > 0 then Some(lo[j - 1]) else None;
        MergeNext(hi, i, lo, j);
        ghost var rest := Merge(hi[..i], lo[..j]);
        var cur;
        if WantHigh(h, l) > 0 {
          cur := hi[i - 1];
          i := i - 1;
        } else {
          cur := lo[j - 1];
          j := j - 1;
        }
        assert done + rest == done + [cur] + Merge(hi[..i], lo[..j]);
        PassingAppended(done, cur, mark, minimum);
        done := done + [cur];
        if Passes(cur, mark, minimum) {
          out := out + [cur];
        }
      }
      NothingMerged(hi[..i], lo[..j]);
      assert Merge(hi, lo) == done;
    }

    /**
      bk_error_idump.  It shows each node of the two queues that passes the filters once, in the
      order of issue if the merge finds it; without filters, exactly if it does.  It does if the
      clock has never stepped back and nodes of different queues are close to each other.
    */
    method Dump(mark: Option<Node>, minimum: int) returns (out: seq<Node>)
      requires Valid()
      ensures out == Passing(Merge(hi, lo), mark, minimum)
      ensures MergesInOrder(Retained(), pivot) ==> out == Passing(Retained(), mark, minimum)
      ensures steady && Close(Retained(), pivot) ==> out == Passing(Retained(), mark, minimum)
      ensures mark == None && minimum < 0 ==> multiset(out) == multiset(hi) + multiset(lo)
      ensures mark == None ==> forall x ::
        multiset(out)[x] == if minimum < 0 || x.level <= minimum then multiset(hi)[x] + multiset(lo)[x] else 0
      ensures mark == None && minimum < 0 ==> (out == Retained() <==> MergesInOrder(Retained(), pivot))
    {
      hide Newest, Kept, Passes, Tells, MergesInOrder, Merge, Steady, Stamped, Close, InOrder;
      out := Show(mark, minimum);
      RetainedMerge();
      MergeIsComplete(hi, lo);
      if mark == None && minimum < 0 {
        AllPass(Merge(hi, lo), minimum);
      }
      forall x | mark == None
        ensures multiset(out)[x] == if minimum < 0 || x.level <= minimum then multiset(hi)[x] + multiset(lo)[x] else 0
      {
        PassingCount(Merge(hi, lo), None, minimum, x);
        LevelPasses(x, minimum);
      }
    }

    /** While the clock does not step back, a mark lets through what was first printed after it. */
    lemma MarkHolds(m: nat)
      requires Valid() && steady && m in marks
      requires forall x :: x in Retained() ==> -0x8000_0000 <= x.serial - marks[m].serial < 0x8000_0000
      ensures Passing(Retained(), Some(marks[m]), NONE) == After(Retained(), marks[m].serial)
    {
      hide Kept, Newest, NotAfter, Told, OnItsSide, Passing, After, Tells;
      var limit := if maxsize < 65535 then maxsize + 1 else |issued|;
      KeptInOrder(issued, pivot, limit, limit);
      forall x | x in Retained() ensures OnItsSide(x, marks[m]) {
        ToldOnItsSide(x, marks[m]);
      }
      MarkShowsNewer(Retained(), marks[m]);
    }

    lemma RetainedMerge()
      requires Valid()
      ensures Merge(hi, lo) == Retained() <==> MergesInOrder(Retained(), pivot)
      ensures steady && Close(Retained(), pivot) ==> MergesInOrder(Retained(), pivot)
    {
      hide Newest, Kept, Tells, MergesInOrder, Merge, Steady, Stamped, Close, InOrder;
      RetainedIsQueues();
      MergeExactly(Retained(), pivot);
      if steady && Close(Retained(), pivot) {
        CloseMergesInOrder(Retained(), pivot);
      }
    }

    lemma RetainedIsQueues()
      requires Valid()
      ensures hi == Newest(Retained(), pivot, true) && lo == Newest(Retained(), pivot, false)
      ensures steady ==> InOrder(Retained(), pivot)
    {
      hide Newest, Kept, NotAfter;
      var limit := if maxsize < 65535 then maxsize + 1 else |issued|;
      KeptIsInQueues(issued, pivot, limit, limit);
      if steady {
        KeptInOrder(issued, pivot, limit, limit);
      }
      NewestShorter(issued, pivot, true);
      NewestShorter(issued, pivot, false);
    }
  }

  lemma NothingMerged(hi: seq<Node>, lo: seq<Node>)
    ensures hi == [] && lo == [] ==> Merge(hi, lo) == []
  {
  }

  /** One turn of the merge, from the ends of what is left of the queues. */
  lemma MergeNext(hi: seq<Node>, i: nat, lo: seq<Node>, j: nat)
    requires i <= |hi| && j <= |lo| && (i > 0 || j > 0)
    ensures var h, l := if i > 0 then Some(hi[i - 1]) else None, if j > 0 then Some(lo[j - 1]) else None;
      if WantHigh(h, l) > 0 then i > 0 && Merge(hi[..i], lo[..j]) == [hi[i - 1]] + Merge(hi[..i - 1], lo[..j])
      else j > 0 && Merge(hi[..i], lo[..j]) == [lo[j - 1]] + Merge(hi[..i], lo[..j - 1])
  {
    assert i > 0 ==> hi[..i][..i - 1] == hi[..i - 1] && hi[..i][i - 1] == hi[i - 1];
    assert j > 0 ==> lo[..j][..j - 1] == lo[..j - 1] && lo[..j][j - 1] == lo[j - 1];
  }

  lemma RepeatOrdered(s: seq<Node>, last: Node, pivot: int)
    requires s != [] && s[|s| - 1] == last.(repeat := 0) && InOrder(s, pivot) && last.repeat > 0
    ensures InOrder(s + [RepeatNode(last)], pivot)
  {
  }

  /** If nothing had to be dropped, the retained nodes and the pending count say all that was printed. */
  lemma NothingLost(issued: seq<Node>, last: Option<Node>, printed: seq<string>, pivot: int, limit: nat)
    requires Tells(issued, last, printed)
    requires |Newest(issued, pivot, true)| <= limit && |Newest(issued, pivot, false)| <= limit
    ensures Expand(Passing(Kept(issued, pivot, limit, limit), None, NONE))
      + (if last.Some? then Copies(last.value.msg, last.value.repeat) else []) == printed
  {
    hide Expand, Kept, Newest, Copies;
    AllKept(issued, pivot, limit, limit);
    AllPass(issued, NONE);
    assert Expand(issued) + [] == Expand(issued);
  }

  // ----- three runs

  /** A high message, and a low one 2^31 seconds later: the dump shows the later one first. */
  method DumpOutOfOrder() returns (e: ErrorInfo, out: seq<Node>)
    ensures fresh(e) && e.Valid() && e.steady && e.printed == ["a", "b"]
    ensures e.issued == [Node(0, 0, 3, "a", 0), Node(0x8000_0000, 1, 5, "b", 0)]
    ensures out == [e.issued[1], e.issued[0]]
  {
    hide InTurn;
    assert !InTurn(Node(0, 0, 3, "a", 0), Node(0x8000_0000, 1, 5, "b", 0), 3) by { TooFar(); }
    e, out := PrintTwoAndDump(0, 0x8000_0000);
  }

  /** The clock stepping back by a second in between: the same. */
  method DumpAfterStepBack() returns (e: ErrorInfo, out: seq<Node>)
    ensures fresh(e) && e.Valid() && !e.steady && e.printed == ["a", "b"]
    ensures e.issued == [Node(1, 0, 3, "a", 0), Node(0, 1, 5, "b", 0)]
    ensures out == [e.issued[1], e.issued[0]]
  {
    hide InTurn;
    assert !InTurn(Node(1, 0, 3, "a", 0), Node(0, 1, 5, "b", 0), 3) by { TooFar(); }
    e, out := PrintTwoAndDump(1, 0);
  }

  lemma TooFar()
    ensures !InTurn(Node(0, 0, 3, "a", 0), Node(0x8000_0000, 1, 5, "b", 0), 3)
    ensures !InTurn(Node(1, 0, 3, "a", 0), Node(0, 1, 5, "b", 0), 3)
  {
  }

  /** A high message and a low one that are not in turn. */
  method PrintTwoAndDump(time: int, later: int) returns (e: ErrorInfo, out: seq<Node>)
    requires !InTurn(Node(time, 0, 3, "a", 0), Node(later, 1, 5, "b", 0), 3)
    ensures fresh(e) && e.Valid() && e.steady == (0 <= time <= later) && e.printed == ["a", "b"]
    ensures e.issued == [Node(time, 0, 3, "a", 0), Node(later, 1, 5, "b", 0)]
    ensures out == [e.issued[1], e.issued[0]]
  {
    hide Expand, Steady, Stamped, Tells, Newest, Merge, Limited, Passing, RepeatText, InTurn;
    hide Close, MergesInOrder, Kept;
    e := new ErrorInfo(3, 10);
    var a, b := Node(time, 0, 3, "a", 0), Node(later, 1, 5, "b", 0);
    e.Print(3, "a", time);
    assert e.issued == [a];
    assert "a" != "b";
    e.Print(5, "b", later);
    assert e.issued == [a, b];
    QueuesOfTwo(a, b);
    out := e.Dump(None, NONE);
    AllPass([b, a], NONE);
  }

  lemma QueuesOfTwo(a: Node, b: Node)
    requires a.level == 3 && b.level == 5 && !InTurn(a, b, 3)
    ensures Merge(Limited(Newest([a, b], 3, true), 10), Limited(Newest([a, b], 3, false), 10)) == [b, a]
  {
    hide Newest, Merge, WantHigh, InTurn;
    assert [a, b] == [] + [a] + [b];
    NewestAppended([] + [a], b, 3, true);
    NewestAppended([] + [a], b, 3, false);
    NewestAppended([], a, 3, true);
    NewestAppended([], a, 3, false);
    NewestOfNone(3, true);
    NewestOfNone(3, false);
    assert Newest([a, b], 3, true) == [a] && Newest([a, b], 3, false) == [b];
    TakenExactly(a, b, 3);
    SecondFirst(a, b);
  }

  lemma SecondFirst(a: Node, b: Node)
    requires WantHigh(Some(a), Some(b)) <= 0
    ensures Merge([a], [b]) == [b, a]
  {
    assert [a][..0] == [] && [b][..0] == [];
    assert Merge([a], [b]) == [b] + Merge([a], []);
    assert Merge([a], []) == [a] + Merge([], []);
  }

  /** A repeat printed after a mark: a dump from the mark leaves it out. */
  method RepeatAfterMark(level: int, msg: string, other: string) returns (e: ErrorInfo, out: seq<Node>)
    requires other != msg
    ensures fresh(e) && e.Valid() && e.steady && e.printed == [msg, msg, other]
    ensures e.issued == [Node(0, 0, level, msg, 0), Node(0, 0, level, msg, 0), Node(0, 2, level, other, 0)]
    ensures 0 in e.marks && e.marks[0].serial == 1 && out == [Node(0, 2, level, other, 0)]
  {
    hide Expand, Steady, Stamped, Tells, Newest, Merge, Limited, Passing, RepeatText, MergesInOrder, Kept;
    e := new ErrorInfo(level, 10);
    var a, b := Node(0, 0, level, msg, 0), Node(0, 2, level, other, 0);
    e.Print(level, msg, 0);
    assert e.issued == [a];
    e.Mark(0, 0);
    e.Print(level, msg, 0);
    assert e.issued == [a] && e.last == Some(a.(repeat := 1));
    e.Print(level, other, 0);
    assert e.issued == [a, a, b];
    OneQueue(a, b, e.marks[0], level);
    out := e.Dump(Some(e.marks[0]), NONE);
  }

  lemma OneQueue(a: Node, b: Node, mark: Node, pivot: int)
    requires a.level == b.level && a.time == b.time == mark.time == 0
    requires a.serial == 0 && mark.serial == 1 && b.serial == 2
    ensures Kept([a, a, b], pivot, 11, 11) == [a, a, b] && MergesInOrder([a, a, b], pivot)
    ensures Passing([a, a, b], Some(mark), NONE) == [b]
  {
    hide Newest, Kept, MergesInOrder, Passing, IsHigh;
    var k := [a, a, b];
    NewestShorter(k, pivot, true);
    NewestShorter(k, pivot, false);
    AllKept(k, pivot, 11, 11);
    assert IsHigh(a, pivot) == IsHigh(b, pivot) by { SameLevel(a, b, pivot); }
    OneClassInOrder(k, pivot, IsHigh(a, pivot));
    assert k == ([] + [a] + [a]) + [b];
    PassingAppended([], a, Some(mark), NONE);
    PassingAppended([] + [a], a, Some(mark), NONE);
    PassingAppended([] + [a] + [a], b, Some(mark), NONE);
    AllPass([], NONE);
    NonePass(Some(mark));
  }

  lemma NonePass(mark: Option<Node>)
    ensures Passing([], mark, NONE) == []
  {
  }

  lemma SameLevel(a: Node, b: Node, pivot: int)
    requires a.level == b.level
    ensures IsHigh(a, pivot) == IsHigh(b, pivot)
  {
  }

  lemma {:induction false} OneClassInOrder(k: seq<Node>, pivot: int, high: bool)
    requires forall x :: x in k ==> IsHigh(x, pivot) == high
    ensures MergesInOrder(k, pivot)
  {
    if k != [] {
      hide IsHigh, Newest, InTurn;
      OneClassInOrder(k[1..], pivot, high);
      NewestFrom(k[1..], pivot, !high);
      assert forall x :: x in k[1..] ==> x in k;
      NoneOf(Newest(k[1..], pivot, !high));
    }
  }

  lemma NoneOf(q: seq<Node>)
    ensures q == [] || q[0] in q
  {
  }
}
