/**
  The shared/exclusive lock kept in a file (lib/b_fileutils.c), as a protocol.

  Any number of processes run bk_file_lock and bk_file_unlock on one resource.  `Step` is one
  system call of one process, and the processes interleave in any order.  The file system is two
  names: the admin file, which holds a mode line and one line per holder, and the lock file, a
  link(2) that is to let one process at a time read and rewrite the admin file.
*/
module FileLock {
  import opened Options

  type Pid = nat
  type Id = nat

  datatype LockType = Shared | Exclusive

  /** A line of the admin file. */
  datatype Line = Mode(kind: LockType) | Holder(id: Id)

  /** What a process has done so far.  `id` is its lock id, the unique name mkstemp(3) made. */
  datatype Proc =
    | Idle
      // in bk_file_lock
    | LockOpened(kind: LockType)                              // the admin file has been created
    | LockNamed(kind: LockType, id: Id)                       // the unique name exists
    | LockLinked(kind: LockType, id: Id)                      // the lock file is a link to that name
    | LockReading(kind: LockType, id: Id)                     // the admin file is open
    | LockWriting(kind: LockType, id: Id, lines: seq<Line>)   // these lines are in the stdio buffer
    | LockLeaving(kind: LockType, id: Id)                     // and now in the file
    | LockFailing                                             // the lock is held by others, or an error
    | Held(kind: LockType, id: Id)                            // bk_file_lock has returned the lock
      // in bk_file_unlock
    | UnlockOpened(kind: LockType, id: Id)
    | UnlockNamed(kind: LockType, id: Id)
    | UnlockLinked(kind: LockType, id: Id)
    | UnlockReading(kind: LockType, id: Id)
    | UnlockRead(kind: LockType, id: Id, rest: seq<Line>)     // `rest` is to be written back
    | UnlockTruncated(rest: seq<Line>)                        // the file is empty for a moment
    | UnlockUnlinking                                         // the file is empty and to be removed
    | UnlockLeaving

  /** `lock` is the process that made the lock file, `next` the next unique name. */
  datatype State = State(admin: Option<seq<Line>>, lock: Option<Pid>, procs: seq<Proc>, next: Id)
  {
    /** The state after process `p` has moved to `q`. */
    function At(p: Pid, q: Proc): State
      requires p < |procs|
    {
      this.(procs := procs[p := q])
    }

    /** open(2) with O_CREAT leaves an existing file alone. */
    function Created(): State { if admin.None? then this.(admin := Some([])) else this }

    /** link(2) to the lock file, by process `p`. */
    function Linked(p: Pid): State { this.(lock := Some(p)) }

    /** unlink(2) of the lock file, whoever made it; nothing more is done if it fails. */
    function Unlinked(ok: bool): State { if ok then this.(lock := None) else this }

    /** Lines written at the end of the admin file, unless its name is gone. */
    function Appended(lines: seq<Line>): State
    {
      if admin.None? then this else this.(admin := Some(admin.value + lines))
    }
  }

  /** bk_file_lock's decision: the lines to add for a lock of this kind, or None if it is held. */
  function Admission(content: seq<Line>, kind: LockType, id: Id): Option<seq<Line>>
  {
    if content == [] then Some([Mode(kind), Holder(id)])
    else if content[0] == Mode(Exclusive) then None
    else if kind == Shared then Some([Holder(id)])
    else None
  }

  /** The lines that stay when holder `id` leaves. */
  function Without(content: seq<Line>, id: Id): seq<Line>
  {
    if content == [] then []
    else if content[0] == Holder(id) then Without(content[1..], id)
    else [content[0]] + Without(content[1..], id)
  }

  /**
    The next system call of process `p`; `ok` says whether it succeeds where that is up to the
    environment, and an idle process chooses the kind of lock it asks for.
  */
  function Step(s: State, p: Pid, ok: bool, kind: LockType): (t: State)
    requires p < |s.procs|
    ensures |t.procs| == |s.procs| && forall i :: 0 <= i < |s.procs| && i != p ==> t.procs[i] == s.procs[i]
  {
    match s.procs[p]
    case Idle => if ok then s.Created().At(p, LockOpened(kind)) else s
    case LockOpened(k) => if ok then s.(next := s.next + 1).At(p, LockNamed(k, s.next)) else s.At(p, Idle)
    case LockNamed(k, id) =>
      if ok && s.lock.None? then s.Linked(p).At(p, LockLinked(k, id)) else s.At(p, Idle)
    case LockLinked(k, id) =>
      if !ok then s.At(p, Idle)
      else s.At(p, if s.admin.None? then LockFailing else LockReading(k, id))
    case LockReading(k, id) =>
      if !ok || s.admin.None? then s.At(p, LockFailing)
      else
        var lines := Admission(s.admin.value, k, id);
        s.At(p, if lines.None? then LockFailing else LockWriting(k, id, lines.value))
    case LockWriting(k, id, lines) => s.Appended(lines).At(p, LockLeaving(k, id))
    case LockLeaving(k, id) => s.Unlinked(ok).At(p, Held(k, id))
    case LockFailing => s.Unlinked(ok).At(p, Idle)
    case Held(k, id) => if ok then s.Created().At(p, UnlockOpened(k, id)) else s.At(p, Idle)
    case UnlockOpened(k, id) => if ok then s.(next := s.next + 1).At(p, UnlockNamed(k, id)) else s.At(p, Idle)
    case UnlockNamed(k, id) =>
      if ok && s.lock.None? then s.Linked(p).At(p, UnlockLinked(k, id)) else s.At(p, Idle)
    case UnlockLinked(k, id) =>
      if !ok then s.At(p, Idle)
      else s.At(p, if s.admin.None? then UnlockLeaving else UnlockReading(k, id))
    case UnlockReading(k, id) =>
      if !ok || s.admin.None? then s.At(p, UnlockLeaving)
      else s.At(p, UnlockRead(k, id, Without(s.admin.value, id)))
    case UnlockRead(k, id, rest) =>
      if !ok || s.admin.None? then s.At(p, UnlockLeaving)
      else s.(admin := Some([])).At(p, if |rest| > 1 then UnlockTruncated(rest) else UnlockUnlinking)
    case UnlockTruncated(rest) => s.Appended(rest).At(p, UnlockLeaving)
    case UnlockUnlinking => s.(admin := if ok then None else s.admin).At(p, UnlockLeaving)
    case UnlockLeaving => s.Unlinked(ok).At(p, Idle)
  }

  // ----- what the protocol is for

  /** From a successful link to the call that unlinks the lock file, or to an error that skips it. */
  predicate Inside(q: Proc)
  {
    q.LockLinked? || q.LockReading? || q.LockWriting? || q.LockLeaving? || q.LockFailing? ||
    q.UnlockLinked? || q.UnlockReading? || q.UnlockRead? || q.UnlockTruncated? || q.UnlockUnlinking? ||
    q.UnlockLeaving?
  }

  /** From the moment the id is in the file to the moment the file is truncated to remove it. */
  predicate Live(q: Proc)
  {
    q.LockLeaving? || q.Held? || q.UnlockOpened? || q.UnlockNamed? || q.UnlockLinked? || q.UnlockReading? ||
    q.UnlockRead?
  }

  predicate HoldsExclusively(q: Proc) { Live(q) && q.kind == Exclusive }

  /** Has an id that is not in the file yet. */
  predicate Asking(q: Proc)
  {
    q.LockNamed? || q.LockLinked? || q.LockReading? || q.LockWriting?
  }

  /** The file has been truncated and is about to be written again. */
  predicate Rewriting(s: State)
  {
    s.lock.Some? && s.lock.value < |s.procs| && s.procs[s.lock.value].UnlockTruncated?
  }

  /** What the admin file says, or is about to say again if it is being rewritten. */
  function Record(s: State): seq<Line>
  {
    if Rewriting(s) then s.procs[s.lock.value].rest
    else if s.admin.Some? then s.admin.value
    else []
  }

  /** Empty, or a mode line and one line for each holder, of which an exclusive file has one. */
  ghost predicate WellFormed(r: seq<Line>)
  {
    r == [] ||
    ( && |r| >= 2 && r[0].Mode?
      && (r[0].kind == Exclusive ==> |r| == 2)
      && (forall i :: 1 <= i < |r| ==> r[i].Holder?)
      && (forall i, j :: 1 <= i < j < |r| ==> r[i] != r[j]))
  }

  /** What a process inside relies on. */
  ghost predicate Informed(s: State, q: Proc)
  {
    match q
    case LockReading(_, _) => s.admin.Some?
    case LockWriting(k, id, lines) => s.admin.Some? && Admission(s.admin.value, k, id) == Some(lines)
    case UnlockReading(_, _) => s.admin.Some?
    case UnlockRead(_, id, rest) => s.admin.Some? && rest == Without(s.admin.value, id)
    case UnlockTruncated(rest) => s.admin == Some([]) && |rest| > 1
    case UnlockUnlinking => s.admin == Some([])
    case _ => true
  }

  /** One process is inside at most, and the lock file is the one it made. */
  ghost predicate Exclusion(s: State)
  {
    && (s.lock.Some? ==> s.lock.value < |s.procs|)
    && forall p :: 0 <= p < |s.procs| && Inside(s.procs[p]) ==> s.lock == Some(p)
  }

  /** The id a process is using, in the file or not. */
  predicate Uses(q: Proc, id: Id)
  {
    (Live(q) || Asking(q)) && q.id == id
  }

  /** Ids are unique, and an id that is being asked for is not in the file yet. */
  ghost predicate Fresh(s: State)
  {
    && (forall p, id: Id :: 0 <= p < |s.procs| && Uses(s.procs[p], id) ==> id < s.next)
    && (forall p, q, id: Id ::
          0 <= p < |s.procs| && 0 <= q < |s.procs| && p != q && Uses(s.procs[p], id) ==> !Uses(s.procs[q], id))
    && (forall l :: l in Record(s) && l.Holder? ==> l.id < s.next)
    && (forall p :: 0 <= p < |s.procs| && Asking(s.procs[p]) ==> Holder(s.procs[p].id) !in Record(s))
  }

  /** Every live holder is in the file, under the mode it asked for. */
  ghost predicate Recorded(s: State)
  {
    forall p :: 0 <= p < |s.procs| && Live(s.procs[p]) ==>
      Holder(s.procs[p].id) in Record(s) && Record(s)[0] == Mode(s.procs[p].kind)
  }

  ghost predicate Inv(s: State)
  {
    && Exclusion(s) && Fresh(s) && Recorded(s) && WellFormed(Record(s))
    && forall p :: 0 <= p < |s.procs| ==> Informed(s, s.procs[p])
  }

  // ----- every step keeps the invariant

  lemma {:induction false} WithoutKeeps(r: seq<Line>, id: Id)
    ensures forall l :: l in Without(r, id) <==> l in r && l != Holder(id)
    ensures r != [] && r[0].Mode? ==> Without(r, id) != [] && Without(r, id)[0] == r[0]
  {
    if r != [] {
      WithoutKeeps(r[1..], id);
      forall l ensures l in r <==> l == r[0] || l in r[1..] {
        assert r == [r[0]] + r[1..];
      }
    }
  }

  /** With no line twice, removing a holder keeps a file well formed unless it was the last. */
  lemma {:induction false} WithoutOrdered(r: seq<Line>, id: Id)
    requires forall i, j :: 0 <= i < j < |r| ==> r[i] != r[j]
    ensures var w := Without(r, id);
      && (forall i, j :: 0 <= i < j < |w| ==> w[i] != w[j])
      && |w| == |r| - if Holder(id) in r then 1 else 0
  {
    if r != [] {
      WithoutOrdered(r[1..], id);
      WithoutKeeps(r[1..], id);
      assert r == [r[0]] + r[1..] && r[0] !in r[1..];
      var w := Without(r[1..], id);
      forall j | 0 <= j < |w| ensures w[j] != r[0] {
        assert w[j] in w;
      }
    }
  }

  /** Whether a step is about the contents of the admin file. */
  predicate Rewrites(q: Proc) { q.LockWriting? || q.UnlockRead? || q.UnlockTruncated? || q.UnlockUnlinking? }

  lemma RecordKept(s: State, p: Pid, ok: bool, kind: LockType)
    requires p < |s.procs| && Exclusion(s) && !Rewrites(s.procs[p])
    ensures Record(Step(s, p, ok, kind)) == Record(s)
  {
    hide Without, Admission;
    assert Inside(s.procs[p]) ==> s.lock == Some(p);
  }

  lemma RecordRewritten(s: State, p: Pid, ok: bool, kind: LockType)
    requires p < |s.procs| && Exclusion(s) && Rewrites(s.procs[p]) && Informed(s, s.procs[p])
    ensures var q, r := s.procs[p], Record(Step(s, p, ok, kind));
      r == if q.LockWriting? then Record(s) + q.lines
           else if q.UnlockRead? && ok then if |q.rest| > 1 then q.rest else []
           else Record(s)
  {
    hide Without, Admission;
    assert s.lock == Some(p);
  }

  /** How a step changes what the file says. */
  lemma RecordAfter(s: State, p: Pid, ok: bool, kind: LockType)
    requires p < |s.procs| && Inv(s)
    ensures var q, r := s.procs[p], Record(Step(s, p, ok, kind));
      r == if q.LockWriting? then Record(s) + q.lines
           else if q.UnlockRead? && ok then if |q.rest| > 1 then q.rest else []
           else Record(s)
  {
    hide Step, Record, Exclusion, Fresh, Recorded, WellFormed, Informed;
    if Rewrites(s.procs[p]) {
      RecordRewritten(s, p, ok, kind);
    } else {
      RecordKept(s, p, ok, kind);
    }
  }

  /** How a step changes the process that takes it: one that is asking, and one that is live. */
  lemma Asks(s: State, p: Pid, ok: bool, kind: LockType)
    requires p < |s.procs|
    ensures var t := Step(s, p, ok, kind); var q, u := s.procs[p], t.procs[p];
      Asking(u) ==>
        if q.LockOpened? then u.id == s.next && t.next == s.next + 1
        else Asking(q) && u.id == q.id && !q.LockWriting?
  {
    hide Without, Admission;
  }

  lemma Lives(s: State, p: Pid, ok: bool, kind: LockType)
    requires p < |s.procs|
    ensures var t := Step(s, p, ok, kind); var q, u := s.procs[p], t.procs[p];
      && (Live(u) ==> (Live(q) || q.LockWriting?) && u.id == q.id && u.kind == q.kind)
      && (q.UnlockRead? && ok && s.admin.Some? ==> !Live(u))
      && s.next <= t.next
  {
    hide Without, Admission;
  }

  lemma Moves(s: State, p: Pid, ok: bool, kind: LockType)
    requires p < |s.procs|
    ensures var t := Step(s, p, ok, kind); var q, u := s.procs[p], t.procs[p];
      && (Asking(u) ==>
            if q.LockOpened? then u.id == s.next && t.next == s.next + 1
            else Asking(q) && u.id == q.id && !q.LockWriting?)
      && (Live(u) ==> (Live(q) || q.LockWriting?) && u.id == q.id && u.kind == q.kind)
      && (q.UnlockRead? && ok && s.admin.Some? ==> !Live(u))
      && s.next <= t.next
  {
    hide Step, Asking, Live;
    Asks(s, p, ok, kind);
    Lives(s, p, ok, kind);
  }

  lemma LockMoves(s: State, p: Pid, ok: bool, kind: LockType)
    requires p < |s.procs|
    ensures var t := Step(s, p, ok, kind); var q, u := s.procs[p], t.procs[p];
      || (t.lock == s.lock && (Inside(u) ==> Inside(q)))
      || (t.lock == Some(p) && s.lock == None && Inside(u))
      || (t.lock == None && Inside(q) && !Inside(u))
    ensures var t := Step(s, p, ok, kind); var q, u := s.procs[p], t.procs[p];
      Inside(q) ==> t.lock == if !Inside(u) && ok then None else s.lock
  {
    hide Without, Admission;
  }

  lemma ExclusionKept(s: State, p: Pid, ok: bool, kind: LockType)
    requires p < |s.procs| && Exclusion(s)
    ensures Exclusion(Step(s, p, ok, kind))
  {
    hide Step, Inside;
    LockMoves(s, p, ok, kind);
  }

  lemma AdmittedWellFormed(r: seq<Line>, kind: LockType, id: Id)
    requires WellFormed(r) && Holder(id) !in r && Admission(r, kind, id).Some?
    ensures WellFormed(r + Admission(r, kind, id).value)
  {
  }

  lemma RestWellFormed(r: seq<Line>, id: Id)
    requires WellFormed(r) && |Without(r, id)| > 1
    ensures WellFormed(Without(r, id))
  {
    hide Without;
    var w := Without(r, id);
    WithoutOrdered(r, id);
    WithoutKeeps(r, id);
    forall i | 1 <= i < |w| ensures w[i].Holder? {
      assert w[i] in r && w[i] != w[0];
    }
  }

  lemma WellFormedKept(s: State, p: Pid, ok: bool, kind: LockType)
    requires p < |s.procs| && Inv(s)
    ensures WellFormed(Record(Step(s, p, ok, kind)))
  {
    hide Step, Admission, Without;
    var q, r := s.procs[p], Record(s);
    RecordAfter(s, p, ok, kind);
    assert Informed(s, q);
    if q.LockWriting? {
      assert s.admin == Some(r);
      AdmittedWellFormed(r, q.kind, q.id);
    } else if q.UnlockRead? && ok && |q.rest| > 1 {
      assert s.admin == Some(r);
      RestWellFormed(r, q.id);
    }
  }

  /** The lines a step adds to the record, and the process whose holder line it removes. */
  lemma RecordMoves(s: State, p: Pid, ok: bool, kind: LockType)
    requires p < |s.procs| && Inv(s)
    ensures var q, r, r' := s.procs[p], Record(s), Record(Step(s, p, ok, kind));
      && (forall l :: l in r' ==> l in r || (q.LockWriting? && (l == Holder(q.id) || l == Mode(q.kind))))
      && (forall l :: l in r && l.Holder? && !(q.UnlockRead? && ok && l.id == q.id) ==> l in r')
      && (q.LockWriting? ==> Holder(q.id) in r' && r'[0] == Mode(q.kind))
      && (forall l :: l in r' && l.Holder? && l in r ==> r'[0] == r[0])
  {
    hide Step;
    var q, r := s.procs[p], Record(s);
    RecordAfter(s, p, ok, kind);
    assert Informed(s, q);
    if q.LockWriting? {
      assert s.admin == Some(r);
    } else if q.UnlockRead? && ok {
      WithoutKeeps(r, q.id);
      assert s.admin == Some(r);
      hide Without;
      forall l | l in r && l.Holder? && l.id != q.id ensures |q.rest| > 1 {
        assert l in q.rest && l != q.rest[0];
      }
    }
  }

  lemma FreshKept(s: State, p: Pid, ok: bool, kind: LockType)
    requires p < |s.procs| && Inv(s)
    ensures Fresh(Step(s, p, ok, kind))
  {
    hide Step, Record, WellFormed, Informed;
    Moves(s, p, ok, kind);
    RecordMoves(s, p, ok, kind);
    var q, t := s.procs[p], Step(s, p, ok, kind);
    assert Live(q) || Asking(q) ==> Uses(q, q.id);
    forall i, id: Id | 0 <= i < |t.procs| && Uses(t.procs[i], id)
      ensures id < t.next && (i != p ==> Uses(s.procs[i], id))
      ensures i == p ==> Uses(q, id) || (q.LockOpened? && id == s.next)
    {
    }
    forall l | l in Record(t) && l.Holder? ensures l.id < t.next {
    }
    forall i | 0 <= i < |t.procs| && Asking(t.procs[i]) ensures Holder(t.procs[i].id) !in Record(t) {
      assert Uses(t.procs[i], t.procs[i].id);
      if i != p {
        assert Uses(s.procs[i], s.procs[i].id);
      }
    }
  }

  lemma RecordedKept(s: State, p: Pid, ok: bool, kind: LockType)
    requires p < |s.procs| && Inv(s)
    ensures Recorded(Step(s, p, ok, kind))
  {
    hide Step, Record, WellFormed;
    Moves(s, p, ok, kind);
    RecordMoves(s, p, ok, kind);
    assert Informed(s, s.procs[p]);
    var q, t := s.procs[p], Step(s, p, ok, kind);
    assert Live(q) ==> Uses(q, q.id);
    forall i | 0 <= i < |t.procs| && Live(t.procs[i])
      ensures Holder(t.procs[i].id) in Record(t) && Record(t)[0] == Mode(t.procs[i].kind)
    {
      assert i != p ==> Uses(s.procs[i], s.procs[i].id);
    }
  }

  lemma InformedKept(s: State, p: Pid, ok: bool, kind: LockType)
    requires p < |s.procs| && Inv(s)
    ensures var t := Step(s, p, ok, kind); forall i :: 0 <= i < |t.procs| ==> Informed(t, t.procs[i])
  {
    hide Without, Admission;
    assert Informed(s, s.procs[p]);
  }

  lemma InvKept(s: State, p: Pid, ok: bool, kind: LockType)
    requires p < |s.procs| && Inv(s)
    ensures Inv(Step(s, p, ok, kind))
  {
    hide Step, Exclusion, Fresh, Recorded, WellFormed, Informed, Record;
    ExclusionKept(s, p, ok, kind);
    WellFormedKept(s, p, ok, kind);
    FreshKept(s, p, ok, kind);
    RecordedKept(s, p, ok, kind);
    InformedKept(s, p, ok, kind);
  }

  // ----- whole runs

  datatype Choice = Choice(p: Pid, ok: bool, kind: LockType)

  /** `n` idle processes and no files. */
  function Init(n: nat): State
  {
    State(None, None, seq(n, _ => Idle), 0)
  }

  /** The state after a run; a choice of a process that does not exist changes nothing. */
  function Run(s: State, run: seq<Choice>): State
    decreases |run|
  {
    if run == [] then s
    else
      var c, before := run[|run| - 1], Run(s, run[..|run| - 1]);
      if c.p < |before.procs| then Step(before, c.p, c.ok, c.kind) else before
  }

  lemma {:induction false} RunKeepsInv(s: State, run: seq<Choice>)
    requires Inv(s)
    ensures Inv(Run(s, run))
    decreases |run|
  {
    hide Inv, Step;
    if run != [] {
      RunKeepsInv(s, run[..|run| - 1]);
      var c, before := run[|run| - 1], Run(s, run[..|run| - 1]);
      if c.p < |before.procs| {
        InvKept(before, c.p, c.ok, c.kind);
      }
    }
  }

  lemma EmptyIsInv(n: nat)
    ensures Inv(Init(n))
  {
  }

  /** A live holder's line is in the file itself exactly when the file is not being rewritten. */
  lemma LiveInFile(s: State, p: Pid)
    requires p < |s.procs| && Inv(s) && Live(s.procs[p])
    ensures s.admin.Some? && (Holder(s.procs[p].id) in s.admin.value <==> !Rewriting(s))
  {
    hide Fresh, WellFormed, Exclusion;
    if Rewriting(s) {
      assert Informed(s, s.procs[s.lock.value]);
    }
  }

  /**
    Mutual exclusion.  In every state of every run of any number of processes, at most one
    process is between its link and its unlink of the lock file, every live holder's line is in
    the file exactly unless the file is being rewritten at that moment, in which case the process
    that rewrites it holds the line, and a live exclusive holder is the only live holder.
  */
  lemma LockIsSafe(n: nat, run: seq<Choice>)
    ensures var s := Run(Init(n), run);
      && (forall p, q :: 0 <= p < q < |s.procs| ==> !(Inside(s.procs[p]) && Inside(s.procs[q])))
      && (forall p :: 0 <= p < |s.procs| && Live(s.procs[p]) ==>
            s.admin.Some? && (Holder(s.procs[p].id) in s.admin.value <==> !Rewriting(s)))
      && (forall p :: 0 <= p < |s.procs| && Live(s.procs[p]) && Rewriting(s) ==>
            Holder(s.procs[p].id) in s.procs[s.lock.value].rest)
      && (forall p, q :: 0 <= p < |s.procs| && 0 <= q < |s.procs| && p != q && HoldsExclusively(s.procs[p])
            ==> !Live(s.procs[q]))
  {
    hide Run;
    EmptyIsInv(n);
    RunKeepsInv(Init(n), run);
    var s := Run(Init(n), run);
    forall p | 0 <= p < |s.procs| && Live(s.procs[p])
      ensures s.admin.Some? && (Holder(s.procs[p].id) in s.admin.value <==> !Rewriting(s))
    {
      LiveInFile(s, p);
    }
    forall p, q | 0 <= p < |s.procs| && 0 <= q < |s.procs| && p != q && HoldsExclusively(s.procs[p])
      ensures !Live(s.procs[q])
    {
      LiveUses(s.procs[p]);
      LiveUses(s.procs[q]);
    }
  }

  lemma LiveUses(q: Proc)
    ensures Live(q) ==> Uses(q, q.id)
  {
  }

  // ----- what an unlock that meets contention leaves behind

  /** The file names a holder that no process has any more. */
  ghost predicate Orphan(s: State, id: Id)
  {
    Holder(id) in Record(s) && forall p :: 0 <= p < |s.procs| ==> !Uses(s.procs[p], id)
  }

  lemma OrphanStays(s: State, p: Pid, ok: bool, kind: LockType, id: Id)
    requires p < |s.procs| && Inv(s) && Orphan(s, id)
    ensures Orphan(Step(s, p, ok, kind), id)
    ensures Record(Step(s, p, ok, kind))[0] == Record(s)[0]
  {
    hide Step, Record, WellFormed, Informed;
    Moves(s, p, ok, kind);
    RecordMoves(s, p, ok, kind);
    var q := s.procs[p];
    assert Live(q) || Asking(q) ==> Uses(q, q.id);
  }

  lemma {:induction false} OrphanStaysForever(s: State, run: seq<Choice>, id: Id)
    requires Inv(s) && Orphan(s, id)
    ensures Inv(Run(s, run)) && Orphan(Run(s, run), id) && Record(Run(s, run))[0] == Record(s)[0]
    decreases |run|
  {
    hide Inv, Step, Record, Orphan;
    OrphanInRecord(s, id);
    if run != [] {
      var c, before := run[|run| - 1], Run(s, run[..|run| - 1]);
      OrphanStaysForever(s, run[..|run| - 1], id);
      OrphanInRecord(before, id);
      if c.p < |before.procs| {
        InvKept(before, c.p, c.ok, c.kind);
        OrphanStays(before, c.p, c.ok, c.kind, id);
        OrphanInRecord(Run(s, run), id);
      }
    }
  }

  lemma OrphanInRecord(s: State, id: Id)
    requires Orphan(s, id)
    ensures Record(s) != []
  {
  }

  /** An orphaned exclusive line locks the resource for good: nobody ever holds it again. */
  lemma OrphanedExclusiveIsPermanent(s: State, run: seq<Choice>, id: Id)
    requires Inv(s) && Orphan(s, id) && Record(s)[0] == Mode(Exclusive)
    ensures var t := Run(s, run); forall p :: 0 <= p < |t.procs| ==> !Live(t.procs[p])
  {
    hide Run, Step;
    OrphanStaysForever(s, run, id);
    var t := Run(s, run);
    forall p | 0 <= p < |t.procs| ensures !Live(t.procs[p]) {
      LiveUses(t.procs[p]);
    }
  }

  /**
    Any step of a live holder orphans its line exactly if it ends the hold without truncating the
    file: a contended or failed link, and every other failure on the way to the truncation.
  */
  lemma ReleaseStep(s: State, p: Pid, ok: bool, kind: LockType)
    requires p < |s.procs| && Inv(s) && Live(s.procs[p])
    ensures var q, t := s.procs[p], Step(s, p, ok, kind);
      && (Orphan(t, q.id) <==> !Live(t.procs[p]) && !(q.UnlockRead? && ok))
      && (q.UnlockRead? && ok ==> Gone(t, q.id))
  {
    hide WellFormed, Without, Admission;
    var q, t := s.procs[p], Step(s, p, ok, kind);
    assert Uses(q, q.id) && Informed(s, q);
    RecordAfter(s, p, ok, kind);
    LiveUses(t.procs[p]);
    if q.UnlockRead? {
      WithoutKeeps(Record(s), q.id);
    }
  }

  /** The id has been used, and is neither in the file nor in use any more. */
  ghost predicate Gone(s: State, id: Id)
  {
    id < s.next && Holder(id) !in Record(s) && forall p :: 0 <= p < |s.procs| ==> !Uses(s.procs[p], id)
  }

  lemma GoneStays(s: State, p: Pid, ok: bool, kind: LockType, id: Id)
    requires p < |s.procs| && Inv(s) && Gone(s, id)
    ensures Gone(Step(s, p, ok, kind), id)
  {
    hide Step, Record, WellFormed, Informed, Recorded;
    Moves(s, p, ok, kind);
    RecordMoves(s, p, ok, kind);
    var q := s.procs[p];
    assert Live(q) || Asking(q) ==> Uses(q, q.id);
  }

  // ----- what a failing unlink leaves behind

  /** The lock file is there, and nobody is going to remove it. */
  ghost predicate LeftBehind(s: State)
  {
    s.lock.Some? && forall p :: 0 <= p < |s.procs| ==> !Inside(s.procs[p])
  }

  /** The lock file is left behind exactly by a call that fails between link(2) and unlink(2) or at the unlink. */
  lemma LeftBehindExactly(s: State, p: Pid, ok: bool, kind: LockType)
    requires p < |s.procs| && Inv(s)
    ensures var t := Step(s, p, ok, kind);
      LeftBehind(t) <==> LeftBehind(s) || (Inside(s.procs[p]) && !Inside(t.procs[p]) && !ok)
  {
    hide Step, Inside, Fresh, Recorded, WellFormed, Informed, Record;
    var t := Step(s, p, ok, kind);
    LockMoves(s, p, ok, kind);
    OthersInside(s, p, ok, kind);
  }

  lemma OthersInside(s: State, p: Pid, ok: bool, kind: LockType)
    requires p < |s.procs| && Exclusion(s)
    ensures var t := Step(s, p, ok, kind);
      (forall i :: 0 <= i < |t.procs| ==> !Inside(t.procs[i])) <==>
      !Inside(t.procs[p]) && (Inside(s.procs[p]) || forall i :: 0 <= i < |s.procs| ==> !Inside(s.procs[i]))
  {
    hide Step, Inside;
    var t := Step(s, p, ok, kind);
    LockMoves(s, p, ok, kind);
    if Inside(t.procs[p]) || Inside(s.procs[p]) {
      return;
    }
    forall i | 0 <= i < |s.procs| ensures Inside(t.procs[i]) == Inside(s.procs[i]) {
    }
  }

  /** What a step does that neither enters nor leaves. */
  lemma StepOutside(s: State, p: Pid, ok: bool, kind: LockType)
    requires p < |s.procs| && Inv(s) && LeftBehind(s)
    ensures var q, t := s.procs[p], Step(s, p, ok, kind); var u := t.procs[p];
      && t.lock == s.lock && Record(t) == Record(s) && !Inside(u)
      && (Live(u) ==> Live(q) && u.id == q.id && u.kind == q.kind)
      && (Live(q) && !Live(u) ==> Orphan(t, q.id))
  {
    hide Step, Fresh, Recorded, WellFormed, Informed, Orphan;
    Moves(s, p, ok, kind);
    RecordAfter(s, p, ok, kind);
    LeftBehindExactly(s, p, ok, kind);
    LockMoves(s, p, ok, kind);
    if Live(s.procs[p]) {
      ReleaseStep(s, p, ok, kind);
    }
  }

  /**
    Once it is, it stays, over any run: nobody gets inside, so nobody ever gets the lock, the record
    stays as it is, and each holder that gives its handle up only orphans its line.
  */
  lemma {:induction false} LeftBehindForGood(s: State, run: seq<Choice>)
    requires Inv(s) && LeftBehind(s)
    ensures var t := Run(s, run);
      && Inv(t) && LeftBehind(t) && t.lock == s.lock && Record(t) == Record(s) && |t.procs| == |s.procs|
      && forall p :: 0 <= p < |t.procs| ==>
           if Live(t.procs[p]) then Live(s.procs[p]) && t.procs[p].id == s.procs[p].id
           else Live(s.procs[p]) ==> Orphan(t, s.procs[p].id)
    decreases |run|
  {
    hide Inv, Step, Record, Orphan, LeftBehind;
    if run != [] {
      var c, before := run[|run| - 1], Run(s, run[..|run| - 1]);
      LeftBehindForGood(s, run[..|run| - 1]);
      if c.p < |before.procs| {
        InvKept(before, c.p, c.ok, c.kind);
        StepOutside(before, c.p, c.ok, c.kind);
        LeftBehindExactly(before, c.p, c.ok, c.kind);
        var t := Step(before, c.p, c.ok, c.kind);
        assert forall i :: 0 <= i < |s.procs| && i != c.p ==> t.procs[i] == before.procs[i];
        forall id: Id | Orphan(before, id) ensures Orphan(t, id) {
          OrphanStays(before, c.p, c.ok, c.kind, id);
        }
      }
    }
  }

  // ----- one whole unlock among the steps of the others

  predicate BeforeLink(q: Proc, id: Id) { (q.Held? || q.UnlockOpened? || q.UnlockNamed?) && q.id == id }

  predicate WithLock(q: Proc, id: Id) { (q.UnlockLinked? || q.UnlockReading? || q.UnlockRead?) && q.id == id }

  predicate Finishing(q: Proc) { q.UnlockTruncated? || q.UnlockUnlinking? || q.UnlockLeaving? || q.Idle? }

  /** From a held lock to the end of one unlock, in which none of its own calls fails, but for a contended link. */
  ghost predicate OneUnlock(s: State, p: Pid, run: seq<Choice>)
  {
    && Inv(s) && p < |s.procs| && s.procs[p].Held?
    && (forall c :: c in run && c.p == p ==> c.ok)
    && (forall n :: 0 <= n < |run| ==> !ProcAt(s, p, run, n).Idle?) && ProcAt(s, p, run, |run|).Idle?
  }

  /** The process after the first `n` choices. */
  ghost function ProcAt(s: State, p: Pid, run: seq<Choice>, n: nat): Proc
    requires p < |s.procs| && n <= |run|
  {
    RunKeepsProcs(s, run[..n]);
    Run(s, run[..n]).procs[p]
  }

  lemma {:induction false} RunKeepsProcs(s: State, run: seq<Choice>)
    ensures |Run(s, run).procs| == |s.procs|
    decreases |run|
  {
    hide Step;
    if run != [] {
      RunKeepsProcs(s, run[..|run| - 1]);
    }
  }

  /** The choice at which the process calls link(2). */
  ghost predicate LinkStep(s: State, p: Pid, run: seq<Choice>, n: nat)
    requires p < |s.procs|
  {
    n < |run| && run[n].p == p && ProcAt(s, p, run, n).UnlockNamed?
  }

  /** How far the unlock has come after `n` choices. */
  ghost predicate Stage(s: State, p: Pid, run: seq<Choice>, n: nat, id: Id)
    requires p < |s.procs| && n <= |run|
  {
    var t, q := Run(s, run[..n]), ProcAt(s, p, run, n);
    if forall k: nat :: k < n ==> !LinkStep(s, p, run, k) then BeforeLink(q, id)
    else
      && (forall k: nat :: k < n && LinkStep(s, p, run, k) ==>
            if Run(s, run[..k]).lock.None? then WithLock(q, id) || (Finishing(q) && Gone(t, id))
            else q.Idle? && Orphan(t, id))
  }

  /** What one own step does to the stage. */
  lemma OwnStep(s: State, p: Pid, kind: LockType, id: Id)
    requires p < |s.procs| && Inv(s)
    ensures var q, t := s.procs[p], Step(s, p, true, kind); var u := t.procs[p];
      && (BeforeLink(q, id) && !q.UnlockNamed? ==> BeforeLink(u, id))
      && (BeforeLink(q, id) && q.UnlockNamed? ==> if s.lock.None? then WithLock(u, id) else u.Idle? && Orphan(t, id))
      && (WithLock(q, id) ==> WithLock(u, id) || (Finishing(u) && Gone(t, id)))
      && (Finishing(q) && !q.Idle? ==> Finishing(u))
  {
    hide WellFormed, Without, Admission, Fresh, Exclusion;
    var q, t := s.procs[p], Step(s, p, true, kind);
    assert Informed(s, q);
    assert Inside(q) ==> s.lock == Some(p) by { assert Exclusion(s); InsideOwns(s, p); }
    if Live(q) && !Live(t.procs[p]) {
      ReleaseStep(s, p, true, kind);
    }
  }

  lemma InsideOwns(s: State, p: Pid)
    requires p < |s.procs| && Exclusion(s)
    ensures Inside(s.procs[p]) ==> s.lock == Some(p)
  {
  }

  /** One choice of the run, on its own. */
  lemma NextChoice(s: State, p: Pid, run: seq<Choice>, n: nat)
    requires p < |s.procs| && n < |run| && Inv(s)
    ensures var c, t, u := run[n], Run(s, run[..n]), Run(s, run[..n + 1]);
      && |t.procs| == |u.procs| == |s.procs| && Inv(t)
      && u == (if c.p < |s.procs| then Step(t, c.p, c.ok, c.kind) else t)
      && ProcAt(s, p, run, n) == t.procs[p] && ProcAt(s, p, run, n + 1) == u.procs[p]
      && (c.p != p ==> u.procs[p] == t.procs[p])
  {
    hide Inv;
    RunKeepsProcs(s, run[..n]);
    RunKeepsInv(s, run[..n]);
    assert run[..n + 1][..n] == run[..n] && run[..n + 1][n] == run[n];
  }

  lemma {:induction false} StageReached(s: State, p: Pid, run: seq<Choice>, n: nat)
    requires n <= |run| && OneUnlock(s, p, run)
    ensures Stage(s, p, run, n, s.procs[p].id)
  {
    hide Run, ProcAt, Step, Inv, Gone, Orphan, Live, BeforeLink, WithLock, Finishing;
    var id := s.procs[p].id;
    if n == 0 {
      StageAtStart(s, p, run);
    } else {
      StageReached(s, p, run, n - 1);
      NextChoice(s, p, run, n - 1);
      var c, t := run[n - 1], Run(s, run[..n - 1]);
      var q := t.procs[p];
      StagesApart(q, id);
      assert LinkStep(s, p, run, n - 1) <==> c.p == p && q.UnlockNamed?;
      assert !q.Idle?;
      if c.p == p {
        assert c in run;
        OwnStep(t, p, c.kind, id);
        StagesApart(Step(t, p, true, c.kind).procs[p], id);
      }
      if c.p < |s.procs| {
        if Gone(t, id) {
          GoneStays(t, c.p, c.ok, c.kind, id);
        }
      }
    }
  }

  lemma StageAtStart(s: State, p: Pid, run: seq<Choice>)
    requires p < |s.procs| && s.procs[p].Held?
    ensures Stage(s, p, run, 0, s.procs[p].id)
  {
    assert run[..0] == [] && Run(s, run[..0]) == s;
  }

  lemma StagesApart(q: Proc, id: Id)
    ensures BeforeLink(q, id) ==> !WithLock(q, id) && !Finishing(q)
    ensures WithLock(q, id) ==> !q.UnlockNamed? && !Finishing(q)
    ensures Finishing(q) ==> !q.UnlockNamed?
    ensures q.Idle? ==> Finishing(q)
  {
  }

  /**
    Releasing a lock.  Among any steps of any other processes, an unlock whose own calls do not
    fail calls link(2), and takes its line out of the file exactly if the lock file is free at that
    moment; otherwise nobody will ever take the line out again.
  */
  lemma ReleaseExactly(s: State, p: Pid, run: seq<Choice>)
    requires OneUnlock(s, p, run)
    ensures exists n: nat :: LinkStep(s, p, run, n)
    ensures var id, t := s.procs[p].id, Run(s, run);
      forall n: nat :: LinkStep(s, p, run, n) ==>
        (Run(s, run[..n]).lock.None? <==> Holder(id) !in Record(t)) && (Run(s, run[..n]).lock.Some? <==> Orphan(t, id))
  {
    hide Run, ProcAt, Step, Inv, Record, BeforeLink, WithLock;
    var id := s.procs[p].id;
    StageReached(s, p, run, |run|);
    assert run[..|run|] == run;
    StagesApart(ProcAt(s, p, run, |run|), id);
  }

  // ----- one whole attempt at the lock among the steps of the others

  predicate Done(q: Proc) { q.Idle? || q.Held? }

  /** From idle to the end of one bk_file_lock, in which none of its own calls fails, but for a contended link. */
  ghost predicate OneAttempt(s: State, p: Pid, kind: LockType, run: seq<Choice>)
  {
    && Inv(s) && p < |s.procs| && s.procs[p].Idle?
    && run != [] && run[0].p == p && run[0].kind == kind && (forall c :: c in run && c.p == p ==> c.ok)
    && (forall n :: 0 < n < |run| ==> !Done(ProcAt(s, p, run, n))) && Done(ProcAt(s, p, run, |run|))
  }

  /** The choice at which it calls link(2). */
  ghost predicate Links(s: State, p: Pid, run: seq<Choice>, n: nat)
    requires p < |s.procs|
  {
    n < |run| && run[n].p == p && ProcAt(s, p, run, n).LockNamed?
  }

  /** The choice at which it opens the admin file, with the lock file in its hands. */
  ghost predicate Opens(s: State, p: Pid, run: seq<Choice>, n: nat)
    requires p < |s.procs|
  {
    n < |run| && run[n].p == p && ProcAt(s, p, run, n).LockLinked?
  }

  ghost predicate OnlyOpens(s: State, p: Pid, run: seq<Choice>, n: nat)
    requires p < |s.procs|
  {
    Opens(s, p, run, n) && forall j: nat :: Opens(s, p, run, j) ==> j == n
  }

  /** What links at `k` and opens at `m` gets the lock exactly if the file is there and its record admits it. */
  ghost predicate Settled(s: State, p: Pid, kind: LockType, run: seq<Choice>, k: nat, m: nat)
    requires p < |s.procs| && Links(s, p, run, k) && m <= |run|
  {
    var id, q, t := ProcAt(s, p, run, k).id, ProcAt(s, p, run, |run|), Run(s, run);
    if Run(s, run[..m]).admin.Some? && Admits(Record(Run(s, run[..k])), kind)
    then q == Held(kind, id) && Holder(id) in Record(t)
    else q.Idle? && Gone(t, id)
  }

  predicate BeforeLock(q: Proc, kind: LockType) { (q.LockOpened? || q.LockNamed?) && q.kind == kind }

  /** With the lock file and the admin file open, reading `r`. */
  ghost predicate Deciding(s: State, q: Proc, kind: LockType, id: Id, r: seq<Line>)
  {
    match q
    case LockReading(k, i) => k == kind && i == id && s.admin == Some(r)
    case LockWriting(k, i, _) => k == kind && i == id && Admits(r, kind)
    case LockLeaving(k, i) => k == kind && i == id && Admits(r, kind)
    case Held(k, i) => k == kind && i == id && Admits(r, kind)
    case LockFailing => !Admits(r, kind) && Gone(s, id)
    case Idle => !Admits(r, kind) && Gone(s, id)
    case _ => false
  }

  /** A process that drops its id without having written it leaves nothing of it. */
  lemma GivesUp(s: State, p: Pid, ok: bool, kind: LockType)
    requires p < |s.procs| && Inv(s) && Asking(s.procs[p])
    requires var u := Step(s, p, ok, kind).procs[p]; !Live(u) && !Asking(u)
    ensures Gone(Step(s, p, ok, kind), s.procs[p].id)
  {
    hide Step, Record, WellFormed, Informed, Recorded;
    Moves(s, p, ok, kind);
    RecordMoves(s, p, ok, kind);
    NotWriting(s, p, ok, kind);
    var q := s.procs[p];
    assert Uses(q, q.id);
  }

  lemma NotWriting(s: State, p: Pid, ok: bool, kind: LockType)
    requires p < |s.procs|
    ensures s.procs[p].LockWriting? ==> Live(Step(s, p, ok, kind).procs[p])
  {
  }

  /** One own step on the way to the link, and the link. */
  lemma StepToLink(s: State, p: Pid, kind: LockType, other: LockType)
    requires p < |s.procs| && Inv(s) && BeforeLock(s.procs[p], kind)
    ensures var q, t := s.procs[p], Step(s, p, true, other); var u := t.procs[p];
      if q.LockOpened? then BeforeLock(u, kind)
      else if s.lock.Some? then u.Idle? && Gone(t, q.id)
      else u == LockLinked(kind, q.id) && Record(t) == Record(s)
  {
    hide Without, Admission, Fresh, Recorded, WellFormed, Gone;
    var q, t := s.procs[p], Step(s, p, true, other);
    if q.LockNamed? && s.lock.Some? {
      GivesUp(s, p, true, other);
    }
    if q.LockNamed? && s.lock.None? {
      RecordAfter(s, p, true, other);
    }
  }

  /** The open: what is read from then on is the record. */
  lemma StepOpens(s: State, p: Pid, other: LockType)
    requires p < |s.procs| && Inv(s) && s.procs[p].LockLinked?
    ensures var q, t := s.procs[p], Step(s, p, true, other); var u := t.procs[p];
      if s.admin.Some? then u == LockReading(q.kind, q.id) && t.admin == Some(Record(s))
      else u.LockFailing? && Gone(t, q.id)
  {
    hide Without, Admission, Fresh, Recorded, WellFormed, Gone;
    var q := s.procs[p];
    assert Inside(q);
    if s.admin.None? {
      GivesUp(s, p, true, other);
    }
  }

  /** One own step with the admin file open. */
  lemma StepDecides(s: State, p: Pid, kind: LockType, id: Id, r: seq<Line>, other: LockType)
    requires p < |s.procs| && Inv(s) && Deciding(s, s.procs[p], kind, id, r) && !Done(s.procs[p]) && WellFormed(r)
    ensures var t := Step(s, p, true, other); Deciding(t, t.procs[p], kind, id, r)
  {
    hide Without, Admission, Fresh, Recorded, WellFormed, Gone;
    var q, t := s.procs[p], Step(s, p, true, other);
    AdmissionIs(r, kind, id);
    if q.LockReading? && !Admits(r, kind) {
      GivesUp(s, p, true, other);
    }
    if q.LockFailing? {
      GoneStays(s, p, true, other, id);
    }
  }

  /** What another process does not change for one that is inside. */
  lemma OthersKeep(s: State, p: Pid, o: Pid, ok: bool, other: LockType)
    requires p < |s.procs| && o < |s.procs| && o != p && Inv(s) && Inside(s.procs[p])
    ensures var t := Step(s, o, ok, other);
      && Record(t) == Record(s) && (s.admin.Some? ==> t.admin == s.admin) && t.procs[p] == s.procs[p]
  {
    hide Without, Admission, Fresh, Recorded, WellFormed;
    assert Exclusion(s);
    assert !Inside(s.procs[o]);
    RecordKept(s, o, ok, other);
  }

  /** The way to the link: it is called once, and nothing is opened before. */
  lemma FindLink(s: State, p: Pid, kind: LockType, run: seq<Choice>) returns (k: nat)
    requires OneAttempt(s, p, kind, run)
    ensures Links(s, p, run, k) && ProcAt(s, p, run, k).kind == kind
    ensures forall j: nat :: j <= k ==> !Opens(s, p, run, j) && (j < k ==> !Links(s, p, run, j))
  {
    hide Run, ProcAt, Step, Inv, Gone, Record;
    FirstChoice(s, p, kind, run);
    k := 1;
    while !Links(s, p, run, k)
      invariant 1 <= k <= |run| && BeforeLock(ProcAt(s, p, run, k), kind)
      invariant forall j: nat :: j < k ==> !Opens(s, p, run, j) && !Links(s, p, run, j)
      decreases |run| - k
    {
      NextChoice(s, p, run, k);
      var c, t := run[k], Run(s, run[..k]);
      if c.p == p {
        assert c in run;
        StepToLink(t, p, kind, c.kind);
      }
      k := k + 1;
    }
  }

  lemma FirstChoice(s: State, p: Pid, kind: LockType, run: seq<Choice>)
    requires OneAttempt(s, p, kind, run)
    ensures BeforeLock(ProcAt(s, p, run, 1), kind) && ProcAt(s, p, run, 0).Idle?
  {
    NextChoice(s, p, run, 0);
    assert run[..0] == [] && Run(s, run[..0]) == s;
    assert run[0] in run;
  }

  /** From a link that got the lock file to the open: the record stays as it was at the link. */
  lemma FindOpen(s: State, p: Pid, kind: LockType, run: seq<Choice>, k: nat) returns (m: nat)
    requires OneAttempt(s, p, kind, run) && Links(s, p, run, k) && ProcAt(s, p, run, k).kind == kind
    requires Run(s, run[..k]).lock.None?
    ensures k < m && Opens(s, p, run, m) && ProcAt(s, p, run, m) == LockLinked(kind, ProcAt(s, p, run, k).id)
    ensures Record(Run(s, run[..m])) == Record(Run(s, run[..k]))
    ensures forall j: nat :: k < j <= m ==> !Links(s, p, run, j) && (j < m ==> !Opens(s, p, run, j))
  {
    hide Run, ProcAt, Step, Inv, Gone, Record;
    var id, r := ProcAt(s, p, run, k).id, Record(Run(s, run[..k]));
    NextChoice(s, p, run, k);
    assert run[k] in run;
    StepToLink(Run(s, run[..k]), p, kind, run[k].kind);
    m := k + 1;
    while !Opens(s, p, run, m)
      invariant k < m <= |run| && ProcAt(s, p, run, m) == LockLinked(kind, id)
      invariant Record(Run(s, run[..m])) == r
      invariant forall j: nat :: k < j < m ==> !Links(s, p, run, j) && !Opens(s, p, run, j)
      decreases |run| - m
    {
      NextChoice(s, p, run, m);
      var c := run[m];
      if c.p < |s.procs| {
        OthersKeep(Run(s, run[..m]), p, c.p, c.ok, c.kind);
      }
      m := m + 1;
    }
  }

  /** From an open that found the admin file to the end. */
  lemma FindEnd(s: State, p: Pid, kind: LockType, run: seq<Choice>, m: nat)
    requires OneAttempt(s, p, kind, run) && Opens(s, p, run, m) && ProcAt(s, p, run, m).kind == kind
    requires Run(s, run[..m]).admin.Some?
    ensures Deciding(Run(s, run), ProcAt(s, p, run, |run|), kind, ProcAt(s, p, run, m).id, Record(Run(s, run[..m])))
    ensures forall j: nat :: m < j ==> !Links(s, p, run, j) && !Opens(s, p, run, j)
  {
    hide Run, ProcAt, Step, Inv, Gone, Record, WellFormed;
    var id, r := ProcAt(s, p, run, m).id, Record(Run(s, run[..m]));
    NextChoice(s, p, run, m);
    InvWellFormed(Run(s, run[..m]));
    assert run[m] in run;
    StepOpens(Run(s, run[..m]), p, run[m].kind);
    var n := m + 1;
    while n < |run|
      invariant m < n <= |run| && Deciding(Run(s, run[..n]), ProcAt(s, p, run, n), kind, id, r)
      invariant forall j: nat :: m < j < n ==> !Links(s, p, run, j) && !Opens(s, p, run, j)
      decreases |run| - n
    {
      NextChoice(s, p, run, n);
      var c, t := run[n], Run(s, run[..n]);
      if c.p == p {
        assert c in run;
        StepDecides(t, p, kind, id, r, c.kind);
      } else if c.p < |s.procs| {
        StillDeciding(t, p, c, kind, id, r);
      }
      n := n + 1;
    }
    assert run[..|run|] == run;
  }

  lemma StillDeciding(s: State, p: Pid, c: Choice, kind: LockType, id: Id, r: seq<Line>)
    requires p < |s.procs| && c.p < |s.procs| && c.p != p && Inv(s)
    requires Deciding(s, s.procs[p], kind, id, r) && !Done(s.procs[p])
    ensures var t := Step(s, c.p, c.ok, c.kind); Deciding(t, t.procs[p], kind, id, r)
  {
    hide Step, Inv, Gone, Record;
    OthersKeep(s, p, c.p, c.ok, c.kind);
    if Gone(s, id) {
      GoneStays(s, c.p, c.ok, c.kind, id);
    }
  }

  /** From an open that did not find the admin file to the end. */
  lemma FindFailure(s: State, p: Pid, kind: LockType, run: seq<Choice>, m: nat)
    requires OneAttempt(s, p, kind, run) && Opens(s, p, run, m) && Run(s, run[..m]).admin.None?
    ensures ProcAt(s, p, run, |run|).Idle? && Gone(Run(s, run), ProcAt(s, p, run, m).id)
    ensures forall j: nat :: m < j ==> !Links(s, p, run, j) && !Opens(s, p, run, j)
  {
    hide Run, ProcAt, Step, Inv, Gone, Record;
    var id := ProcAt(s, p, run, m).id;
    NextChoice(s, p, run, m);
    assert run[m] in run;
    StepOpens(Run(s, run[..m]), p, run[m].kind);
    var n := m + 1;
    while n < |run|
      invariant m < n <= |run| && Gone(Run(s, run[..n]), id)
      invariant ProcAt(s, p, run, n).LockFailing? || ProcAt(s, p, run, n).Idle?
      invariant forall j: nat :: m < j < n ==> !Links(s, p, run, j) && !Opens(s, p, run, j)
      decreases |run| - n
    {
      NextChoice(s, p, run, n);
      var c := run[n];
      if c.p < |s.procs| {
        GoneStays(Run(s, run[..n]), c.p, c.ok, c.kind, id);
      }
      if c.p == p {
        FailingFails(Run(s, run[..n]), p, c.ok, c.kind);
      }
      n := n + 1;
    }
    assert run[..|run|] == run;
  }

  lemma FailingFails(s: State, p: Pid, ok: bool, kind: LockType)
    requires p < |s.procs| && s.procs[p].LockFailing?
    ensures Step(s, p, ok, kind).procs[p].Idle?
  {
  }

  /**
    Taking a lock.  Among any steps of any other processes, an attempt whose own calls do not fail
    calls link(2) once.  If the lock file is there, the attempt is over with that call.  Otherwise it
    opens the admin file once, and gets the lock exactly if it finds it and the record, as it was at
    the link, admits its kind.  If it does not get it, nothing is left of its id.
  */
  lemma LockExactly(s: State, p: Pid, kind: LockType, run: seq<Choice>)
    requires OneAttempt(s, p, kind, run)
    ensures exists k: nat :: Links(s, p, run, k)
    ensures forall k: nat, j: nat :: Links(s, p, run, k) && Links(s, p, run, j) ==> k == j
    ensures forall k: nat :: Links(s, p, run, k) ==>
      var id, u, q := ProcAt(s, p, run, k).id, Run(s, run[..k]), ProcAt(s, p, run, |run|);
      if u.lock.Some? then k + 1 == |run| && q.Idle? && Gone(Run(s, run), id)
      else exists m: nat :: k < m && OnlyOpens(s, p, run, m) && Settled(s, p, kind, run, k, m)
  {
    hide Run, ProcAt, Step, Inv, Gone, Record, WellFormed;
    var k := FindLink(s, p, kind, run);
    var id, u, t := ProcAt(s, p, run, k).id, Run(s, run[..k]), Run(s, run);
    NextChoice(s, p, run, k);
    assert run[k] in run;
    StepToLink(u, p, kind, run[k].kind);
    EndOfRun(s, p, run);
    if u.lock.Some? {
      assert k + 1 == |run| by { assert Done(ProcAt(s, p, run, k + 1)); }
      assert run[..k + 1] == run;
    } else {
      var m := FindOpen(s, p, kind, run, k);
      if Run(s, run[..m]).admin.Some? {
        FindEnd(s, p, kind, run, m);
      } else {
        FindFailure(s, p, kind, run, m);
      }
      assert OnlyOpens(s, p, run, m);
      if t.procs[p].Held? {
        LiveRecorded(t, p);
      }
    }
  }

  /**
    A call that fails ends the attempt or the release it belongs to.  Before the link, and at a link
    that finds the lock file there, that is the end, and neither file has changed; with the lock file
    in hand only its unlink is left to do.
  */
  lemma FailureEnds(s: State, p: Pid, kind: LockType)
    requires p < |s.procs| && Inv(s)
    ensures var q, t := s.procs[p], Step(s, p, false, kind); var u := t.procs[p];
      && (q.Idle? || q.LockOpened? || q.LockNamed? ==> u.Idle? && t.lock == s.lock && t.admin == s.admin)
      && (q.Held? || q.UnlockOpened? || q.UnlockNamed? ==> u.Idle? && t.lock == s.lock && t.admin == s.admin)
      && (q.LockLinked? || q.UnlockLinked? ==> u.Idle?)
      && (q.LockReading? ==> u.LockFailing?) && (q.UnlockReading? || q.UnlockRead? ==> u.UnlockLeaving?)
    ensures var q, t := s.procs[p], Step(s, p, true, kind);
      (q.LockNamed? || q.UnlockNamed?) && s.lock.Some? ==> t == s.At(p, Idle)
    ensures forall ok :: s.procs[p].LockFailing? || s.procs[p].UnlockLeaving? ==> Step(s, p, ok, kind).procs[p].Idle?
  {
    hide Without, Admission, Fresh, Recorded, WellFormed;
  }

  lemma EndOfRun(s: State, p: Pid, run: seq<Choice>)
    requires p < |s.procs| && Inv(s)
    ensures Inv(Run(s, run)) && |Run(s, run).procs| == |s.procs| && ProcAt(s, p, run, |run|) == Run(s, run).procs[p]
  {
    assert run[..|run|] == run;
    RunKeepsInv(s, run);
    RunKeepsProcs(s, run);
  }

  lemma LiveRecorded(s: State, p: Pid)
    requires p < |s.procs| && Inv(s) && Live(s.procs[p])
    ensures Holder(s.procs[p].id) in Record(s)
  {
  }

  /** `n` steps of process `p` alone, with no system call failing. */
  function Solo(s: State, p: Pid, kind: LockType, n: nat): (t: State)
    requires p < |s.procs|
    ensures |t.procs| == |s.procs|
  {
    if n == 0 then s else Step(Solo(s, p, kind, n - 1), p, true, kind)
  }

  function Steps(p: Pid, kind: LockType, n: nat): seq<Choice>
  {
    seq(n, _ => Choice(p, true, kind))
  }

  lemma {:induction false} SoloIsRun(s: State, run: seq<Choice>, p: Pid, kind: LockType, n: nat)
    requires p < |Run(s, run).procs|
    ensures Run(s, run + Steps(p, kind, n)) == Solo(Run(s, run), p, kind, n)
  {
    if n == 0 {
      assert run + Steps(p, kind, 0) == run;
    } else {
      SoloIsRun(s, run, p, kind, n - 1);
      var c := Choice(p, true, kind);
      var longer := run + Steps(p, kind, n);
      assert longer == run + Steps(p, kind, n - 1) + [c];
      assert longer[..|longer| - 1] == run + Steps(p, kind, n - 1);
    }
  }

  lemma SoloInTwo(s: State, p: Pid, kind: LockType, m: nat, n: nat)
    requires p < |s.procs|
    ensures Solo(s, p, kind, m + n) == Solo(Solo(s, p, kind, m), p, kind, n)
  {
  }

  /**
    Releasing a lock can fail although no system call fails but link(2): here a second process
    has the lock file while it finds out that the lock is held.  Afterwards nobody is doing
    anything, and the resource is locked for good.
  */
  lemma ContentionOrphans()
    ensures exists run: seq<Choice> ::
      && Run(Init(2), run).procs == [Idle, Idle] && Run(Init(2), run).lock.None?
      && Orphan(Run(Init(2), run), 0) && Record(Run(Init(2), run))[0] == Mode(Exclusive)
      && forall c :: c in run ==> c.ok
  {
    hide Run, Solo, Step;
    var s := Init(2);
    var taken := Some([Mode(Exclusive), Holder(0)]);
    assert Run(s, []) == s by { EmptyRun(s); }
    TakeExclusive();
    var a := State(taken, None, [Held(Exclusive, 0), Idle], 1);
    SoloIsRun(s, [], 0, Exclusive, 7);
    var run := [] + Steps(0, Exclusive, 7);
    ContentionSteps(taken);
    SoloIsRun(s, run, 1, Exclusive, 3);
    run := run + Steps(1, Exclusive, 3);
    SoloIsRun(s, run, 0, Exclusive, 3);
    run := run + Steps(0, Exclusive, 3);
    SoloIsRun(s, run, 1, Exclusive, 3);
    run := run + Steps(1, Exclusive, 3);
    var t := State(taken, None, [Idle, Idle], 3);
    assert Run(s, run) == t;
    assert Holder(0) in Record(t) by { assert Record(t)[1] == Holder(0); }
  }

  lemma EmptyRun(s: State)
    ensures Run(s, []) == s
  {
  }

  lemma TakeExclusive()
    ensures Solo(Init(2), 0, Exclusive, 7)
      == State(Some([Mode(Exclusive), Holder(0)]), None, [Held(Exclusive, 0), Idle], 1)
  {
    var s := Init(2);
    assert s.procs == [Idle, Idle];
    assert Solo(s, 0, Exclusive, 1) == State(Some([]), None, [LockOpened(Exclusive), Idle], 0);
    assert Solo(s, 0, Exclusive, 2) == State(Some([]), None, [LockNamed(Exclusive, 0), Idle], 1);
    assert Solo(s, 0, Exclusive, 3) == State(Some([]), Some(0), [LockLinked(Exclusive, 0), Idle], 1);
    assert Solo(s, 0, Exclusive, 4) == State(Some([]), Some(0), [LockReading(Exclusive, 0), Idle], 1);
    var lines := [Mode(Exclusive), Holder(0)];
    assert Solo(s, 0, Exclusive, 5) == State(Some([]), Some(0), [LockWriting(Exclusive, 0, lines), Idle], 1);
    assert [] + lines == lines;
    assert Solo(s, 0, Exclusive, 6) == State(Some(lines), Some(0), [LockLeaving(Exclusive, 0), Idle], 1);
  }

  lemma ContentionSteps(taken: Option<seq<Line>>)
    requires taken == Some([Mode(Exclusive), Holder(0)])
    ensures var b := State(taken, Some(1), [Held(Exclusive, 0), LockLinked(Exclusive, 1)], 2);
      && Solo(State(taken, None, [Held(Exclusive, 0), Idle], 1), 1, Exclusive, 3) == b
      && Solo(b, 0, Exclusive, 3) == State(taken, Some(1), [Idle, LockLinked(Exclusive, 1)], 3)
      && Solo(State(taken, Some(1), [Idle, LockLinked(Exclusive, 1)], 3), 1, Exclusive, 3)
        == State(taken, None, [Idle, Idle], 3)
  {
    var a := State(taken, None, [Held(Exclusive, 0), Idle], 1);
    assert Solo(a, 1, Exclusive, 1) == State(taken, None, [Held(Exclusive, 0), LockOpened(Exclusive)], 1);
    assert Solo(a, 1, Exclusive, 2) == State(taken, None, [Held(Exclusive, 0), LockNamed(Exclusive, 1)], 2);
    var b := State(taken, Some(1), [Held(Exclusive, 0), LockLinked(Exclusive, 1)], 2);
    assert Solo(b, 0, Exclusive, 1) == State(taken, Some(1), [UnlockOpened(Exclusive, 0), LockLinked(Exclusive, 1)], 2);
    assert Solo(b, 0, Exclusive, 2) == State(taken, Some(1), [UnlockNamed(Exclusive, 0), LockLinked(Exclusive, 1)], 3);
    var c := State(taken, Some(1), [Idle, LockLinked(Exclusive, 1)], 3);
    assert Solo(c, 1, Exclusive, 1) == State(taken, Some(1), [Idle, LockReading(Exclusive, 1)], 3);
    assert Solo(c, 1, Exclusive, 2) == State(taken, Some(1), [Idle, LockFailing], 3);
  }

  // ----- a lock and its unlock, when nobody interferes

  /** Whether a lock of this kind is compatible with what the file says. */
  predicate Admits(r: seq<Line>, kind: LockType)
  {
    r == [] || (kind == Shared && r[0] == Mode(Shared))
  }

  /** The lines a new holder adds. */
  function NewLines(r: seq<Line>, kind: LockType, id: Id): seq<Line>
  {
    if r == [] then [Mode(kind), Holder(id)] else [Holder(id)]
  }

  lemma AdmissionIs(r: seq<Line>, kind: LockType, id: Id)
    requires WellFormed(r)
    ensures Admission(r, kind, id) == if Admits(r, kind) then Some(NewLines(r, kind, id)) else None
  {
  }

  lemma LockPrelude(s: State, p: Pid, kind: LockType)
    requires p < |s.procs| && Inv(s) && s.procs[p] == Idle && s.lock.None?
    ensures Solo(s, p, kind, 4)
      == State(Some(Record(s)), Some(p), s.procs[p := LockReading(kind, s.next)], s.next + 1)
  {
    hide Inv, Without, Admission;
    InvWellFormed(s);
    var ps, id, admin := s.procs, s.next, Some(Record(s));
    assert Solo(s, p, kind, 0) == s;
    assert Solo(s, p, kind, 1) == State(admin, None, ps[p := LockOpened(kind)], id);
    assert Solo(s, p, kind, 2) == State(admin, None, ps[p := LockNamed(kind, id)], id + 1);
    assert Solo(s, p, kind, 3) == State(admin, Some(p), ps[p := LockLinked(kind, id)], id + 1);
  }

  /** Unhindered, bk_file_lock takes the lock exactly if the record admits it, and changes nothing else. */
  lemma LockAlone(s: State, p: Pid, kind: LockType)
    requires p < |s.procs| && Inv(s) && s.procs[p] == Idle && s.lock.None?
    ensures var r := Record(s);
      if Admits(r, kind) then
        var t := Solo(s, p, kind, 7);
        && t.procs == s.procs[p := Held(kind, s.next)] && t.lock.None?
        && Record(t) == r + NewLines(r, kind, s.next)
      else
        var t := Solo(s, p, kind, 6);
        t.procs == s.procs && t.lock.None? && Record(t) == r
  {
    hide Inv, Without, Admission;
    InvWellFormed(s);
    LockPrelude(s, p, kind);
    var r, ps, id := Record(s), s.procs, s.next;
    var admin, lines := Some(r), NewLines(r, kind, id);
    AdmissionIs(r, kind, id);
    if Admits(r, kind) {
      assert Solo(s, p, kind, 5) == State(admin, Some(p), ps[p := LockWriting(kind, id, lines)], id + 1);
      assert Solo(s, p, kind, 6) == State(Some(r + lines), Some(p), ps[p := LockLeaving(kind, id)], id + 1);
      assert Solo(s, p, kind, 7) == State(Some(r + lines), None, ps[p := Held(kind, id)], id + 1);
    } else {
      assert Solo(s, p, kind, 5) == State(admin, Some(p), ps[p := LockFailing], id + 1);
      assert Solo(s, p, kind, 6) == State(admin, None, ps[p := Idle], id + 1);
      assert ps[p := Idle] == ps;
    }
  }

  lemma InvWellFormed(s: State)
    requires Inv(s)
    ensures WellFormed(Record(s)) && (s.lock.None? ==> Record(s) == if s.admin.Some? then s.admin.value else [])
  {
  }

  /** What is left of the file when holder `id` leaves: nothing, if only the mode line would be. */
  function Left(r: seq<Line>, id: Id): seq<Line>
  {
    var rest := Without(r, id);
    if |rest| > 1 then rest else []
  }

  lemma UnlockPrelude(s: State, p: Pid, kind: LockType)
    requires p < |s.procs| && Inv(s) && s.procs[p].Held? && s.lock.None?
    ensures var k, id := s.procs[p].kind, s.procs[p].id;
      Solo(s, p, kind, 5) == State(Some(Record(s)), Some(p),
        s.procs[p := UnlockRead(k, id, Without(Record(s), id))], s.next + 1)
  {
    hide Inv, Without, Admission;
    HeldRecorded(s, p);
    var ps, k, id, next, admin := s.procs, s.procs[p].kind, s.procs[p].id, s.next + 1, Some(Record(s));
    assert Solo(s, p, kind, 0) == s;
    assert Solo(s, p, kind, 1) == State(admin, None, ps[p := UnlockOpened(k, id)], s.next);
    assert Solo(s, p, kind, 2) == State(admin, None, ps[p := UnlockNamed(k, id)], next);
    assert Solo(s, p, kind, 3) == State(admin, Some(p), ps[p := UnlockLinked(k, id)], next);
    assert Solo(s, p, kind, 4) == State(admin, Some(p), ps[p := UnlockReading(k, id)], next);
  }

  /** Unhindered, an unlock that leaves other holders empties the file before it writes them back. */
  lemma UnlockTruncates(s: State, p: Pid, kind: LockType)
    requires p < |s.procs| && Inv(s) && s.procs[p].Held? && s.lock.None?
    ensures var rest := Without(Record(s), s.procs[p].id);
      |rest| > 1 ==>
        Solo(s, p, kind, 6) == State(Some([]), Some(p), s.procs[p := UnlockTruncated(rest)], s.next + 1)
  {
    hide Inv, Without, Admission;
    UnlockPrelude(s, p, kind);
  }

  /** Unhindered, bk_file_unlock removes its own line and nothing else. */
  lemma UnlockAlone(s: State, p: Pid, kind: LockType)
    requires p < |s.procs| && Inv(s) && s.procs[p].Held? && s.lock.None?
    ensures var t := Solo(s, p, kind, 8);
      && t.procs == s.procs[p := Idle] && t.lock.None? && Record(t) == Left(Record(s), s.procs[p].id)
      && t.admin == if Record(t) == [] then None else Some(Record(t))
  {
    hide Inv, Without, Admission;
    UnlockPrelude(s, p, kind);
    UnlockTruncates(s, p, kind);
    var ps, next, rest := s.procs, s.next + 1, Without(Record(s), s.procs[p].id);
    if |rest| > 1 {
      assert [] + rest == rest;
      assert Solo(s, p, kind, 7) == State(Some(rest), Some(p), ps[p := UnlockLeaving], next);
      assert Solo(s, p, kind, 8) == State(Some(rest), None, ps[p := Idle], next);
    } else {
      assert Solo(s, p, kind, 6) == State(Some([]), Some(p), ps[p := UnlockUnlinking], next);
      assert Solo(s, p, kind, 7) == State(None, Some(p), ps[p := UnlockLeaving], next);
      assert Solo(s, p, kind, 8) == State(None, None, ps[p := Idle], next);
    }
  }

  /** Two shared holders, one of them releasing: for a moment the other one's line is not in the file. */
  lemma HolderMissingFromFile()
    ensures exists run: seq<Choice> ::
      && |Run(Init(2), run).procs| == 2 && Run(Init(2), run).procs[0].Held? && Run(Init(2), run).admin == Some([])
      && forall c :: c in run ==> c.ok
  {
    hide Run, Solo, Step, Inv, Without, Admission;
    var s := Init(2);
    EmptyRun(s);
    EmptyIsInv(2);
    assert s.procs == [Idle, Idle];
    LockAlone(s, 0, Shared);
    SoloKeepsInv(s, 0, Shared, 7);
    SoloIsRun(s, [], 0, Shared, 7);
    var run := [] + Steps(0, Shared, 7);
    var a := Solo(s, 0, Shared, 7);
    LockAlone(a, 1, Shared);
    SoloKeepsInv(a, 1, Shared, 7);
    SoloIsRun(s, run, 1, Shared, 7);
    run := run + Steps(1, Shared, 7);
    var b := Solo(a, 1, Shared, 7);
    NextUnrecorded(a);
    InvWellFormed(a);
    InvWellFormed(b);
    assert Record(a) == [] + [Mode(Shared), Holder(0)];
    assert Record(b) == Record(a) + [Holder(a.next)];
    WithoutAbsent(Record(a), a.next);
    UnlockTruncates(b, 1, Shared);
    SoloIsRun(s, run, 1, Shared, 6);
    run := run + Steps(1, Shared, 6);
  }

  /**
    An attempt can fail although no system call fails but its open, and nobody holds the lock: the
    admin file, there when it began, was removed with the last line before it linked.
  */
  lemma VanishedFileFails()
    ensures exists run: seq<Choice> :: var s := Run(Init(2), run);
      && |s.procs| == 2 && s.procs[0].Idle? && s.procs[1].LockNamed? && s.lock.None? && Record(s) == []
      && Solo(s, 1, Exclusive, 3).procs == [Idle, Idle] && forall c :: c in run ==> c.ok
  {
    hide Run, Solo, Step, Inv, Without, Admission;
    var s := Init(2);
    EmptyRun(s);
    EmptyIsInv(2);
    assert s.procs == [Idle, Idle];
    LockAlone(s, 0, Shared);
    SoloKeepsInv(s, 0, Shared, 7);
    SoloIsRun(s, [], 0, Shared, 7);
    var run := [] + Steps(0, Shared, 7);
    var a := Solo(s, 0, Shared, 7);
    InvWellFormed(a);
    assert Record(a) == [] + [Mode(Shared), Holder(0)];
    FirstOpen(a, 1, Exclusive);
    SoloKeepsInv(a, 1, Exclusive, 1);
    SoloIsRun(s, run, 1, Exclusive, 1);
    run := run + Steps(1, Exclusive, 1);
    var b := Solo(a, 1, Exclusive, 1);
    UnlockAlone(b, 0, Shared);
    WithoutAbsent([Mode(Shared)], 0);
    assert [Mode(Shared)] + [Holder(0)] == Record(b);
    SoloIsRun(s, run, 0, Shared, 8);
    run := run + Steps(0, Shared, 8);
    var c := Solo(b, 0, Shared, 8);
    assert c.procs == [Idle, LockOpened(Exclusive)] && c.admin.None?;
    FindsNoFile(c.next);
    assert c == State(None, None, [Idle, LockOpened(Exclusive)], c.next);
    SoloIsRun(s, run, 1, Exclusive, 1);
    run := run + Steps(1, Exclusive, 1);
  }

  lemma FirstOpen(s: State, p: Pid, kind: LockType)
    requires p < |s.procs| && s.procs[p].Idle? && s.admin.Some?
    ensures Solo(s, p, kind, 1) == s.At(p, LockOpened(kind))
  {
    assert Solo(s, p, kind, 0) == s;
  }

  lemma FindsNoFile(next: Id)
    ensures var c := State(None, None, [Idle, LockOpened(Exclusive)], next); var d := Solo(c, 1, Exclusive, 1);
      && d == State(None, None, [Idle, LockNamed(Exclusive, next)], next + 1)
      && Solo(d, 1, Exclusive, 3).procs == [Idle, Idle]
  {
    var c := State(None, None, [Idle, LockOpened(Exclusive)], next);
    var d := State(None, None, [Idle, LockNamed(Exclusive, next)], next + 1);
    assert Solo(c, 1, Exclusive, 0) == c;
    assert Solo(c, 1, Exclusive, 1) == d;
    assert Solo(d, 1, Exclusive, 0) == d;
    assert Solo(d, 1, Exclusive, 1) == State(None, Some(1), [Idle, LockLinked(Exclusive, next)], next + 1);
    assert Solo(d, 1, Exclusive, 2) == State(None, Some(1), [Idle, LockFailing], next + 1);
  }

  lemma HeldRecorded(s: State, p: Pid)
    requires p < |s.procs| && Inv(s) && s.procs[p].Held? && s.lock.None?
    ensures s.admin == Some(Record(s))
  {
  }

  lemma {:induction false} WithoutAbsent(r: seq<Line>, id: Id)
    requires Holder(id) !in r
    ensures Without(r, id) == r && Without(r + [Holder(id)], id) == r
  {
    if r == [] {
      assert ([] + [Holder(id)])[1..] == [];
    } else {
      WithoutAbsent(r[1..], id);
      assert (r + [Holder(id)])[1..] == r[1..] + [Holder(id)];
    }
  }

  /** A lock and its unlock leave the record as it was. */
  lemma LockThenUnlock(s: State, p: Pid, kind: LockType)
    requires p < |s.procs| && Inv(s) && s.procs[p] == Idle && s.lock.None? && Admits(Record(s), kind)
    ensures Record(Solo(s, p, kind, 15)) == Record(s) && Solo(s, p, kind, 15).procs == s.procs
  {
    hide Inv, Solo, Without;
    LockAlone(s, p, kind);
    SoloKeepsInv(s, p, kind, 7);
    var t, id := Solo(s, p, kind, 7), s.next;
    UnlockAlone(t, p, kind);
    SoloInTwo(s, p, kind, 7, 8);
    var r := Record(s);
    NextUnrecorded(s);
    InvWellFormed(s);
    if r == [] {
      assert Record(t) == [Mode(kind)] + [Holder(id)];
      WithoutAbsent([Mode(kind)], id);
    } else {
      assert Record(t) == r + [Holder(id)];
      WithoutAbsent(r, id);
    }
    assert s.procs[p := Held(kind, id)][p := Idle] == s.procs;
  }

  lemma NextUnrecorded(s: State)
    requires Inv(s)
    ensures Holder(s.next) !in Record(s)
  {
  }

  lemma {:induction false} SoloKeepsInv(s: State, p: Pid, kind: LockType, n: nat)
    requires p < |s.procs| && Inv(s)
    ensures Inv(Solo(s, p, kind, n))
  {
    hide Inv, Step;
    if n > 0 {
      SoloKeepsInv(s, p, kind, n - 1);
      InvKept(Solo(s, p, kind, n - 1), p, true, kind);
    }
  }

  // ----- the code of the unlock loop

  /** The loop of bk_file_unlock that reads the file and collects the lines to write back. */
  method ReadOthers(content: seq<Line>, id: Id) returns (kept: seq<Line>, lineCnt: nat, found: bool)
    ensures kept == Without(content, id) && lineCnt == |kept| && found == (Holder(id) in content)
  {
    kept, lineCnt, found := [], 0, false;
    var i := 0;
    while i < |content|
      invariant i <= |content| && lineCnt == |kept| && found == (Holder(id) in content[..i])
      invariant kept + Without(content[i..], id) == Without(content, id)
    {
      var line := content[i];
      assert content[i..][1..] == content[i + 1..];
      i := i + 1;
      if line == Holder(id) {
        found := true;
        continue;
      }
      lineCnt := lineCnt + 1;
      kept := kept + [line];
    }
    assert content[..i] == content;
  }
}
