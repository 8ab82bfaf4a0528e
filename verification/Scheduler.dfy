/** The process queues of Project2/proc.c: four feedback levels and the monopoly queue. A process is
    its index in the process table. The five queues are the rows of one table of slots. */
module Scheduler {
  import opened Collections

  const NPROC: nat := 64
  const NQUEUES: nat := 5
  const L0: nat := 0
  const L1: nat := 1
  const L2: nat := 2
  const L3: nat := 3
  const MOQ: nat := 4
  const NULL: nat := NPROC      // an entry of a queue's array that points to no process

  datatype ProcState = UNUSED | EMBRYO | SLEEPING | RUNNABLE | RUNNING | ZOMBIE

  datatype Proc = Proc(state: ProcState, pid: nat, parent: int, qlevel: nat, priority: int, timeslice: nat)

  type Queue = seq<nat>

  // ---------- Where processes are queued ----------

  /** The queued processes are allocated ones, each in the queue its qlevel names and there only once;
      `out` is in no queue; every other allocated process is queued. */
  ghost predicate PlacedExcept(procs: seq<Proc>, qs: seq<Queue>, out: int) {
    && |procs| == NPROC && |qs| == NQUEUES
    && (forall l, i {:trigger qs[l][i]} :: 0 <= l < NQUEUES && 0 <= i < |qs[l]| ==>
          qs[l][i] < NPROC && qs[l][i] != out && procs[qs[l][i]].state != UNUSED && procs[qs[l][i]].qlevel == l)
    && (forall l :: 0 <= l < NQUEUES ==> Distinct(qs[l]))
    && (forall p :: 0 <= p < NPROC && p != out && procs[p].state != UNUSED ==>
          procs[p].qlevel < NQUEUES && p in qs[procs[p].qlevel])
  }

  /** Each allocated process sits in exactly one queue, exactly once, in the queue its qlevel names. */
  ghost predicate Placed(procs: seq<Proc>, qs: seq<Queue>) {
    PlacedExcept(procs, qs, -1)
  }

  /** No other slot has the pid of an allocated process, which is not 0, and nextpid is new. */
  ghost predicate PidsOk(procs: seq<Proc>, nextpid: nat) {
    && (forall p :: 0 <= p < |procs| ==> procs[p].pid < nextpid)
    && (forall p :: 0 <= p < |procs| && procs[p].state != UNUSED ==> procs[p].pid != 0)
    && (forall p, r :: 0 <= p < |procs| && 0 <= r < |procs| && p != r && procs[p].state != UNUSED ==>
          procs[p].pid != procs[r].pid)
  }

  /** Every slot of the table holds a process of level l. */
  ghost predicate Crowded(procs: seq<Proc>, l: nat) {
    forall p :: 0 <= p < |procs| ==> procs[p].state != UNUSED && procs[p].qlevel == l
  }

  /** QL3 is in order of falling priority. */
  ghost predicate ByPriority(procs: seq<Proc>, q: Queue) {
    forall i, j :: 0 <= i < j < |q| && q[i] < |procs| && q[j] < |procs| ==> procs[q[i]].priority >= procs[q[j]].priority
  }

  function Inserted(q: Queue, i: nat, p: nat): Queue
    requires i <= |q|
  {
    q[..i] + [p] + q[i..]
  }

  lemma InsertedContents(q: Queue, i: nat, p: nat)
    requires i <= |q| && Distinct(q) && p !in q
    ensures Distinct(Inserted(q, i, p)) && forall r :: r in Inserted(q, i, p) <==> r in q || r == p
  {
    var s := Inserted(q, i, p);
    assert s[i] == p;
    forall r | r in q ensures r in s {
      var k :| 0 <= k < |q| && q[k] == r;
      assert s[if k < i then k else k + 1] == r;
    }
  }

  /** Taking a process out of its queue. */
  lemma PlacedWithout(procs: seq<Proc>, qs: seq<Queue>, l: nat, i: nat)
    requires Placed(procs, qs) && l < NQUEUES && i < |qs[l]|
    ensures PlacedExcept(procs, qs[l := Without(qs[l], i)], qs[l][i])
  {
    var p, r := qs[l][i], qs[l := Without(qs[l], i)];
    WithoutContents(qs[l], i);
    forall m, k | 0 <= m < NQUEUES && 0 <= k < |r[m]|
      ensures r[m][k] < NPROC && r[m][k] != p && procs[r[m][k]].state != UNUSED && procs[r[m][k]].qlevel == m
    {
      assert r[m][k] in r[m];
      if m == l { assert r[m][k] == qs[m][if k < i then k else k + 1]; } else { assert r[m][k] == qs[m][k]; }
    }
  }

  /** Queueing a process that is in no queue where its qlevel says. */
  lemma PlacedInserted(procs: seq<Proc>, qs: seq<Queue>, l: nat, i: nat, p: nat)
    requires p < NPROC && PlacedExcept(procs, qs, p) && l < NQUEUES && i <= |qs[l]|
    requires procs[p].state != UNUSED && procs[p].qlevel == l
    ensures Placed(procs, qs[l := Inserted(qs[l], i, p)])
  {
    var r := qs[l := Inserted(qs[l], i, p)];
    assert p !in qs[l] by {
      forall k | 0 <= k < |qs[l]| ensures qs[l][k] != p {}
    }
    InsertedContents(qs[l], i, p);
    forall m, k | 0 <= m < NQUEUES && 0 <= k < |r[m]|
      ensures r[m][k] < NPROC && procs[r[m][k]].state != UNUSED && procs[r[m][k]].qlevel == m
    {
      if m == l && k != i { assert r[m][k] == qs[m][if k < i then k else k - 1]; }
      else if m != l { assert r[m][k] == qs[m][k]; }
    }
  }

  /** A process in no queue may change in any way; if it is UNUSED nothing needs to queue it. */
  lemma PlacedUpdate(procs: seq<Proc>, qs: seq<Queue>, p: nat, new_: Proc)
    requires p < NPROC && PlacedExcept(procs, qs, p)
    ensures PlacedExcept(procs[p := new_], qs, p)
    ensures new_.state == UNUSED ==> Placed(procs[p := new_], qs)
  {
  }

  lemma PlacedPutBack(procs: seq<Proc>, nextpid: nat, qs: seq<Queue>, p: nat, l: nat, i: nat, new_: Proc)
    requires p < NPROC && PlacedExcept(procs, qs, p) && l < NQUEUES && i <= |qs[l]| && PidsOk(procs, nextpid)
    requires procs[p].state != UNUSED && new_.state != UNUSED && new_.qlevel == l && new_.pid == procs[p].pid
    ensures |qs[l]| < NPROC && Placed(procs[p := new_], qs[l := Inserted(qs[l], i, p)])
    ensures PidsOk(procs[p := new_], nextpid)
  {
    QueuesBound(procs, qs, p);
    PidsKept(procs, nextpid, p, new_);
    PlacedUpdate(procs, qs, p, new_);
    PlacedInserted(procs[p := new_], qs, l, i, p);
  }

  lemma PidsKept(procs: seq<Proc>, nextpid: nat, p: nat, new_: Proc)
    requires PidsOk(procs, nextpid) && p < |procs| && procs[p].state != UNUSED && new_.pid == procs[p].pid
    ensures PidsOk(procs[p := new_], nextpid)
  {
  }

  /** A queued process may change anything but its level, short of becoming UNUSED. */
  lemma PlacedSameLevel(procs: seq<Proc>, qs: seq<Queue>, p: nat, new_: Proc)
    requires p < NPROC && Placed(procs, qs) && procs[p].state != UNUSED
    requires new_.state != UNUSED && new_.qlevel == procs[p].qlevel
    ensures Placed(procs[p := new_], qs)
  {
  }

  lemma UnusedStays(procs: seq<Proc>, qs: seq<Queue>, p: nat, new_: Proc)
    requires p < NPROC && Placed(procs, qs) && procs[p].state == UNUSED == new_.state
    ensures Placed(procs[p := new_], qs)
  {
  }

  /** An unused slot may become an allocated process that is not queued yet. */
  lemma PlacedAllocated(procs: seq<Proc>, qs: seq<Queue>, p: nat, new_: Proc)
    requires p < NPROC && Placed(procs, qs) && procs[p].state == UNUSED
    ensures PlacedExcept(procs[p := new_], qs, p)
  {
  }

  /** The queues together hold at most NPROC processes. */
  lemma QueuesBound(procs: seq<Proc>, qs: seq<Queue>, out: int)
    requires PlacedExcept(procs, qs, out)
    ensures |qs[0]| + |qs[1]| + |qs[2]| + |qs[3]| + |qs[4]| <= if 0 <= out < NPROC then NPROC - 1 else NPROC
  {
    var all := qs[0] + qs[1] + qs[2] + qs[3] + qs[4];
    var tagged := if 0 <= out < NPROC then all + [out] else all;
    assert Distinct(tagged) by {
      forall i, j | 0 <= i < j < |tagged| ensures tagged[i] != tagged[j] {
        AllAt(procs, qs, out, i);
        if j < |all| { AllAt(procs, qs, out, j); }
      }
    }
    forall i | 0 <= i < |tagged| ensures tagged[i] < NPROC {
      if i < |all| { AllAt(procs, qs, out, i); }
    }
    DistinctBound(tagged, NPROC);
  }

  lemma {:induction false} HoldsAll(q: Queue, n: nat)
    requires Distinct(q) && forall p: nat :: p < n ==> p in q
    ensures |q| >= n
    decreases n
  {
    if n > 0 {
      assert n - 1 in q;
      var i :| 0 <= i < |q| && q[i] == n - 1;
      WithoutContents(q, i);
      HoldsAll(Without(q, i), n - 1);
    }
  }

  /** A queue fills its array exactly when the whole process table is in it. */
  lemma FullQueue(procs: seq<Proc>, qs: seq<Queue>, l: nat)
    requires Placed(procs, qs) && l < NQUEUES
    ensures |qs[l]| <= NPROC && (|qs[l]| == NPROC <==> Crowded(procs, l))
  {
    QueuesBound(procs, qs, -1);
    forall i | 0 <= i < |qs[l]| ensures qs[l][i] < NPROC {}
    if Crowded(procs, l) {
      forall p: nat | p < NPROC ensures p in qs[l] { assert procs[p].qlevel == l; }
      HoldsAll(qs[l], NPROC);
    } else {
      var p :| 0 <= p < |procs| && (procs[p].state == UNUSED || procs[p].qlevel != l);
      forall i | 0 <= i < |qs[l]| ensures qs[l][i] != p {}
      DistinctBound(qs[l] + [p], NPROC);
    }
  }

  /** Where the i-th of all queued processes is. */
  lemma AllAt(procs: seq<Proc>, qs: seq<Queue>, out: int, i: nat)
    requires PlacedExcept(procs, qs, out)
    requires i < |qs[0]| + |qs[1]| + |qs[2]| + |qs[3]| + |qs[4]|
    ensures
      var all := qs[0] + qs[1] + qs[2] + qs[3] + qs[4];
      var (l, k) := Position(qs, i);
      all[i] == qs[l][k] && all[i] < NPROC && all[i] != out && procs[all[i]].qlevel == l
  {
  }

  function Position(qs: seq<Queue>, i: nat): (r: (nat, nat))
    requires |qs| == NQUEUES && i < |qs[0]| + |qs[1]| + |qs[2]| + |qs[3]| + |qs[4]|
    ensures r.0 < NQUEUES && r.1 < |qs[r.0]|
  {
    var a := |qs[0]|;
    var b := a + |qs[1]|;
    var c := b + |qs[2]|;
    var d := c + |qs[3]|;
    if i < a then (0, i) else if i < b then (1, i - a) else if i < c then (2, i - b)
    else if i < d then (3, i - c) else (4, i - d)
  }

  lemma PidsReaped(procs: seq<Proc>, nextpid: nat, p: nat, new_: Proc)
    requires PidsOk(procs, nextpid) && p < |procs| && new_.state == UNUSED && new_.pid == 0
    ensures PidsOk(procs[p := new_], nextpid)
  {
  }

  lemma LevelOk(procs: seq<Proc>, qs: seq<Queue>, p: nat)
    requires Placed(procs, qs) && p < NPROC
    ensures |procs| == NPROC && (procs[p].state != UNUSED ==> procs[p].qlevel < NQUEUES)
  {
  }

  lemma NothingQueued(procs: seq<Proc>)
    requires |procs| == NPROC && forall p :: 0 <= p < NPROC ==> procs[p].state == UNUSED && procs[p].pid == 0
    ensures Placed(procs, [[], [], [], [], []]) && PidsOk(procs, 1)
  {
  }

  /** Entry i is where yield puts a process in QL3: after every entry of at least its priority. */
  ghost predicate IsPlace(procs: seq<Proc>, q: Queue, i: nat, priority: int) {
    && i <= |q|
    && (forall k :: 0 <= k < i && q[k] < |procs| ==> procs[q[k]].priority >= priority)
    && (i < |q| && q[i] < |procs| ==> procs[q[i]].priority < priority)
  }

  lemma ByPriorityWithout(procs: seq<Proc>, q: Queue, i: nat)
    requires ByPriority(procs, q) && i < |q|
    ensures ByPriority(procs, Without(q, i))
  {
    var r := Without(q, i);
    forall j, k | 0 <= j < k < |r| && r[j] < |procs| && r[k] < |procs|
      ensures procs[r[j]].priority >= procs[r[k]].priority
    {
      assert r[j] == q[if j < i then j else j + 1] && r[k] == q[if k < i then k else k + 1];
    }
  }

  lemma ByPriorityInserted(procs: seq<Proc>, q: Queue, i: nat, p: nat)
    requires ByPriority(procs, q) && p < |procs| && IsPlace(procs, q, i, procs[p].priority)
    requires forall k :: 0 <= k < |q| ==> q[k] < |procs|
    ensures ByPriority(procs, Inserted(q, i, p))
  {
    var r := Inserted(q, i, p);
    forall j, k | 0 <= j < k < |r| && r[j] < |procs| && r[k] < |procs|
      ensures procs[r[j]].priority >= procs[r[k]].priority
    {
      if j != i && k != i {
        assert r[j] == q[if j < i then j else j - 1] && r[k] == q[if k < i then k else k - 1];
      } else if k == i {
        assert r[j] == q[j];
      } else {
        assert r[k] == q[k - 1] && procs[q[i]].priority >= procs[q[k - 1]].priority;
      }
    }
  }

  /** Changing a process outside a queue does not disturb its order. */
  lemma ByPriorityElsewhere(procs: seq<Proc>, q: Queue, p: nat, new_: Proc)
    requires ByPriority(procs, q) && p < |procs| && (p !in q || new_.priority == procs[p].priority)
    ensures ByPriority(procs[p := new_], q)
  {
    forall i, j | 0 <= i < j < |q| && q[i] < |procs| && q[j] < |procs|
      ensures procs[p := new_][q[i]].priority >= procs[p := new_][q[j]].priority
    {
      assert q[i] in q && q[j] in q;
    }
  }

  lemma SortedPutBack(procs: seq<Proc>, q: Queue, p: nat, l: nat, i: nat, new_: Proc)
    requires ByPriority(procs, q) && p < |procs| && p !in q && forall k :: 0 <= k < |q| ==> q[k] < |procs|
    ensures ByPriority(procs[p := new_], q)
    ensures IsPlace(procs, q, i, new_.priority) ==> ByPriority(procs[p := new_], Inserted(q, i, p))
  {
    ByPriorityElsewhere(procs, q, p, new_);
    if IsPlace(procs, q, i, new_.priority) {
      forall k | 0 <= k < |q| ensures q[k] != p { assert q[k] in q; }
      ByPriorityInserted(procs[p := new_], q, i, p);
    }
  }

  /** Queues qs' are qs without process p, which was entry i of the queue its qlevel names. */
  ghost predicate Leaves(procs: seq<Proc>, qs: seq<Queue>, p: nat, i: nat, qs': seq<Queue>) {
    && |procs| == NPROC && |qs| == NQUEUES && p < NPROC && procs[p].qlevel < NQUEUES
    && i < |qs[procs[p].qlevel]| && qs[procs[p].qlevel][i] == p
    && qs' == qs[procs[p].qlevel := Without(qs[procs[p].qlevel], i)]
  }

  /** A process that has used up its time in QL0 goes to the rear of QL2 or QL1, by the parity of its pid. */
  ghost predicate FromL0(procs: seq<Proc>, qs: seq<Queue>, procs': seq<Proc>, qs': seq<Queue>, p: nat, i: nat)
  {
    && |procs| == NPROC && |qs| == NQUEUES && p < NPROC && procs[p].qlevel == L0 && i < |qs[L0]|
    && var l := if procs[p].pid % 2 == 0 then L2 else L1;
       var out := qs[L0 := Without(qs[L0], i)];
       && Leaves(procs, qs, p, i, out) && qs' == out[l := out[l] + [p]]
       && procs' == procs[p := procs[p].(qlevel := l, timeslice := if l == L2 then 6 else 4, state := RUNNABLE)]
  }

  /** From any other level it goes into QL3, after every entry of at least its priority. If it is there already,
      that has dropped by one, but not below zero. */
  ghost predicate ToL3(procs: seq<Proc>, qs: seq<Queue>, procs': seq<Proc>, qs': seq<Queue>, p: nat, i: nat, k: nat)
  {
    && |procs| == NPROC && |qs| == NQUEUES && p < NPROC && procs[p].qlevel < NQUEUES && i < |qs[procs[p].qlevel]|
    && var q, l := procs[p], procs[p].qlevel;
       var out := qs[l := Without(qs[l], i)];
       var priority := if l == L3 && q.priority > 0 then q.priority - 1 else q.priority;
       && Leaves(procs, qs, p, i, out)
       && IsPlace(procs, out[L3], k, priority) && qs' == out[L3 := Inserted(out[L3], k, p)]
       && procs' == procs[p := q.(qlevel := L3, timeslice := 8, priority := priority, state := RUNNABLE)]
  }

  /** setmonopoly moves p, unchanged but for its level, to the rear of moq. */
  ghost predicate Monopolized(procs: seq<Proc>, qs: seq<Queue>, procs': seq<Proc>, qs': seq<Queue>, p: nat, i: nat) {
    && |procs| == NPROC && |qs| == NQUEUES && p < NPROC && procs[p].qlevel < NQUEUES && i < |qs[procs[p].qlevel]|
    && var out := qs[procs[p].qlevel := Without(qs[procs[p].qlevel], i)];
       && Leaves(procs, qs, p, i, out) && qs' == out[MOQ := out[MOQ] + [p]]
       && procs' == procs[p := procs[p].(qlevel := MOQ)]
  }

  /** An unused slot p enters moq, and the last process of queue l is no longer in any queue. */
  ghost predicate LosesLast(procs: seq<Proc>, qs: seq<Queue>, procs': seq<Proc>, qs': seq<Queue>, p: nat, l: nat)
  {
    && |qs| == NQUEUES && p < |procs| && l < MOQ && qs[l] != []
    && procs' == procs[p := procs[p].(qlevel := MOQ)]
    && qs' == qs[l := qs[l][..|qs[l]| - 1]][MOQ := qs[MOQ] + [p]]
  }

  /** What setmonopoly does with p, the process that it finds: `ok` is false where removePCB comes upon a null
      pointer or the end of the array. An unused slot gets queued, which breaks the placement: if its level is
      that of moq, or if removePCB comes upon a pointer `stale` that was left behind, which costs the queue at
      its level its last process. */
  ghost predicate MovedToMoq(procs: seq<Proc>, qs: seq<Queue>, procs': seq<Proc>, qs': seq<Queue>,
                             p: nat, i: nat, stale: bool, ok: bool, r: int)
  {
    && |procs| == NPROC && |qs| == NQUEUES && p < NPROC
    && var l := procs[p].qlevel;
       if procs[p].state != UNUSED then
         if l == MOQ then ok && r == -3
         else if Crowded(procs, l) then !ok
         else ok && Monopolized(procs, qs, procs', qs', p, i) && r == |qs'[MOQ]|
       else if l >= MOQ then
         && ok && procs' == procs[p := procs[p].(qlevel := MOQ)] && qs' == qs[MOQ := qs[MOQ] + [p]]
         && r == |qs'[MOQ]| && !Placed(procs', qs')
       else if stale then ok && LosesLast(procs, qs, procs', qs', p, l) && r == |qs'[MOQ]| && !Placed(procs', qs')
       else !ok
  }

  /** The processes in `moved` are at level 0 with a fresh time slice. */
  function Boosted(procs: seq<Proc>, moved: Queue): (r: seq<Proc>)
    ensures |r| == |procs|
  {
    seq(|procs|, p requires 0 <= p < |procs| =>
      if p in moved then procs[p].(timeslice := 2, qlevel := L0) else procs[p])
  }

  /** The processes that boost moves, in the order in which it moves them. */
  function Lower(qs: seq<Queue>): Queue
    requires |qs| == NQUEUES
  {
    qs[L1] + qs[L2] + qs[L3]
  }

  lemma BoostedStep(procs: seq<Proc>, row: Queue, i: nat)
    requires i < |row| && row[i] < |procs| && row[i] !in row[..i]
    ensures Boosted(procs, row[..i + 1]) ==
      Boosted(procs, row[..i])[row[i] := procs[row[i]].(timeslice := 2, qlevel := L0)]
  {
    assert row[..i + 1] == row[..i] + [row[i]];
  }

  /** The next process that boost's loop over a row moves; the ones before it are at level 0 already. */
  lemma RowEntry(procs: seq<Proc>, row: Queue, i: nat, now: seq<Proc>, view: seq<Queue>, l: nat)
    requires |procs| == NPROC && i < |row| && now == Boosted(procs, row[..i]) && Placed(now, view)
    requires L0 < l < MOQ && view[l] == row[i..]
    ensures row[i] < NPROC && now[row[i]] == procs[row[i]]
    ensures Boosted(procs, row[..i + 1]) == now[row[i] := procs[row[i]].(timeslice := 2, qlevel := L0)]
  {
    assert view[l][0] == row[i];
    assert row[i] !in row[..i];
    BoostedStep(procs, row, i);
  }

  /** One round of boost's loop over row l, on values. */
  lemma MovingStep(procs: seq<Proc>, nextpid: nat, q: seq<Queue>, l: nat, i: nat, row: Queue, view: seq<Queue>)
    returns (next: seq<Queue>)
    requires |q| == NQUEUES && L0 < l < MOQ && row == q[l] && i < |row|
    requires view == q[L0 := q[L0] + row[..i]][l := row[i..]] && Placed(procs, view) && PidsOk(procs, nextpid)
    ensures row[i] < NPROC && |view[L0]| < NPROC && |next| == NQUEUES && next[L0] == view[L0] + [row[i]]
    ensures next == q[L0 := q[L0] + row[..i + 1]][l := row[i + 1..]]
    ensures Placed(procs[row[i] := procs[row[i]].(timeslice := 2, qlevel := L0)], next)
    ensures PidsOk(procs[row[i] := procs[row[i]].(timeslice := 2, qlevel := L0)], nextpid)
  {
    next := view[L0 := view[L0] + [row[i]]][l := view[l][1..]];
    assert view[l][0] == row[i];
    assert next[L0] == q[L0] + row[..i + 1] && next[l] == row[i + 1..];
    QueuesBound(procs, view, -1);
    PlacedBoosted(procs, view, l, row[i]);
    PidsKept(procs, nextpid, row[i], procs[row[i]].(timeslice := 2, qlevel := L0));
  }

  lemma BoostedConcat(procs: seq<Proc>, a: Queue, b: Queue)
    ensures Boosted(Boosted(procs, a), b) == Boosted(procs, a + b)
  {
  }

  lemma BoostedQueues(q: seq<Queue>, q1: seq<Queue>, q2: seq<Queue>, q3: seq<Queue>)
    requires |q| == NQUEUES && q1 == q[L0 := q[L0] + q[L1]][L1 := []]
    requires q2 == q1[L0 := q1[L0] + q1[L2]][L2 := []] && q3 == q2[L0 := q2[L0] + q2[L3]][L3 := []]
    ensures q1[L2] == q[L2] && q2[L3] == q[L3]
    ensures q3 == [q[L0] + (q[L1] + q[L2] + q[L3]), [], [], [], q[MOQ]]
  {
    assert q3[L0] == q[L0] + q[L1] + q[L2] + q[L3] == q[L0] + (q[L1] + q[L2] + q[L3]);
    assert q3[L1] == [] && q3[L2] == [] && q3[L3] == [] && q3[MOQ] == q[MOQ];
  }

  lemma SortedBoosted(procs: seq<Proc>, row: Queue, q: Queue)
    requires ByPriority(procs, q)
    ensures ByPriority(Boosted(procs, row), q) && ByPriority(Boosted(procs, row), [])
  {
    SortedSamePriority(procs, Boosted(procs, row), q);
  }

  lemma EntryPlaced(procs: seq<Proc>, qs: seq<Queue>, l: nat, i: nat)
    requires Placed(procs, qs) && l < NQUEUES && i < |qs[l]|
    ensures |procs| == NPROC && |qs| == NQUEUES && qs[l][i] < NPROC && procs[qs[l][i]].state != UNUSED
  {
  }

  /** Moving the head of a queue to the rear of QL0. */
  lemma PlacedBoosted(procs: seq<Proc>, qs: seq<Queue>, l: nat, p: nat)
    requires Placed(procs, qs) && L0 < l < MOQ && |qs[l]| > 0 && qs[l][0] == p
    ensures Placed(procs[p := procs[p].(timeslice := 2, qlevel := L0)], qs[L0 := qs[L0] + [p]][l := qs[l][1..]])
  {
    hide Placed, PlacedExcept;
    EntryPlaced(procs, qs, l, 0);
    var new_ := procs[p].(timeslice := 2, qlevel := L0);
    PlacedWithout(procs, qs, l, 0);
    var out := qs[l := Without(qs[l], 0)];
    assert Without(qs[l], 0) == qs[l][1..];
    PlacedUpdate(procs, out, p, new_);
    PlacedInserted(procs[p := new_], out, L0, |out[L0]|, p);
    assert Inserted(out[L0], |out[L0]|, p) == qs[L0] + [p];
    assert out[L0 := qs[L0] + [p]] == qs[L0 := qs[L0] + [p]][l := qs[l][1..]];
  }

  ghost predicate IsFirstRunnable(procs: seq<Proc>, q: Queue, i: nat) {
    && i < |q| && q[i] < |procs| && procs[q[i]].state == RUNNABLE
    && forall k :: 0 <= k < i && q[k] < |procs| ==> procs[q[k]].state != RUNNABLE
  }

  ghost predicate FirstRunnableIs(procs: seq<Proc>, q: Queue, p: nat) {
    exists i: nat :: IsFirstRunnable(procs, q, i) && q[i] == p
  }

  /** p is runnable, no process at a higher level is, and p is the first runnable one of its queue. */
  ghost predicate IsBest(procs: seq<Proc>, qs: seq<Queue>, p: nat) {
    && p < |procs| == NPROC && |qs| == NQUEUES && procs[p].state == RUNNABLE && procs[p].qlevel < MOQ
    && (forall r :: 0 <= r < NPROC && procs[r].qlevel < procs[p].qlevel ==> procs[r].state != RUNNABLE)
    && FirstRunnableIs(procs, qs[procs[p].qlevel], p)
  }

  /** In QL3 no runnable process has a greater priority than p. */
  ghost predicate IsHighest(procs: seq<Proc>, qs: seq<Queue>, p: nat)
    requires p < |procs|
  {
    procs[p].qlevel == L3 ==> forall r :: 0 <= r < |procs| && procs[r].state == RUNNABLE && procs[r].qlevel == L3 ==>
      procs[r].priority <= procs[p].priority
  }

  /** No process in the first l queues is runnable. */
  ghost predicate NoneRunnable(procs: seq<Proc>, qs: seq<Queue>, l: nat) {
    l <= |qs| && forall m, k {:trigger qs[m][k]} :: 0 <= m < l && 0 <= k < |qs[m]| && qs[m][k] < |procs| ==>
      procs[qs[m][k]].state != RUNNABLE
  }

  /** No process of the mode's levels is runnable. */
  ghost predicate NoneRunnableIn(procs: seq<Proc>, monopoly: bool) {
    forall r :: 0 <= r < |procs| && (procs[r].qlevel == MOQ <==> monopoly) ==> procs[r].state != RUNNABLE
  }

  lemma NothingInMoq(procs: seq<Proc>, qs: seq<Queue>)
    requires Placed(procs, qs)
    requires forall k :: 0 <= k < |qs[MOQ]| && qs[MOQ][k] < |procs| ==> procs[qs[MOQ][k]].state != RUNNABLE
    ensures NoneRunnableIn(procs, true)
  {
    forall r | 0 <= r < NPROC && procs[r].qlevel == MOQ ensures procs[r].state != RUNNABLE {
      if procs[r].state != UNUSED {
        var k :| 0 <= k < |qs[MOQ]| && qs[MOQ][k] == r;
      }
    }
  }

  lemma NothingRunnable(procs: seq<Proc>, qs: seq<Queue>)
    requires Placed(procs, qs) && NoneRunnable(procs, qs, MOQ)
    ensures NoneRunnableIn(procs, false)
  {
    forall r | 0 <= r < NPROC && procs[r].qlevel != MOQ ensures procs[r].state != RUNNABLE {
      if procs[r].state != UNUSED {
        var k :| 0 <= k < |qs[procs[r].qlevel]| && qs[procs[r].qlevel][k] == r;
      }
    }
  }

  lemma DispatchedIsBest(procs: seq<Proc>, qs: seq<Queue>, l: nat, i: nat)
    requires Placed(procs, qs) && l < MOQ && i < |qs[l]| && IsFirstRunnable(procs, qs[l], i)
    requires NoneRunnable(procs, qs, l)
    ensures IsBest(procs, qs, qs[l][i])
    ensures ByPriority(procs, qs[L3]) ==> IsHighest(procs, qs, qs[l][i])
  {
    var p := qs[l][i];
    assert procs[p].qlevel == l;
    forall r | 0 <= r < NPROC && procs[r].qlevel < l ensures procs[r].state != RUNNABLE {
      if procs[r].state != UNUSED {
        var k :| 0 <= k < |qs[procs[r].qlevel]| && qs[procs[r].qlevel][k] == r;
      }
    }
    if l == L3 && ByPriority(procs, qs[L3]) {
      forall r | 0 <= r < NPROC && procs[r].state == RUNNABLE && procs[r].qlevel == L3
        ensures procs[r].priority <= procs[p].priority
      {
        var k :| 0 <= k < |qs[L3]| && qs[L3][k] == r;
        assert k >= i;
      }
    }
  }

  // ---------- The table in memory ----------

  class Ptable {
    const proc: array<Proc>
    const slot: array2<nat>        // row l: the array proc[NPROC] of QL0 .. QL3 and moq
    const rear: array<nat>         // entry l: its rear
    var mode: int
    var nextpid: nat
    ghost var qs: seq<Queue>       // what the rows hold

    ghost predicate Shape()
      reads this, proc, slot, rear
    {
      && proc.Length == NPROC && slot.Length0 == NQUEUES && slot.Length1 == NPROC && rear.Length == NQUEUES
      && |qs| == NQUEUES
      && (forall l :: 0 <= l < NQUEUES ==> rear[l] == |qs[l]| <= NPROC)
      && (forall l, i :: 0 <= l < NQUEUES && 0 <= i < |qs[l]| ==> slot[l, i] == qs[l][i])
    }

    ghost predicate Valid()
      reads this, proc, slot, rear
    {
      Shape() && Placed(proc[..], qs) && PidsOk(proc[..], nextpid)
    }

    ghost predicate Sorted()
      reads this, proc, slot, rear
      requires Shape()
    {
      ByPriority(proc[..], qs[L3])
    }

    /** pinit */
    constructor ()
      ensures Valid() && Sorted() && fresh(proc) && fresh(slot) && fresh(rear)
      ensures mode == 0 && qs == [[], [], [], [], []] && nextpid == 1
      ensures proc[..] == seq(NPROC, _ => Proc(UNUSED, 0, -1, 0, 0, 0))
    {
      proc := new Proc[NPROC](_ => Proc(UNUSED, 0, -1, 0, 0, 0));
      slot := new nat[NQUEUES, NPROC]((_, _) => NULL);
      rear := new nat[NQUEUES](_ => 0);
      mode, nextpid, qs := 0, 1, [[], [], [], [], []];
      new;
      NothingQueued(proc[..]);
    }

    /** Queues p at the rear of row l. */
    method Append(l: nat, p: nat)
      requires Shape() && l < NQUEUES && rear[l] < NPROC
      modifies slot, rear, this`qs
      ensures Shape() && qs == old(qs)[l := old(qs[l]) + [p]]
    {
      slot[l, rear[l]] := p;
      rear[l] := rear[l] + 1;
      qs := qs[l := qs[l] + [p]];
    }

    ghost function SlotsNow(): (r: seq<seq<nat>>)
      reads slot
      ensures |r| == slot.Length0 && forall m :: 0 <= m < |r| ==> |r[m]| == slot.Length1
      ensures forall m, k {:trigger r[m][k]} :: 0 <= m < |r| && 0 <= k < slot.Length1 ==> r[m][k] == slot[m, k]
    {
      seq(slot.Length0, m requires 0 <= m < slot.Length0 reads slot =>
        seq(slot.Length1, k requires 0 <= k < slot.Length1 reads slot => slot[m, k]))
    }

    /** Past the entries of each row the array is as in `was`. */
    ghost predicate SlotsBeyond(was: seq<seq<nat>>)
      reads this, slot
    {
      forall m, k {:trigger slot[m, k]} :: 0 <= m < slot.Length0 && m < |qs| && |qs[m]| <= k < slot.Length1 ==>
        m < |was| && k < |was[m]| ==> slot[m, k] == was[m][k]
    }

    /** Shifts down what follows entry i of row l. */
    method RemoveAt(l: nat, i: nat)
      requires Shape() && l < NQUEUES && i < rear[l]
      modifies slot, rear, this`qs
      ensures Shape() && qs == old(qs)[l := Without(old(qs[l]), i)]
      ensures SlotsBeyond(old(SlotsNow()))
    {
      var j := i;
      while j < rear[l] - 1
        invariant i <= j <= rear[l] - 1 && rear[..] == old(rear[..]) && qs == old(qs)
        invariant forall m, k :: 0 <= m < NQUEUES && 0 <= k < NPROC ==>
          slot[m, k] == if m == l && i <= k < j then old(slot[m, k + 1]) else old(slot[m, k])
      {
        slot[l, j] := slot[l, j + 1];
        j := j + 1;
      }
      rear[l] := rear[l] - 1;
      qs := qs[l := Without(qs[l], i)];
    }

    /** Opens a place at entry i of row l and puts p there. */
    method InsertAt(l: nat, i: nat, p: nat)
      requires Shape() && l < NQUEUES && i <= rear[l] < NPROC
      modifies slot, rear, this`qs
      ensures Shape() && qs == old(qs)[l := Inserted(old(qs[l]), i, p)]
    {
      var j := rear[l];
      while j > i
        invariant i <= j <= rear[l] && rear[..] == old(rear[..]) && qs == old(qs)
        invariant forall m, k :: 0 <= m < NQUEUES && m != l && 0 <= k < |qs[m]| ==> slot[m, k] == qs[m][k]
        invariant forall k :: 0 <= k < j ==> slot[l, k] == qs[l][k]
        invariant forall k :: j < k <= rear[l] ==> slot[l, k] == qs[l][k - 1]
      {
        slot[l, j] := slot[l, j - 1];
        j := j - 1;
      }
      slot[l, i] := p;
      rear[l] := rear[l] + 1;
      qs := qs[l := Inserted(qs[l], i, p)];
    }

    /** Past the entries of row l, the first pointer that does not point to a process with another pid is one
        that was left behind, at k, and points to a process with this pid. */
    ghost predicate StaleAt(l: nat, pid: nat, k: nat)
      reads this, proc, slot
    {
      && l < slot.Length0 && l < |qs| && |qs[l]| <= k < slot.Length1 && slot[l, k] < proc.Length
      && proc[slot[l, k]].pid == pid
      && forall j :: |qs[l]| <= j < k ==> slot[l, j] < proc.Length && proc[slot[l, j]].pid != pid
    }

    ghost predicate LeftBehind(l: nat, pid: nat)
      reads this, proc, slot
    {
      l < |qs| && qs[l] != [] && exists k: nat :: StaleAt(l, pid, k)
    }

    /** removePCB: finds p in row l by pid and takes it out. `ok` is false where it comes upon a null pointer or
        the end of the array: searching for a process that is not queued, or clearing the place after the last
        entry of a full row. The search may also stop past the entries, at a pointer that was left behind; then
        the row loses its last entry. If it has none, `ok` is false too: the source makes rear negative and goes
        on. */
    method RemovePCB(l: nat, p: nat) returns (ok: bool, ghost i: nat)
      requires Valid() && l < NQUEUES && p < NPROC && (proc[p].state != UNUSED ==> proc[p].qlevel == l)
      modifies slot, rear, this`qs
      ensures ok <==>
        if proc[p].state != UNUSED then !Crowded(proc[..], l) else old(LeftBehind(l, proc[p].pid))
      ensures ok ==> Shape() && i < |old(qs[l])| && qs == old(qs)[l := Without(old(qs[l]), i)]
      ensures ok ==> if proc[p].state != UNUSED then old(qs[l])[i] == p else i == |old(qs[l])| - 1
      ensures ok ==> forall m, k {:trigger slot[m, k]} :: 0 <= m < NQUEUES && |qs[m]| <= k < NPROC ==>
        slot[m, k] == if m == l && k == |old(qs[l])| then NULL else old(slot[m, k])
    {
      FullQueue(proc[..], qs, l);
      var k := Search(l, p);
      assert proc[p].state != UNUSED ==> k < |qs[l]| && slot[l, k] == qs[l][k];
      assert LeftBehind(l, proc[p].pid) == old(LeftBehind(l, proc[p].pid));
      if k == NPROC || slot[l, k] >= NPROC {
        return false, 0;
      }
      if rear[l] == 0 {
        return false, 0;  // rear would become negative
      }
      // past the entries there is nothing to shift
      i := if k < rear[l] then k else rear[l] - 1;
      ok := Drop(l, if k < rear[l] then k else rear[l] - 1);
    }

    /** removePCB after its search: takes entry i out of row l and clears the place after the last entry. */
    method Drop(l: nat, i: nat) returns (ok: bool)
      requires Shape() && l < NQUEUES && i < rear[l]
      modifies slot, rear, this`qs
      ensures ok <==> |old(qs[l])| < NPROC
      ensures ok ==> Shape() && qs == old(qs)[l := Without(old(qs[l]), i)]
      ensures ok ==> forall m, k {:trigger slot[m, k]} :: 0 <= m < NQUEUES && |qs[m]| <= k < NPROC ==>
        slot[m, k] == if m == l && k == |old(qs[l])| then NULL else old(slot[m, k])
    {
      ghost var slots := SlotsNow();
      RemoveAt(l, i);
      assert forall m, k {:trigger slot[m, k]} :: 0 <= m < NQUEUES && |qs[m]| <= k < NPROC ==>
        slot[m, k] == slots[m][k] == old(slot[m, k]);
      ok := rear[l] + 1 < NPROC;
      if ok {
        slot[l, rear[l] + 1] := NULL;
      }
    }

    /** removePCB's search. */
    method Search(l: nat, p: nat) returns (k: nat)
      requires Valid() && l < NQUEUES && p < NPROC && (proc[p].state != UNUSED ==> proc[p].qlevel == l)
      ensures k <= NPROC
      ensures proc[p].state != UNUSED ==> k < |qs[l]| && qs[l][k] == p
      ensures proc[p].state == UNUSED ==>
        if k < NPROC && slot[l, k] < NPROC then StaleAt(l, proc[p].pid, k)
        else forall j: nat :: !StaleAt(l, proc[p].pid, j)
    {
      ghost var at := if proc[p].state != UNUSED then IndexOf(qs[l], p) else NPROC;
      k := 0;
      while k < NPROC && slot[l, k] < NPROC && proc[slot[l, k]].pid != proc[p].pid
        invariant k <= at && k <= NPROC
        invariant forall j :: 0 <= j < k ==> slot[l, j] < NPROC && proc[slot[l, j]].pid != proc[p].pid
      {
        k := k + 1;
      }
      if k < |qs[l]| {
        var r := qs[l][k];
        assert r < NPROC && proc[..][r].state != UNUSED && proc[..][p].pid == proc[..][r].pid;
      }
    }

    /** allocproc; `kstack` says whether kalloc finds a page for the kernel stack. */
    method Allocproc(kstack: bool) returns (ok: bool, p: nat)
      requires Valid()
      modifies this`nextpid, this`qs, proc, slot, rear
      ensures Valid() && (old(Sorted()) ==> Sorted())
      ensures ok ==> p < NPROC && old(proc[p].state) == UNUSED && qs == old(qs)[L0 := old(qs[L0]) + [p]]
      ensures ok ==> proc[..] == old(proc[..])[p := Proc(EMBRYO, old(nextpid), old(proc[p].parent), L0, 0, 2)]
      ensures ok <==> kstack && !old(TableFull())
      ensures !old(TableFull()) ==> p < NPROC && old(proc[p].state) == UNUSED
      ensures !old(TableFull()) ==> forall r :: 0 <= r < p ==> old(proc[r].state) != UNUSED
      ensures nextpid == old(nextpid) + if old(TableFull()) then 0 else 1
      ensures !ok ==> qs == old(qs)
      ensures old(TableFull()) ==> proc[..] == old(proc[..])
      ensures !ok && !old(TableFull()) ==> proc[..] == old(proc[..])[p := old(proc[p]).(pid := old(nextpid))]
    {
      ok, p := false, 0;
      while p < NPROC && proc[p].state != UNUSED
        invariant p <= NPROC && forall r :: 0 <= r < p ==> proc[r].state != UNUSED
      {
        p := p + 1;
      }
      if p == NPROC {
        return;
      }
      var pid := nextpid;
      nextpid := nextpid + 1;
      if !kstack {
        Abandon(p, pid);
        return;
      }
      Admit(p, pid);
      ok := true;
    }

    /** allocproc without a page for the kernel stack: the slot keeps its new pid but is unused again. */
    method Abandon(p: nat, pid: nat)
      requires Shape() && Placed(proc[..], qs) && p < NPROC && proc[p].state == UNUSED
      requires PidsOk(proc[..], pid) && nextpid == pid + 1
      modifies proc
      ensures Valid() && (old(Sorted()) ==> Sorted())
      ensures proc[..] == old(proc[..])[p := old(proc[p]).(pid := pid)]
    {
      ghost var procs := proc[..];
      proc[p] := proc[p].(state := UNUSED, pid := pid);
      assert proc[..] == procs[p := proc[p]];
      UnusedStays(procs, qs, p, proc[p]);
    }

    /** The part of allocproc that sets up slot p and queues it in QL0. */
    method Admit(p: nat, pid: nat)
      requires Shape() && Placed(proc[..], qs) && p < NPROC && proc[p].state == UNUSED
      requires PidsOk(proc[..], pid) && nextpid == pid + 1
      modifies this`qs, proc, slot, rear
      ensures Valid() && (old(Sorted()) ==> Sorted())
      ensures qs == old(qs)[L0 := old(qs[L0]) + [p]]
      ensures proc[..] == old(proc[..])[p := Proc(EMBRYO, pid, old(proc[p].parent), L0, 0, 2)]
    {
      ghost var procs := proc[..];
      proc[p] := Proc(EMBRYO, pid, proc[p].parent, L0, 0, 2);
      assert proc[..] == procs[p := proc[p]];
      PlacedAllocated(procs, qs, p, proc[p]);
      QueuesBound(proc[..], qs, p);
      PlacedInserted(proc[..], qs, L0, |qs[L0]|, p);
      assert Inserted(qs[L0], |qs[L0]|, p) == qs[L0] + [p];
      assert forall i :: 0 <= i < |qs[L3]| ==> qs[L3][i] != p;
      Append(L0, p);
    }

    /** The state changes of fork, exit, sleep, wakeup, kill and the dispatcher. */
    method SetState(p: nat, state: ProcState)
      requires Valid() && p < NPROC && proc[p].state != UNUSED && state != UNUSED
      modifies proc
      ensures Valid() && (old(Sorted()) ==> Sorted())
      ensures proc[..] == old(proc[..])[p := old(proc[p]).(state := state)]
    {
      ghost var procs := proc[..];
      proc[p] := proc[p].(state := state);
      assert proc[..] == procs[p := proc[p]];
      PlacedSameLevel(procs, qs, p, proc[p]);
    }

    /** fork, as far as the queues go; `copied` says whether copyuvm succeeds. Its failure path marks the
        slot unused but leaves it in QL0, so the placement invariant survives exactly when it is not taken. */
    method Fork(cur: nat, kstack: bool, copied: bool) returns (pid: int, ghost np: nat)
      requires Valid() && cur < NPROC
      modifies this`nextpid, this`qs, proc, slot, rear
      ensures Shape() && (Placed(proc[..], qs) <==> copied || !kstack || old(TableFull()))
      ensures pid == -1 <==> !copied || !kstack || old(TableFull())
      ensures pid != -1 ==> Valid() && (old(Sorted()) ==> Sorted())
      ensures nextpid == old(nextpid) + if old(TableFull()) then 0 else 1
      ensures !old(TableFull()) ==> np < NPROC && old(proc[np].state) == UNUSED
      ensures !old(TableFull()) ==> forall r :: 0 <= r < np ==> old(proc[r].state) != UNUSED
      ensures !old(TableFull()) && kstack && !copied ==>
        && proc[..] == old(proc[..])[np := Proc(UNUSED, old(nextpid), old(proc[np].parent), L0, 0, 2)]
        && qs == old(qs)[L0 := old(qs[L0]) + [np]]
      ensures pid != -1 ==> pid == old(nextpid)
      ensures pid != -1 ==> qs == old(qs)[L0 := old(qs[L0]) + [np]]
      ensures pid != -1 ==> proc[..] == old(proc[..])[np := Proc(RUNNABLE, old(nextpid), cur, L0, 0, 2)]
    {
      hide PidsOk, Distinct, PlacedExcept;
      var ok, p := Allocproc(kstack);
      np := p;
      if !ok {
        return -1, p;
      }
      if !copied {
        Unallocate(p);
        return -1, p;
      }
      pid := proc[p].pid;
      Start(p, cur);
    }

    /** fork's failure path: p stays queued although it is unused. */
    method Unallocate(p: nat)
      requires Shape() && p < NPROC == proc.Length && qs[L0] != [] && qs[L0][|qs[L0]| - 1] == p
      modifies proc
      ensures Shape() && !Placed(proc[..], qs)
      ensures proc[..] == old(proc[..])[p := old(proc[p]).(state := UNUSED)]
    {
      proc[p] := proc[p].(state := UNUSED);
      assert proc[..][qs[L0][|qs[L0]| - 1]].state == UNUSED;
    }

    method Start(p: nat, parent: int)
      requires Valid() && p < NPROC && proc[p].state != UNUSED
      modifies proc
      ensures Valid() && (old(Sorted()) ==> Sorted())
      ensures proc[..] == old(proc[..])[p := old(proc[p]).(parent := parent, state := RUNNABLE)]
    {
      ghost var procs := proc[..];
      proc[p] := proc[p].(parent := parent, state := RUNNABLE);
      assert proc[..] == procs[p := proc[p]];
      PlacedSameLevel(procs, qs, p, proc[p]);
    }

    ghost predicate TableFull()
      reads proc
      requires proc.Length == NPROC
    {
      forall p :: 0 <= p < NPROC ==> proc[p].state != UNUSED
    }

    /** Takes p out of its queue. */
    method TakeOut(p: nat) returns (ok: bool, ghost i: nat)
      requires Valid() && p < NPROC && proc[p].state != UNUSED
      modifies slot, rear, this`qs
      ensures ok <==> !Crowded(proc[..], proc[p].qlevel)
      ensures ok ==> Shape() && PlacedExcept(proc[..], qs, p) && p !in qs[L3]
      ensures ok && old(Sorted()) ==> Sorted()
      ensures ok ==> Leaves(proc[..], old(qs), p, i, qs)
    {
      ghost var l := proc[p].qlevel;
      ok, i := RemovePCB(proc[p].qlevel, p);
      if ok { TakenOut(old(qs), l, i); }
    }

    lemma TakenOut(qs0: seq<Queue>, l: nat, i: nat)
      requires proc.Length == NPROC && Placed(proc[..], qs0) && l < NQUEUES && i < |qs0[l]|
      requires qs == qs0[l := Without(qs0[l], i)]
      ensures PlacedExcept(proc[..], qs, qs0[l][i]) && qs0[l][i] !in qs[L3] && |qs| == NQUEUES
      ensures ByPriority(proc[..], qs0[L3]) ==> ByPriority(proc[..], qs[L3])
    {
      PlacedWithout(proc[..], qs0, l, i);
      if ByPriority(proc[..], qs0[L3]) && l == L3 { ByPriorityWithout(proc[..], qs0[L3], i); }
      forall k | 0 <= k < |qs[L3]| ensures qs[L3][k] != qs0[l][i] {}
    }

    /** Puts p, changed, into row l at entry i. */
    method PutBack(p: nat, l: nat, i: nat, new_: Proc)
      requires Shape() && p < NPROC && PlacedExcept(proc[..], qs, p) && p !in qs[L3] && PidsOk(proc[..], nextpid)
      requires proc[p].state != UNUSED && new_.state != UNUSED && new_.pid == proc[p].pid && new_.qlevel == l
      requires l < NQUEUES && i <= rear[l]
      modifies proc, slot, rear, this`qs
      ensures Valid() && qs == old(qs)[l := Inserted(old(qs[l]), i, p)] && proc[..] == old(proc[..])[p := new_]
      ensures old(Sorted()) && (l == L3 ==> IsPlace(old(proc[..]), old(qs[L3]), i, new_.priority)) ==> Sorted()
    {
      ghost var procs := proc[..];
      proc[p] := new_;
      assert proc[..] == procs[p := new_];
      PlacedPutBack(procs, nextpid, qs, p, l, i, new_);
      if old(Sorted()) { SortedPutBack(procs, qs[L3], p, l, i, new_); }
      InsertAt(l, i, p);
    }

    /** yield by the running process p; i is its place in the queue it leaves, k in QL3 if it goes there. `ok` is
        false where removePCB runs past the array: when every slot of the table is at the level p has to leave. */
    method Yield(p: nat) returns (ok: bool, ghost i: nat, ghost k: nat)
      requires Valid() && p < NPROC && proc[p].state == RUNNING
      modifies proc, slot, rear, this`qs
      ensures !ok <==>
        old(proc[p].qlevel) != MOQ && old(proc[p].timeslice) == 0 && old(Crowded(proc[..], proc[p].qlevel))
      ensures ok ==> Valid() && (old(Sorted()) ==> Sorted())
      ensures old(proc[p].qlevel) == MOQ ==>
        qs == old(qs) && proc[..] == old(proc[..])[p := old(proc[p]).(state := RUNNABLE)]
      ensures old(proc[p].qlevel) != MOQ && old(proc[p].timeslice) != 0 ==>
        qs == old(qs) && proc[..] == old(proc[..])[p := old(proc[p]).(timeslice := old(proc[p].timeslice) - 1)]
      ensures ok && old(proc[p].qlevel) == L0 && old(proc[p].timeslice) == 0 ==>
        FromL0(old(proc[..]), old(qs), proc[..], qs, p, i)
      ensures ok && L0 < old(proc[p].qlevel) < MOQ && old(proc[p].timeslice) == 0 ==>
        ToL3(old(proc[..]), old(qs), proc[..], qs, p, i, k)
    {
      var q := proc[p];
      ok, i, k := true, 0, 0;
      if q.qlevel == MOQ {
        SetState(p, RUNNABLE);
      } else if q.timeslice != 0 {
        Tick(p);
      } else if q.qlevel == L0 {
        ok, i := DemoteL0(p);
      } else {
        ok, i, k := DemoteToL3(p);
      }
    }

    method Tick(p: nat)
      requires Valid() && p < NPROC && proc[p].state != UNUSED && proc[p].timeslice > 0
      modifies proc
      ensures Valid() && (old(Sorted()) ==> Sorted())
      ensures proc[..] == old(proc[..])[p := old(proc[p]).(timeslice := old(proc[p].timeslice) - 1)]
    {
      ghost var procs := proc[..];
      proc[p] := proc[p].(timeslice := proc[p].timeslice - 1);
      assert proc[..] == procs[p := proc[p]];
      PlacedSameLevel(procs, qs, p, proc[p]);
    }

    method DemoteL0(p: nat) returns (ok: bool, ghost i: nat)
      requires Valid() && p < NPROC && proc[p].state != UNUSED && proc[p].qlevel == L0
      modifies proc, slot, rear, this`qs
      ensures ok <==> !old(Crowded(proc[..], L0))
      ensures ok ==> Valid() && (old(Sorted()) ==> Sorted()) && FromL0(old(proc[..]), old(qs), proc[..], qs, p, i)
    {
      var q := proc[p];
      ok, i := TakeOut(p);
      if !ok { return; }
      ghost var mid := qs;
      if q.pid % 2 == 0 {
        PutBack(p, L2, rear[L2], q.(qlevel := L2, timeslice := 6, state := RUNNABLE));
        assert Inserted(mid[L2], |mid[L2]|, p) == mid[L2] + [p];
      } else {
        PutBack(p, L1, rear[L1], q.(qlevel := L1, timeslice := 4, state := RUNNABLE));
        assert Inserted(mid[L1], |mid[L1]|, p) == mid[L1] + [p];
      }
    }

    method DemoteToL3(p: nat) returns (ok: bool, ghost i: nat, ghost k: nat)
      requires Valid() && p < NPROC && proc[p].state != UNUSED && L0 < proc[p].qlevel < MOQ
      modifies proc, slot, rear, this`qs
      ensures ok <==> !old(Crowded(proc[..], proc[p].qlevel))
      ensures ok ==> Valid() && (old(Sorted()) ==> Sorted()) && ToL3(old(proc[..]), old(qs), proc[..], qs, p, i, k)
    {
      var q := proc[p];
      var priority := Age(q);
      ok, i := TakeOut(p);
      if !ok { return ok, i, 0; }
      var at := FindPlace(priority);
      PutBack(p, L3, at, q.(qlevel := L3, timeslice := 8, priority := priority, state := RUNNABLE));
      k := at;
    }

    /** The priority that a process takes into QL3. */
    method Age(q: Proc) returns (priority: int)
      ensures priority == if q.qlevel == 3 && q.priority > 0 then q.priority - 1 else q.priority
    {
      priority := q.priority;
      if q.qlevel == L3 {
        if priority > 0 {
          priority := priority - 1;
        }
      }
    }

    /** yield's search of QL3. */
    method FindPlace(priority: int) returns (i: nat)
      requires Shape() && |proc[..]| == NPROC && forall k :: 0 <= k < |qs[L3]| ==> qs[L3][k] < NPROC
      ensures IsPlace(proc[..], qs[L3], i, priority)
    {
      i := 0;
      while i < rear[L3] && proc[slot[L3, i]].priority >= priority
        invariant i <= rear[L3]
        invariant forall k :: 0 <= k < i ==> proc[..][qs[L3][k]].priority >= priority
      {
        i := i + 1;
      }
    }

    /** wait: reaps a zombie child of cur, or reports -1, or sleeps. */
    method Wait(cur: nat, killed: bool) returns (sleeps: bool, r: int, ghost p: nat, ghost i: nat)
      requires Valid() && cur < NPROC
      modifies proc, slot, rear, this`qs
      ensures Valid() && (old(Sorted()) ==> Sorted())
      ensures !sleeps && r != -1 ==>
        && p < NPROC && old(proc[p].state) == ZOMBIE && old(proc[p].parent) == cur && r == old(proc[p].pid)
        && (forall c :: 0 <= c < p && old(proc[c].parent) == cur ==> old(proc[c].state) != ZOMBIE)
        && Leaves(old(proc[..]), old(qs), p, i, qs)
        && proc[..] == old(proc[..])[p := old(proc[p]).(state := UNUSED, pid := 0, parent := -1)]
        && SlotsBeyond(old(SlotsNow()))
      ensures sleeps || r == -1 ==>
        && qs == old(qs) && proc[..] == old(proc[..])
        && (forall c :: 0 <= c < NPROC && proc[c].parent == cur ==> proc[c].state != ZOMBIE)
        && (sleeps <==> !killed && exists c :: 0 <= c < NPROC && proc[c].parent == cur)
    {
      var havekids := false;
      var c := 0;
      sleeps, r, p, i := false, -1, 0, 0;
      while c < NPROC
        invariant c <= NPROC
        invariant havekids <==> exists k :: 0 <= k < c && proc[k].parent == cur
        invariant forall k :: 0 <= k < c && proc[k].parent == cur ==> proc[k].state != ZOMBIE
      {
        if proc[c].parent == cur {
          havekids := true;
          if proc[c].state == ZOMBIE {
            p := c;
            r, i := Reap(c);
            return;
          }
        }
        c := c + 1;
      }
      sleeps := havekids && !killed;
    }

    /** The reaping part of wait: frees slot p, then takes the first unused entry out of the queue it was in. */
    method Reap(p: nat) returns (pid: nat, ghost i: nat)
      requires Valid() && p < NPROC && proc[p].state == ZOMBIE
      modifies proc, slot, rear, this`qs
      ensures Valid() && (old(Sorted()) ==> Sorted()) && pid == old(proc[p].pid)
      ensures Leaves(old(proc[..]), old(qs), p, i, qs)
      ensures proc[..] == old(proc[..])[p := old(proc[p]).(state := UNUSED, pid := 0, parent := -1)]
      ensures SlotsBeyond(old(SlotsNow()))
    {
      hide PidsOk, PlacedExcept, Distinct;
      ghost var procs := proc[..];
      LevelOk(procs, qs, p);
      var l := proc[p].qlevel;
      pid := proc[p].pid;
      proc[p] := proc[p].(state := UNUSED, pid := 0, parent := -1);
      assert proc[..] == procs[p := proc[p]];
      var k := FirstUnused(procs, l, p);
      i := k;
      PlacedWithout(procs, qs, l, k);
      if old(Sorted()) { SortedReaped(procs, proc[..], qs[L3], if l == L3 then k else |qs[L3]|); }
      RemoveAt(l, k);
      PlacedUpdate(procs, qs, p, proc[p]);
      PidsReaped(procs, nextpid, p, proc[p]);
    }

    /** wait's scan of row l: only the process just reaped is unused there. */
    method FirstUnused(ghost procs: seq<Proc>, l: nat, ghost p: nat) returns (k: nat)
      requires Shape() && Placed(procs, qs) && p < NPROC && procs[p].state != UNUSED && procs[p].qlevel == l
      requires proc[p].state == UNUSED && proc[..] == procs[p := proc[p]]
      ensures k < |qs[l]| && qs[l][k] == p
    {
      ghost var at: nat :| at < |qs[l]| && qs[l][at] == p;
      k := 0;
      while k < rear[l] && proc[slot[l, k]].state != UNUSED
        invariant k <= at
      {
        k := k + 1;
      }
      assert procs[qs[l][k]].state != UNUSED;
    }

    /** setpriority */
    method Setpriority(pid: nat, priority: int) returns (r: int, ghost p: nat)
      requires Valid()
      modifies proc
      ensures Valid() && (r == -1 <==> forall k :: 0 <= k < NPROC ==> old(proc[k].pid) != pid)
      ensures r == -1 ==> proc[..] == old(proc[..])
      ensures r != -1 ==>
        && r == 0 && p < NPROC && old(proc[p].pid) == pid
        && (forall k :: 0 <= k < p ==> old(proc[k].pid) != pid)
        && proc[..] == old(proc[..])[p := old(proc[p]).(priority := priority)]
      ensures r != -1 && old(Sorted()) ==> (Sorted() <==> FitsQL3(old(proc[..]), qs[L3], p, priority))
    {
      p := 0;
      var k := 0;
      while k < NPROC && proc[k].pid != pid
        invariant k <= NPROC && forall j :: 0 <= j < k ==> proc[j].pid != pid
      {
        k := k + 1;
      }
      if k == NPROC {
        return -1, 0;
      }
      ghost var procs := proc[..];
      proc[k] := proc[k].(priority := priority);
      assert proc[..] == procs[k := proc[k]];
      p, r := k, 0;
      if procs[k].state == UNUSED {
        UnusedStays(procs, qs, k, proc[k]);
      } else {
        PlacedSameLevel(procs, qs, k, proc[k]);
      }
      if old(Sorted()) { SortedIffFits(procs, qs[L3], k, proc[k]); }
    }

    /** setmonopoly by process cur; `password` and `expected` are the given and the right password. */
    method Setmonopoly(cur: nat, pid: int, password: int, expected: int)
      returns (ok: bool, r: int, ghost p: nat, ghost i: nat)
      requires Valid() && cur < NPROC
      modifies proc, slot, rear, this`qs
      ensures password != expected ==> ok && r == -2
      ensures password == expected && old(proc[cur].pid) == pid ==> ok && r == -4
      ensures password == expected && old(proc[cur].pid) != pid ==>
        if forall k :: 0 <= k < NPROC ==> old(proc[k].pid) != pid then ok && r == -1
        else
          && p < NPROC && old(proc[p].pid) == pid && (forall k :: 0 <= k < p ==> old(proc[k].pid) != pid)
          && MovedToMoq(old(proc[..]), old(qs), proc[..], qs, p, i, old(LeftBehind(proc[p].qlevel, pid)), ok, r)
      ensures ok ==> Shape()
      ensures ok && Placed(proc[..], qs) ==> Valid() && (old(Sorted()) ==> Sorted())
      ensures ok && r < 0 ==> qs == old(qs) && proc[..] == old(proc[..])
    {
      hide Placed, PlacedExcept, PidsOk, Crowded, Monopolized, LosesLast;
      ok, p, i := true, 0, 0;
      if password != expected {
        return ok, -2, p, i;
      }
      if pid == proc[cur].pid {
        return ok, -4, p, i;
      }
      var k := 0;
      while k < NPROC && proc[k].pid != pid
        invariant k <= NPROC && forall j :: 0 <= j < k ==> proc[j].pid != pid
      {
        k := k + 1;
      }
      if k == NPROC {
        return ok, -1, p, i;
      }
      p := k;
      LevelOk(proc[..], qs, k);
      var there := InMoq(k);
      if there {
        return ok, -3, p, i;
      }
      if proc[k].qlevel < MOQ {
        ok, i := MoveToMoq(k);
      } else {
        AdmitToMoq(k);
      }
      r := rear[MOQ];
    }

    /** setmonopoly's search of moq for the pid of p. */
    method InMoq(p: nat) returns (there: bool)
      requires Valid() && p < NPROC
      ensures there <==> proc[p].state != UNUSED && proc[p].qlevel == MOQ
    {
      var i := 0;
      while i < rear[MOQ] && proc[slot[MOQ, i]].pid != proc[p].pid
        invariant i <= rear[MOQ] && forall k :: 0 <= k < i ==> qs[MOQ][k] != p
      {
        i := i + 1;
      }
      there := i < rear[MOQ];
      if there {
        ghost var o := qs[MOQ][i];
        assert proc[..][o].state != UNUSED && proc[..][o].pid == proc[..][p].pid;
      }
    }

    /** setmonopoly's move of p from the queue of its level to moq. */
    method MoveToMoq(p: nat) returns (ok: bool, ghost i: nat)
      requires Valid() && p < NPROC && proc[p].qlevel < MOQ
      modifies proc, slot, rear, this`qs
      ensures ok <==> if old(proc[p].state) != UNUSED then !old(Crowded(proc[..], proc[p].qlevel))
                      else old(LeftBehind(proc[p].qlevel, proc[p].pid))
      ensures ok ==> Shape() && rear[MOQ] > 0
      ensures ok && old(proc[p].state) != UNUSED ==>
        Valid() && (old(Sorted()) ==> Sorted()) && Monopolized(old(proc[..]), old(qs), proc[..], qs, p, i)
      ensures ok && old(proc[p].state) == UNUSED ==>
        && LosesLast(old(proc[..]), old(qs), proc[..], qs, p, old(proc[p].qlevel))
        && !Placed(proc[..], qs)
    {
      hide Placed, PlacedExcept, PidsOk, Crowded, LeftBehind;
      ghost var procs, before := proc[..], qs;
      ghost var l := proc[p].qlevel;
      ok, i := RemovePCB(proc[p].qlevel, p);
      if ok {
        ghost var mid := qs;
        RoomInMoq(procs, before, mid, p, l, i);
        EnterMoq(p);
        if procs[p].state != UNUSED {
          Moved(procs, before, mid, p, l, i);
        } else {
          assert Without(before[l], i) == before[l][..|before[l]| - 1];
        }
      }
    }

    lemma Moved(procs: seq<Proc>, qs0: seq<Queue>, mid: seq<Queue>, p: nat, l: nat, i: nat)
      requires |procs| == NPROC && Placed(procs, qs0) && PidsOk(procs, nextpid) && l < MOQ && i < |qs0[l]|
      requires p < NPROC && procs[p].state != UNUSED && procs[p].qlevel == l && qs0[l][i] == p
      requires mid == qs0[l := Without(qs0[l], i)] && qs == mid[MOQ := mid[MOQ] + [p]]
      requires proc.Length == NPROC && proc[..] == procs[p := procs[p].(qlevel := MOQ)]
      ensures Placed(proc[..], qs) && PidsOk(proc[..], nextpid) && Monopolized(procs, qs0, proc[..], qs, p, i)
      ensures ByPriority(procs, qs0[L3]) ==> ByPriority(proc[..], qs[L3])
    {
      PlacedWithout(procs, qs0, l, i);
      PlacedPutBack(procs, nextpid, mid, p, MOQ, |mid[MOQ]|, proc[p]);
      assert Inserted(mid[MOQ], |mid[MOQ]|, p) == mid[MOQ] + [p];
      if ByPriority(procs, qs0[L3]) {
        if l == L3 { ByPriorityWithout(procs, qs0[L3], i); }
        forall k | 0 <= k < |mid[L3]| ensures mid[L3][k] != p && mid[L3][k] < NPROC {}
        ByPriorityElsewhere(procs, mid[L3], p, proc[p]);
      }
    }

    /** What setmonopoly does with an unused slot whose level is that of moq. */
    method AdmitToMoq(p: nat)
      requires Valid() && p < NPROC && proc[p].state == UNUSED
      modifies proc, slot, rear, this`qs
      ensures Shape() && !Placed(proc[..], qs) && qs == old(qs)[MOQ := old(qs[MOQ]) + [p]]
      ensures proc[..] == old(proc[..])[p := old(proc[p]).(qlevel := MOQ)]
    {
      FullQueue(proc[..], qs, MOQ);
      assert proc[..][p].state == UNUSED;
      EnterMoq(p);
    }

    /** p enters moq at its rear. */
    method EnterMoq(p: nat)
      requires Shape() && p < NPROC && rear[MOQ] < NPROC
      modifies proc, slot, rear, this`qs
      ensures Shape() && qs == old(qs)[MOQ := old(qs[MOQ]) + [p]] && rear[MOQ] > 0
      ensures proc[..] == old(proc[..])[p := old(proc[p]).(qlevel := MOQ)]
      ensures old(proc[p].state) == UNUSED ==> !Placed(proc[..], qs)
    {
      ghost var procs := proc[..];
      proc[p] := proc[p].(qlevel := MOQ);
      assert proc[..] == procs[p := proc[p]];
      Append(MOQ, p);
      assert qs[MOQ][|qs[MOQ]| - 1] == p && proc[..][p] == proc[p];
    }

    /** Part way through boost's loop over row l: `view` counts the first i entries of the row in QL0 only. */
    ghost predicate Moving(l: nat, i: nat, row: Queue, view: seq<Queue>)
      reads this, proc, slot, rear
    {
      && proc.Length == NPROC && slot.Length0 == NQUEUES && slot.Length1 == NPROC && rear.Length == NQUEUES
      && |qs| == NQUEUES && L0 < l < MOQ && row == qs[l] && i <= |row|
      && view == qs[L0 := qs[L0] + row[..i]][l := row[i..]]
      && (rear[L0] == |view[L0]| <= NPROC) && (forall k :: 0 <= k < |view[L0]| ==> slot[L0, k] == view[L0][k])
      && (forall m :: 0 < m < NQUEUES ==> rear[m] == |qs[m]| <= NPROC)
      && (forall m, k :: 0 < m < NQUEUES && 0 <= k < |qs[m]| ==> slot[m, k] == qs[m][k])
      && Placed(proc[..], view) && PidsOk(proc[..], nextpid)
    }

    method MoveOne(l: nat, i: nat, ghost row: Queue, ghost view: seq<Queue>) returns (ghost view': seq<Queue>)
      requires Moving(l, i, row, view) && i < |row|
      modifies proc, slot, rear
      ensures Moving(l, i + 1, row, view') && row[i] < NPROC && |old(proc[..])| == NPROC
      ensures proc[..] == old(proc[..])[row[i] := old(proc[row[i]]).(timeslice := 2, qlevel := L0)]
    {
      ghost var before := proc[..];
      view' := MovingStep(before, nextpid, qs, l, i, row, view);
      var p := slot[l, i];
      slot[L0, rear[L0]] := p;
      proc[p] := proc[p].(timeslice := 2, qlevel := L0);
      rear[L0] := rear[L0] + 1;
      assert proc[..] == before[p := proc[p]];
    }

    /** boost's loop over row l. */
    method MoveAll(l: nat, ghost row: Queue) returns (ghost view: seq<Queue>)
      requires Valid() && L0 < l < MOQ && row == qs[l]
      modifies proc, slot, rear
      ensures Moving(l, |row|, row, view) && |old(proc[..])| == NPROC
      ensures proc[..] == Boosted(old(proc[..]), row)
    {
      ghost var procs := proc[..];
      view := qs;
      assert qs[L0] + row[..0] == qs[L0] && row[0..] == row;
      assert view == qs[L0 := qs[L0] + row[..0]][l := row[0..]];
      assert proc[..] == Boosted(procs, row[..0]);
      var i := 0;
      while i < rear[l]
        invariant i <= |row| && Moving(l, i, row, view)
        invariant proc[..] == Boosted(procs, row[..i])
      {
        RowEntry(procs, row, i, proc[..], view, l);
        view := MoveOne(l, i, row, view);
        i := i + 1;
      }
      assert row[..i] == row;
    }

    method EmptyRow(l: nat, ghost row: Queue, ghost view: seq<Queue>)
      requires Moving(l, |row|, row, view)
      modifies rear, this`qs
      ensures Valid() && qs == old(qs)[L0 := old(qs[L0]) + row][l := []]
    {
      assert row[..|row|] == row && row[|row|..] == [];
      rear[l] := 0;
      qs := view;
    }

    /** The same, with the row emptied at its end. */
    method MoveToL0(l: nat)
      requires Valid() && L0 < l < MOQ
      modifies proc, slot, rear, this`qs
      ensures Valid() && qs == old(qs)[L0 := old(qs[L0]) + old(qs[l])][l := []]
      ensures proc[..] == Boosted(old(proc[..]), old(qs[l]))
      ensures old(Sorted()) ==> Sorted()
    {
      ghost var procs, q := proc[..], qs;
      ghost var view := MoveAll(l, q[l]);
      EmptyRow(l, q[l], view);
      if ByPriority(procs, q[L3]) { SortedBoosted(procs, q[l], q[L3]); }
    }

    /** boost */
    method Boost(ticks: nat)
      requires Valid()
      modifies proc, slot, rear, this`qs
      ensures Valid() && (old(Sorted()) ==> Sorted())
      ensures ticks % 100 != 0 ==> qs == old(qs) && proc[..] == old(proc[..])
      ensures ticks % 100 == 0 ==> qs == [old(qs[L0]) + Lower(old(qs)), [], [], [], old(qs[MOQ])]
      ensures ticks % 100 == 0 ==> proc[..] == Boosted(old(proc[..]), Lower(old(qs)))
    {
      if ticks % 100 == 0 {
        ghost var procs, q := proc[..], qs;
        MoveToL0(L1);
        ghost var q1 := qs;
        MoveToL0(L2);
        BoostedConcat(procs, q[L1], q[L2]);
        ghost var q2 := qs;
        MoveToL0(L3);
        BoostedConcat(procs, q[L1] + q[L2], q[L3]);
        BoostedQueues(q, q1, q2, qs);
      }
    }

    /** checkQueue and the search of levelSchedule: the first runnable process of row l. */
    method FirstRunnable(l: nat) returns (found: bool, p: nat)
      requires Valid() && l < NQUEUES
      ensures !found ==> forall i :: 0 <= i < |qs[l]| && qs[l][i] < |proc[..]| ==> proc[..][qs[l][i]].state != RUNNABLE
      ensures found ==> FirstRunnableIs(proc[..], qs[l], p)
    {
      var i := 0;
      p := 0;
      while i < rear[l] && proc[slot[l, i]].state != RUNNABLE
        invariant i <= rear[l] && forall k :: 0 <= k < i ==> proc[..][qs[l][k]].state != RUNNABLE
      {
        i := i + 1;
      }
      found := i < rear[l];
      if found {
        p := slot[l, i];
        assert IsFirstRunnable(proc[..], qs[l], i);
      }
    }

    /** The search of one round of the scheduler's loop in MLFQ mode: the levels in turn, from the top. */
    method Choose() returns (found: bool, p: nat)
      requires Valid()
      ensures found ==> IsBest(proc[..], qs, p) && (Sorted() ==> IsHighest(proc[..], qs, p))
      ensures !found ==> NoneRunnableIn(proc[..], false)
    {
      var l := 0;
      found, p := false, 0;
      while l < MOQ
        invariant l <= MOQ && NoneRunnable(proc[..], qs, l)
      {
        found, p := FirstRunnable(l);
        if found {
          ghost var i: nat :| IsFirstRunnable(proc[..], qs[l], i) && qs[l][i] == p;
          DispatchedIsBest(proc[..], qs, l, i);
          return;
        }
        l := l + 1;
      }
      NothingRunnable(proc[..], qs);
    }

    /** One round of the scheduler's loop: the process it dispatches, if any. In MoQ mode it is the first
        runnable one of moq. */
    method Dispatch() returns (found: bool, p: nat)
      requires Valid()
      modifies proc
      ensures Valid() && (old(Sorted()) ==> Sorted())
      ensures found ==> p < NPROC && proc[..] == old(proc[..])[p := old(proc[p]).(state := RUNNING)]
      ensures found && mode != 1 ==> IsBest(old(proc[..]), qs, p) && (old(Sorted()) ==> IsHighest(old(proc[..]), qs, p))
      ensures found && mode == 1 ==> FirstRunnableIs(old(proc[..]), qs[MOQ], p)
      ensures !found ==> proc[..] == old(proc[..]) && NoneRunnableIn(proc[..], mode == 1)
    {
      if mode == 1 {
        found, p := FirstRunnable(MOQ);
        if !found { NothingInMoq(proc[..], qs); }
      } else {
        found, p := Choose();
      }
      if found {
        SetState(p, RUNNING);
      }
    }
  }

  /** Slot r as pinit leaves it. */
  ghost predicate Fresh(procs: seq<Proc>, r: nat) {
    r < |procs| && procs[r] == Proc(UNUSED, 0, -1, 0, 0, 0)
  }

  /** Process p is the first one and runnable; c is its child and has exited, and there are no others. */
  method OnlyChild() returns (table: Ptable, p: nat, c: nat)
    ensures fresh(table) && fresh(table.proc) && fresh(table.slot) && fresh(table.rear) && table.Valid()
    ensures p < NPROC && c < NPROC && p != c && table.qs == [[p, c], [], [], [], []]
    ensures table.proc[..][p] == Proc(RUNNABLE, 1, -1, L0, 0, 2)
    ensures table.proc[..][c].state == ZOMBIE && table.proc[..][c].parent == p && table.proc[..][c].qlevel == L0
    ensures forall r: nat {:trigger Fresh(table.proc[..], r)} :: r < NPROC && r != p && r != c ==>
      Fresh(table.proc[..], r)
  {
    hide Placed, PidsOk;
    table := new Ptable();
    var ok;
    ghost var q0 := table.qs;
    assert Fresh(table.proc[..], 0);
    ok, p := table.Allocproc(true);
    QueuedLast(q0, [], p, table.qs);
    table.SetState(p, RUNNABLE);
    ghost var procs := table.proc[..];
    assert procs[p] == Proc(RUNNABLE, 1, -1, L0, 0, 2);
    assert forall r: nat {:trigger Fresh(procs, r)} :: r < NPROC && r != p ==> Fresh(procs, r);
    assert Fresh(procs, 1);
    ghost var q1 := table.qs;
    ok, c := table.Allocproc(true);
    QueuedLast(q1, [p], c, table.qs);
    table.Start(c, p);
    table.SetState(c, ZOMBIE);
  }

  lemma QueuedLast(q0: seq<Queue>, row: Queue, p: nat, q1: seq<Queue>)
    requires q0 == [row, [], [], [], []] && q1 == q0[L0 := q0[L0] + [p]]
    ensures q1 == [row + [p], [], [], [], []]
    ensures row == [] ==> q1 == [[p], [], [], [], []]
    ensures |row| == 1 ==> q1 == [[row[0], p], [], [], [], []]
  {
    assert row == [] ==> row + [p] == [p];
    assert |row| == 1 ==> row + [p] == [row[0], p];
  }

  /** The child has been reaped; its pointer is left behind. */
  method OnlyChildReaped() returns (table: Ptable, p: nat, c: nat)
    ensures fresh(table) && fresh(table.proc) && fresh(table.slot) && fresh(table.rear) && table.Valid()
    ensures p < NPROC && c < NPROC && p != c && table.qs == [[p], [], [], [], []] && table.slot[L0, 1] == c
    ensures table.proc[p].state == RUNNABLE && table.proc[p].pid == 1
    ensures forall r :: 0 <= r < NPROC && r != p ==>
      table.proc[r].state == UNUSED && table.proc[r].pid == 0 && table.proc[r].qlevel == L0
  {
    hide Placed, PidsOk, Distinct;
    table, p, c := OnlyChild();
    ghost var procs := table.proc[..];
    assert table.slot[L0, 1] == table.qs[L0][1] == c;
    assert table.proc[c] == procs[c];
    var sleeps, r, z, i := table.Wait(p, false);
    assert z != c ==> z == p || Fresh(procs, z);
    assert z == c && i == 1 && Without([p, c], 1) == [p];
    forall r | 0 <= r < NPROC
      ensures table.proc[r] == if r == c then procs[c].(state := UNUSED, pid := 0, parent := -1) else procs[r]
    {
      assert table.proc[r] == table.proc[..][r];
    }
    forall r | 0 <= r < NPROC && r != p
      ensures table.proc[r].state == UNUSED && table.proc[r].pid == 0 && table.proc[r].qlevel == L0
    {
      assert r != c ==> Fresh(procs, r);
    }
  }

  /** setmonopoly for the pid 0, which unused slots have, then costs p its place: it is runnable, but in no queue. */
  method MonopolyLosesProcess() returns (table: Ptable, p: nat)
    ensures fresh(table) && table.Shape() && p < NPROC && table.proc[p].state == RUNNABLE
    ensures forall l :: 0 <= l < NQUEUES ==> p !in table.qs[l]
  {
    hide Placed, PidsOk;
    var c;
    table, p, c := OnlyChildReaped();
    assert table.StaleAt(L0, 0, 1);
    ghost var procs := table.proc[..];
    assert procs[p].state == RUNNABLE && procs[c].pid == 0;
    var ok, m, x, y := table.Setmonopoly(p, 0, 0, 0);
    assert procs[x].state == UNUSED && procs[x].qlevel == L0;
    assert table.proc[..] == procs[x := procs[x].(qlevel := MOQ)];
    assert table.proc[p] == table.proc[..][p];
  }

  /** A process that is not queued, or has just left its queue, leaves room for itself in moq. */
  lemma RoomInMoq(procs: seq<Proc>, qs: seq<Queue>, mid: seq<Queue>, p: nat, l: nat, i: nat)
    requires Placed(procs, qs) && p < NPROC && l < MOQ && i < |qs[l]| && mid == qs[l := Without(qs[l], i)]
    requires procs[p].state == UNUSED || procs[p].qlevel == l
    ensures |mid[MOQ]| < NPROC
  {
    FullQueue(procs, qs, MOQ);
  }

  lemma SortedReaped(procs: seq<Proc>, procs': seq<Proc>, q: Queue, i: nat)
    requires ByPriority(procs, q) && |procs| == |procs'|
    requires forall p :: 0 <= p < |procs| ==> procs'[p].priority == procs[p].priority
    ensures ByPriority(procs', if i < |q| then Without(q, i) else q)
  {
    if i < |q| { ByPriorityWithout(procs, q, i); }
    SortedSamePriority(procs, procs', if i < |q| then Without(q, i) else q);
  }

  lemma SortedSamePriority(procs: seq<Proc>, procs': seq<Proc>, q: Queue)
    requires ByPriority(procs, q) && |procs| == |procs'|
    requires forall p :: 0 <= p < |procs| ==> procs'[p].priority == procs[p].priority
    ensures ByPriority(procs', q)
  {
  }

  /** A priority for process p that is between those of its neighbours in QL3, if it is there. */
  ghost predicate FitsQL3(procs: seq<Proc>, q: Queue, p: nat, priority: int) {
    forall i :: 0 <= i < |q| && q[i] == p ==>
      && (i > 0 && q[i - 1] < |procs| ==> procs[q[i - 1]].priority >= priority)
      && (i + 1 < |q| && q[i + 1] < |procs| ==> priority >= procs[q[i + 1]].priority)
  }

  lemma SortedIffFits(procs: seq<Proc>, q: Queue, p: nat, new_: Proc)
    requires p < |procs| && ByPriority(procs, q) && Distinct(q) && forall k :: 0 <= k < |q| ==> q[k] < |procs|
    ensures ByPriority(procs[p := new_], q) <==> FitsQL3(procs, q, p, new_.priority)
  {
    var r := procs[p := new_];
    if ByPriority(r, q) {
      forall i | 0 <= i < |q| && q[i] == p
        ensures i > 0 ==> procs[q[i - 1]].priority >= new_.priority
        ensures i + 1 < |q| ==> new_.priority >= procs[q[i + 1]].priority
      {
        assert i > 0 ==> r[q[i - 1]] == procs[q[i - 1]];
        assert i + 1 < |q| ==> r[q[i + 1]] == procs[q[i + 1]];
      }
    }
    if FitsQL3(procs, q, p, new_.priority) {
      forall i, j | 0 <= i < j < |q| ensures r[q[i]].priority >= r[q[j]].priority {
        if q[j] == p { assert i < j - 1 ==> procs[q[i]].priority >= procs[q[j - 1]].priority; }
        if q[i] == p { assert i + 1 < j ==> procs[q[i + 1]].priority >= procs[q[j]].priority; }
      }
    }
  }
}
