/** The N-thread filter lock of Project3_Locking/pthread_lock_linux_patterson.c, as a transition
    system in which every read or write of shared memory (Flag, Turn, shared_resource) is one step.
    Threads are numbered from 0 here; `idx` of the program is the thread number plus one. */
module FilterLock {
  import opened Collections

  /** Where a thread stands: outside the lock, at one of the shared accesses of `lock`, at the two
      accesses of `shared_resource++`, or at the write that unlocks. */
  datatype Pc =
    | Idle
    | SetFlag(level: nat)                     // about to write Flag[idx-1] = i
    | SetTurn(level: nat)                     // about to write Turn[i-1] = idx
    | TestTurn(level: nat)                    // about to read Turn[i-1]
    | Scan(level: nat, j: nat, gobreak: bool) // about to read Flag[j]
    | Load(k: nat)                            // critical section, about to read shared_resource
    | Store(k: nat, tmp: nat)                 // critical section, about to write tmp + 1
    | Unlock                                  // about to write Flag[idx-1] = 0

  /** The shared memory and the program counters. `iters` is NUM_ITERS; `done` counts finished increments. */
  datatype State = State(flag: seq<nat>, turn: seq<nat>, pc: seq<Pc>, shared: nat, iters: nat, done: nat) {

    predicate WellFormed() {
      && |flag| == |turn| == |pc|
      && forall p :: 0 <= p < |pc| ==> PcInRange(pc[p])
    }

    predicate PcInRange(c: Pc) {
      match c
      case SetFlag(i) => 1 <= i <= |pc|
      case SetTurn(i) => 1 <= i <= |pc|
      case TestTurn(i) => 1 <= i <= |pc|
      case Scan(i, j, _) => 1 <= i <= |pc| && j <= |pc|
      case _ => true
    }

    /** Leaving the wait loop of level i. */
    function Advance(i: nat): Pc {
      if i < |pc| then SetFlag(i + 1) else Load(0)
    }

    /** One atomic step of thread p. */
    function Step(p: nat): State
      requires WellFormed() && p < |pc|
    {
      match pc[p]
      case Idle => this.(pc := pc[p := SetFlag(1)])
      case SetFlag(i) => this.(flag := flag[p := i], pc := pc[p := SetTurn(i)])
      case SetTurn(i) => this.(turn := turn[i - 1 := p + 1], pc := pc[p := TestTurn(i)])
      case TestTurn(i) =>
        this.(pc := pc[p := if turn[i - 1] != p + 1 then Advance(i) else Scan(i, 0, true)])
      case Scan(i, j, gobreak) =>
        if j < |pc| then
          this.(pc := pc[p := Scan(i, j + 1, gobreak && (j == p || flag[j] < i))])
        else
          this.(pc := pc[p := if gobreak then Advance(i) else TestTurn(i)])
      case Load(k) => this.(pc := pc[p := if k < iters then Store(k, shared) else Unlock])
      case Store(k, tmp) => this.(shared := tmp + 1, done := done + 1, pc := pc[p := Load(k + 1)])
      case Unlock => this.(flag := flag[p := 0], pc := pc[p := Idle])
    }

    predicate InCritical(p: nat)
      requires p < |pc|
    {
      pc[p].Load? || pc[p].Store? || pc[p].Unlock?
    }

    /** Thread p is between the start of `lock` and its return. */
    predicate InLock(p: nat)
      requires p < |pc|
    {
      !pc[p].Idle? && !InCritical(p)
    }

    /** Thread p has left the wait loop of level k. */
    predicate Past(p: nat, k: nat)
      requires p < |pc|
    {
      InCritical(p) || (InLock(p) && pc[p].level > k)
    }

    /** Thread p has written Turn[k-1] in its current attempt and has not unlocked. */
    predicate Competes(p: nat, k: nat)
      requires p < |pc|
    {
      Past(p, k) || ((pc[p].TestTurn? || pc[p].Scan?) && pc[p].level == k)
    }

    ghost function PastSet(k: nat): (r: set<nat>) {
      set p: nat | p < |pc| && Past(p, k)
    }

    /** Thread p waits at a level: it was the last to arrive there and another thread is at least as far. */
    predicate Stuck(p: nat)
      requires WellFormed() && p < |pc|
    {
      && (pc[p].TestTurn? || pc[p].Scan?)
      && turn[pc[p].level - 1] == p + 1
      && exists j :: 0 <= j < |pc| && j != p && flag[j] >= pc[p].level
    }
  }

  function Init(n: nat, iters: nat): State {
    State(seq(n, _ => 0), seq(n, _ => 0), seq(n, _ => Idle), 0, iters, 0)
  }

  /** The state after the threads named by `schedule` each take one step, in that order. */
  ghost function Run(s: State, schedule: seq<nat>): State
    requires s.WellFormed() && IsSchedule(schedule, |s.pc|)
    ensures Run(s, schedule).WellFormed() && |Run(s, schedule).pc| == |s.pc|
  {
    if schedule == [] then s
    else
      var last := |schedule| - 1;
      WellFormedStep(Run(s, schedule[..last]), schedule[last]);
      Run(s, schedule[..last]).Step(schedule[last])
  }

  ghost predicate IsSchedule(schedule: seq<nat>, n: nat) {
    forall i :: 0 <= i < |schedule| ==> schedule[i] < n
  }

  // ---------- The inductive invariant ----------

  /** The flag a thread's program counter determines. */
  predicate FlagOk(s: State, p: nat)
    requires s.WellFormed() && p < |s.pc|
  {
    match s.pc[p]
    case Idle => s.flag[p] == 0
    case SetFlag(i) => s.flag[p] == i - 1
    case SetTurn(i) => s.flag[p] == i
    case TestTurn(i) => s.flag[p] == i
    case Scan(i, _, _) => s.flag[p] == i
    case _ => s.flag[p] == |s.pc|
  }

  /** Level k as seen by a pair of threads. First: a scanner that found q below k, with q since arrived,
      is no longer the last arrival. Second: the same once p is past k. */
  predicate PairOk(s: State, p: nat, q: nat, k: nat)
    requires s.WellFormed() && p < |s.pc| && q < |s.pc| && 1 <= k <= |s.pc|
  {
    p != q && s.Competes(q, k) ==>
      && (s.pc[p].Scan? && s.pc[p].level == k && s.pc[p].gobreak && q < s.pc[p].j ==> s.turn[k - 1] != p + 1)
      && (s.Past(p, k) ==> s.turn[k - 1] != p + 1)
  }

  /** Whenever somebody competes at level k, the last arrival at k is a competitor. */
  predicate TurnOk(s: State, q: nat, k: nat)
    requires s.WellFormed() && q < |s.pc| && 1 <= k <= |s.pc|
  {
    s.Competes(q, k) ==>
      1 <= s.turn[k - 1] <= |s.pc| && s.Competes(s.turn[k - 1] - 1, k)
  }

  ghost predicate Inv(s: State) {
    && s.WellFormed()
    && (forall p: nat :: p < |s.pc| ==> FlagOk(s, p))
    && (forall p: nat, q: nat, k: nat :: p < |s.pc| && q < |s.pc| && 1 <= k <= |s.pc| ==> PairOk(s, p, q, k))
    && (forall q: nat, k: nat :: q < |s.pc| && 1 <= k <= |s.pc| ==> TurnOk(s, q, k))
  }

  lemma WellFormedStep(s: State, p: nat)
    requires s.WellFormed() && p < |s.pc|
    ensures s.Step(p).WellFormed() && |s.flag| == |s.turn| == |s.pc| && s.PcInRange(s.pc[p])
  {
    forall q | 0 <= q < |s.pc| ensures s.PcInRange(s.Step(p).pc[q]) { assert s.PcInRange(s.pc[q]); }
  }

  lemma FlagOkStep(s: State, p: nat, q: nat)
    requires s.WellFormed() && p < |s.pc| && q < |s.pc| && FlagOk(s, q)
    ensures FlagOk(s.Step(p), q)
  {
  }

  /** What one step of p can change about competing at and being past level k. */
  lemma CompetesStep(s: State, p: nat, q: nat, k: nat)
    requires s.WellFormed() && p < |s.pc| && q < |s.pc| && 1 <= k <= |s.pc|
    ensures q != p ==> s.Step(p).Competes(q, k) == s.Competes(q, k) && s.Step(p).Past(q, k) == s.Past(q, k)
    ensures s.Step(p).Competes(p, k) ==> s.Competes(p, k) || s.pc[p] == SetTurn(k)
    ensures s.Competes(p, k) && !s.Step(p).Competes(p, k) ==> s.pc[p].Unlock?
  {
  }

  lemma PairOkStep(s: State, p: nat, a: nat, b: nat, k: nat)
    requires s.WellFormed() && p < |s.pc| && a < |s.pc| && b < |s.pc| && 1 <= k <= |s.pc|
    requires PairOk(s, a, b, k) && FlagOk(s, b)
    ensures PairOk(s.Step(p), a, b, k)
  {
    CompetesStep(s, p, a, k);
    CompetesStep(s, p, b, k);
    if p == a && s.pc[p].Scan? && s.Competes(b, k) {
      assert s.flag[b] >= k;
    }
  }

  lemma TurnOkStep(s: State, p: nat, q: nat, k: nat)
    requires s.WellFormed() && p < |s.pc| && q < |s.pc| && 1 <= k <= |s.pc|
    requires TurnOk(s, q, k) && PairOk(s, p, q, k)
    ensures TurnOk(s.Step(p), q, k)
  {
    CompetesStep(s, p, q, k);
    CompetesStep(s, p, p, k);
    if s.Competes(q, k) { CompetesStep(s, p, s.turn[k - 1] - 1, k); }
  }

  lemma InvStep(s: State, p: nat)
    requires Inv(s) && p < |s.pc|
    ensures Inv(s.Step(p))
  {
    var t := s.Step(p);
    forall q: nat | q < |t.pc| ensures FlagOk(t, q) { FlagOkStep(s, p, q); }
    forall a: nat, b: nat, k: nat | a < |t.pc| && b < |t.pc| && 1 <= k <= |t.pc| ensures PairOk(t, a, b, k) {
      PairOkStep(s, p, a, b, k);
    }
    forall q: nat, k: nat | q < |t.pc| && 1 <= k <= |t.pc| ensures TurnOk(t, q, k) {
      TurnOkStep(s, p, q, k);
    }
  }

  lemma {:induction false} InvRun(n: nat, iters: nat, schedule: seq<nat>)
    requires IsSchedule(schedule, n)
    ensures Inv(Run(Init(n, iters), schedule))
  {
    if schedule != [] {
      var last := |schedule| - 1;
      InvRun(n, iters, schedule[..last]);
      InvStep(Run(Init(n, iters), schedule[..last]), schedule[last]);
    }
  }

  // ---------- At most max(1, N - k) threads are past level k ----------

  lemma PastSetShrinks(s: State, k: nat)
    requires Inv(s) && 1 <= k <= |s.pc|
    ensures |s.PastSet(k)| <= 1 || |s.PastSet(k)| < |s.PastSet(k - 1)|
  {
    var w, v := s.PastSet(k), s.PastSet(k - 1);
    assert w <= v;
    SubsetSize(w, v);
    if |w| > 1 {
      var p :| p in w;
      assert w != {p} by { assert |{p}| == 1; }
      var q :| q in w && q != p;
      assert TurnOk(s, q, k);
      var last := s.turn[k - 1] - 1;
      if last in w {
        var other := if last == p then q else p;
        assert PairOk(s, last, other, k);
      }
      assert last in v;
    }
  }

  lemma {:induction false} PastBound(s: State, k: nat)
    requires Inv(s) && k <= |s.pc|
    ensures |s.PastSet(k)| <= if |s.pc| - k > 1 then |s.pc| - k else 1
  {
    if k == 0 {
      BoundedSize(s.PastSet(0), |s.pc|);
    } else {
      PastBound(s, k - 1);
      PastSetShrinks(s, k);
    }
  }

  lemma {:induction false} BoundedSize(a: set<nat>, n: nat)
    requires forall x :: x in a ==> x < n
    ensures |a| <= n
  {
    if n > 0 {
      BoundedSize(a - {n - 1}, n - 1);
      SubsetSize(a, (a - {n - 1}) + {n - 1});
    }
  }

  /** At every level k of every reachable state at most max(1, N - k) threads have left that level's wait loop. */
  lemma LevelBound(n: nat, iters: nat, schedule: seq<nat>, k: nat)
    requires IsSchedule(schedule, n) && k <= n
    ensures |Run(Init(n, iters), schedule).PastSet(k)| <= if n - k > 1 then n - k else 1
  {
    InvRun(n, iters, schedule);
    PastBound(Run(Init(n, iters), schedule), k);
  }

  lemma InvMutex(s: State, p: nat, q: nat)
    requires Inv(s) && p < |s.pc| && q < |s.pc|
    requires s.InCritical(p) && s.InCritical(q)
    ensures p == q
  {
    PastBound(s, |s.pc|);
    if p != q {
      assert {p, q} <= s.PastSet(|s.pc|);
      SubsetSize({p, q}, s.PastSet(|s.pc|));
    }
  }

  /** Mutual exclusion for every number of threads and every interleaving. */
  lemma MutualExclusion(n: nat, iters: nat, schedule: seq<nat>, p: nat, q: nat)
    requires IsSchedule(schedule, n) && p < n && q < n
    requires Run(Init(n, iters), schedule).InCritical(p) && Run(Init(n, iters), schedule).InCritical(q)
    ensures p == q
  {
    InvRun(n, iters, schedule);
    InvMutex(Run(Init(n, iters), schedule), p, q);
  }

  // ---------- No increment is lost ----------

  ghost predicate CounterOk(s: State) {
    && s.shared == s.done
    && forall p: nat :: p < |s.pc| && s.pc[p].Store? ==> s.pc[p].tmp == s.shared
  }

  /** shared_resource always equals the number of finished increments, although each increment
      is a separate read and write. */
  lemma {:induction false} NoLostUpdate(n: nat, iters: nat, schedule: seq<nat>)
    requires IsSchedule(schedule, n)
    ensures CounterOk(Run(Init(n, iters), schedule))
  {
    if schedule != [] {
      var last := |schedule| - 1;
      NoLostUpdate(n, iters, schedule[..last]);
      InvRun(n, iters, schedule[..last]);
      var s, p := Run(Init(n, iters), schedule[..last]), schedule[last];
      forall q: nat | q < n && q != p && s.pc[q].Store? ensures !s.pc[p].Store? {
        if s.pc[p].Store? { InvMutex(s, p, q); }
      }
    }
  }

  // ---------- Increments ----------

  /** How often some thread has unlocked. */
  ghost function Passes(s: State, schedule: seq<nat>): nat
    requires s.WellFormed() && IsSchedule(schedule, |s.pc|)
  {
    if schedule == [] then 0
    else
      var last := |schedule| - 1;
      Passes(s, schedule[..last]) + if Run(s, schedule[..last]).pc[schedule[last]] == Unlock then 1 else 0
  }

  /** The increments that thread p has made since it got the lock. */
  function Own(s: State, p: nat): nat
    requires p < |s.pc|
  {
    match s.pc[p]
    case Load(k) => k
    case Store(k, _) => k
    case Unlock => s.iters
    case _ => 0
  }

  function OwnTotal(s: State, m: nat): nat
    requires m <= |s.pc|
  {
    if m == 0 then 0 else OwnTotal(s, m - 1) + Own(s, m - 1)
  }

  ghost predicate OwnOk(s: State) {
    forall p :: 0 <= p < |s.pc| ==> Own(s, p) <= s.iters && (s.pc[p].Store? ==> Own(s, p) < s.iters)
  }

  lemma {:induction false} OwnTotalStep(s: State, t: State, p: nat, m: nat)
    requires m <= |s.pc| == |t.pc| && p < |s.pc| && t.iters == s.iters
    requires forall q :: 0 <= q < |s.pc| && q != p ==> t.pc[q] == s.pc[q]
    ensures OwnTotal(t, m) == OwnTotal(s, m) + if p < m then Own(t, p) - Own(s, p) else 0
  {
    if m > 0 { OwnTotalStep(s, t, p, m - 1); }
  }

  lemma {:induction false} NoOwn(s: State, m: nat)
    requires m <= |s.pc| && forall p: nat :: p < |s.pc| ==> !s.InCritical(p)
    ensures OwnTotal(s, m) == 0
  {
    if m > 0 {
      NoOwn(s, m - 1);
      assert !s.InCritical(m - 1);
    }
  }

  /** A step counts in the thread's own increments, which it hands over when it unlocks. */
  lemma OwnStep(s: State, p: nat)
    requires s.WellFormed() && p < |s.pc| && OwnOk(s)
    ensures
      var t := s.Step(p);
      && |t.pc| == |s.pc| && t.iters == s.iters && OwnOk(t)
      && OwnTotal(t, |s.pc|) + (if s.pc[p] == Unlock then s.iters else 0) - OwnTotal(s, |s.pc|) == t.done - s.done
  {
    var t := s.Step(p);
    OwnTotalStep(s, t, p, |s.pc|);
    forall q | 0 <= q < |t.pc| ensures Own(t, q) <= t.iters && (t.pc[q].Store? ==> Own(t, q) < t.iters) {
      assert Own(s, q) <= s.iters;
    }
  }

  lemma RunLast(s: State, schedule: seq<nat>)
    requires s.WellFormed() && IsSchedule(schedule, |s.pc|) && schedule != []
    ensures
      var front, p := schedule[..|schedule| - 1], schedule[|schedule| - 1];
      && Run(s, schedule) == Run(s, front).Step(p)
      && Passes(s, schedule) == Passes(s, front) + if Run(s, front).pc[p] == Unlock then 1 else 0
  {
  }

  lemma OneMore(a: nat, k: nat)
    ensures a * (k + 1) == a * k + a
  {
  }

  lemma {:induction false} IncrementsCounted(n: nat, iters: nat, schedule: seq<nat>)
    requires IsSchedule(schedule, n)
    ensures Run(Init(n, iters), schedule).iters == iters && OwnOk(Run(Init(n, iters), schedule))
    ensures Run(Init(n, iters), schedule).done ==
      iters * Passes(Init(n, iters), schedule) + OwnTotal(Run(Init(n, iters), schedule), n)
  {
    hide State.Step, OwnOk, OwnTotal, Passes, Run;
    var start := Init(n, iters);
    if schedule == [] {
      NothingDone(n, iters);
    } else {
      var front, p := schedule[..|schedule| - 1], schedule[|schedule| - 1];
      IncrementsCounted(n, iters, front);
      RunLast(start, schedule);
      OwnStep(Run(start, front), p);
      OneMore(iters, Passes(start, front));
    }
  }

  lemma NothingDone(n: nat, iters: nat)
    ensures Run(Init(n, iters), []) == Init(n, iters) && Passes(Init(n, iters), []) == 0 && OwnOk(Init(n, iters))
    ensures OwnTotal(Init(n, iters), n) == 0
  {
    NoOwn(Init(n, iters), n);
  }

  /** Every pass through the lock makes all its increments: whenever nobody is in the critical section, the
      counter is NUM_ITERS times the number of passes. */
  lemma SharedTotal(n: nat, iters: nat, schedule: seq<nat>)
    requires IsSchedule(schedule, n)
    requires forall p: nat :: p < n ==> !Run(Init(n, iters), schedule).InCritical(p)
    ensures Run(Init(n, iters), schedule).shared == iters * Passes(Init(n, iters), schedule)
  {
    IncrementsCounted(n, iters, schedule);
    NoOwn(Run(Init(n, iters), schedule), n);
    NoLostUpdate(n, iters, schedule);
  }

  // ---------- Deadlock freedom ----------

  /** The thread furthest along is not stuck unless it shares its level, and then one of the two is not. */
  lemma SomeoneNotStuck(s: State) returns (p: nat)
    requires Inv(s)
    requires exists q: nat :: q < |s.pc| && s.InLock(q)
    requires forall q: nat :: q < |s.pc| ==> !s.InCritical(q)
    ensures p < |s.pc| && s.InLock(p) && !s.Stuck(p)
  {
    p := Furthest(s, |s.pc|);
    if s.Stuck(p) {
      var j :| 0 <= j < |s.pc| && j != p && s.flag[j] >= s.pc[p].level;
      assert FlagOk(s, j);
      p := j;
    }
  }

  lemma {:induction false} Furthest(s: State, m: nat) returns (p: nat)
    requires s.WellFormed() && m <= |s.pc|
    requires exists q: nat :: q < m && s.InLock(q)
    ensures p < m && s.InLock(p)
    ensures forall q: nat :: q < m && s.InLock(q) ==> s.pc[q].level <= s.pc[p].level
  {
    var q: nat :| q < m && s.InLock(q);
    p := q;
    for i := 0 to m
      invariant p < m && s.InLock(p)
      invariant forall r: nat :: r < i && s.InLock(r) ==> s.pc[r].level <= s.pc[p].level
    {
      if s.InLock(i) && s.pc[i].level > s.pc[p].level { p := i; }
    }
  }

  /** No reachable state has threads in `lock`, none in the critical section, and all of them waiting for good. */
  lemma DeadlockFree(n: nat, iters: nat, schedule: seq<nat>)
    requires IsSchedule(schedule, n)
    ensures
      var s := Run(Init(n, iters), schedule);
      (exists q: nat :: q < n && s.InLock(q)) && (forall q: nat :: q < n ==> !s.InCritical(q))
      ==> exists p: nat :: p < n && s.InLock(p) && !s.Stuck(p)
  {
    InvRun(n, iters, schedule);
    var s := Run(Init(n, iters), schedule);
    if (exists q: nat :: q < n && s.InLock(q)) && (forall q: nat :: q < n ==> !s.InCritical(q)) {
      var p := SomeoneNotStuck(s);
    }
  }

  // ---------- The critical section stays reachable ----------

  ghost predicate Reaches(s: State, t: State)
    requires s.WellFormed()
  {
    exists more: seq<nat> :: IsSchedule(more, |s.pc|) && Run(s, more) == t
  }

  lemma ReachesSelf(s: State)
    requires s.WellFormed()
    ensures Reaches(s, s)
  {
    assert Run(s, []) == s;
  }

  lemma ReachesStep(s: State, t: State, p: nat)
    requires s.WellFormed() && Reaches(s, t) && p < |s.pc|
    ensures t.WellFormed() && |t.pc| == |s.pc| && Reaches(s, t.Step(p))
  {
    var more :| IsSchedule(more, |s.pc|) && Run(s, more) == t;
    assert (more + [p])[..|more|] == more;
    assert Run(s, more + [p]) == t.Step(p);
  }

  lemma {:induction false} RunConcat(s: State, a: seq<nat>, b: seq<nat>)
    requires s.WellFormed() && IsSchedule(a, |s.pc|) && IsSchedule(b, |s.pc|)
    ensures IsSchedule(a + b, |s.pc|) && Run(s, a + b) == Run(Run(s, a), b)
  {
    if b == [] {
      assert a + b == a;
    } else {
      var last := |b| - 1;
      assert (a + b)[..|a| + last] == a + b[..last];
      RunConcat(s, a, b[..last]);
    }
  }

  /** Would a scan of level i from slot j on leave gobreak at 1? */
  predicate ScanClear(s: State, p: nat, i: nat, j: nat)
    requires s.WellFormed()
  {
    forall q :: j <= q < |s.pc| && q != p ==> s.flag[q] < i
  }

  /** Running p alone takes its scan to the end of the array. */
  lemma {:induction false} ScanToEnd(s: State, t: State, p: nat)
    requires s.WellFormed() && Reaches(s, t) && t.WellFormed() && |t.pc| == |s.pc|
    requires p < |t.pc| && t.pc[p].Scan?
    ensures
      var c := t.pc[p];
      Reaches(s, t.(pc := t.pc[p := Scan(c.level, |t.pc|, c.gobreak && ScanClear(t, p, c.level, c.j))]))
    decreases |t.pc| - t.pc[p].j
  {
    var c := t.pc[p];
    if c.j == |t.pc| {
      assert t.pc[p := c] == t.pc;
    } else {
      ReachesStep(s, t, p);
      var u := t.Step(p);
      ScanToEnd(s, u, p);
      assert u.pc[p := Scan(c.level, |t.pc|, u.pc[p].gobreak && ScanClear(u, p, c.level, c.j + 1))]
          == t.pc[p := Scan(c.level, |t.pc|, c.gobreak && ScanClear(t, p, c.level, c.j))];
    }
  }

  /** How many program points thread p still has ahead of it before the critical section. */
  function Work(s: State, p: nat): nat
    requires s.WellFormed() && p < |s.pc|
  {
    match s.pc[p]
    case SetFlag(i) => 3 * (|s.pc| - i) + 3
    case SetTurn(i) => 3 * (|s.pc| - i) + 2
    case TestTurn(i) => 3 * (|s.pc| - i) + 1
    case Scan(i, _, _) => 3 * (|s.pc| - i) + 1
    case _ => 0
  }

  function TotalWork(s: State, m: nat): nat
    requires s.WellFormed() && m <= |s.pc|
  {
    if m == 0 then 0 else TotalWork(s, m - 1) + Work(s, m - 1)
  }

  lemma {:induction false} TotalWorkDrops(s: State, t: State, p: nat, m: nat)
    requires s.WellFormed() && t.WellFormed() && |s.pc| == |t.pc| && p < |s.pc| && m <= |s.pc|
    requires Work(t, p) < Work(s, p)
    requires forall q: nat :: q < |s.pc| && q != p ==> s.pc[q] == t.pc[q]
    ensures TotalWork(t, m) <= TotalWork(s, m)
    ensures p < m ==> TotalWork(t, m) < TotalWork(s, m)
  {
    if m > 0 { TotalWorkDrops(s, t, p, m - 1); }
  }

  /** A thread that is in `lock` and not stuck gets closer to the critical section when it runs alone. */
  lemma SoloProgress(s: State, p: nat) returns (t: State)
    requires Inv(s) && p < |s.pc| && s.InLock(p) && !s.Stuck(p)
    ensures Reaches(s, t) && t.WellFormed() && |t.pc| == |s.pc|
    ensures Work(t, p) < Work(s, p) && forall q: nat :: q < |s.pc| && q != p ==> s.pc[q] == t.pc[q]
    ensures t.InLock(p) || t.InCritical(p)
  {
    hide Reaches, PairOk, TurnOk;
    ReachesSelf(s);
    t := s;
    if t.pc[p].Scan? {
      t := FinishScan(s, t, p);
      if !t.pc[p].TestTurn? { return; }
    }
    ReachesStep(s, t, p);
    t := t.Step(p);
    if t.pc[p].Scan? {
      t := FinishScan(s, t, p);
    }
  }

  lemma FinishScan(s: State, t: State, p: nat) returns (u: State)
    requires s.WellFormed() && Reaches(s, t) && t.WellFormed() && |t.pc| == |s.pc|
    requires p < |t.pc| && t.pc[p].Scan?
    ensures Reaches(s, u) && u.WellFormed()
    ensures
      var c := t.pc[p];
      var left := c.gobreak && ScanClear(t, p, c.level, c.j);
      u == t.(pc := t.pc[p := if left then t.Advance(c.level) else TestTurn(c.level)])
  {
    var c := t.pc[p];
    ScanToEnd(s, t, p);
    var v := t.(pc := t.pc[p := Scan(c.level, |t.pc|, c.gobreak && ScanClear(t, p, c.level, c.j))]);
    ReachesStep(s, v, p);
    u := v.Step(p);
  }

  ghost predicate CriticalReachable(s: State)
    requires s.WellFormed()
  {
    exists more: seq<nat>, p: nat :: IsSchedule(more, |s.pc|) && p < |s.pc| && Run(s, more).InCritical(p)
  }

  lemma InvReaches(s: State, more: seq<nat>)
    requires Inv(s) && IsSchedule(more, |s.pc|)
    ensures Inv(Run(s, more))
  {
    if more != [] {
      var last := |more| - 1;
      InvReaches(s, more[..last]);
      InvStep(Run(s, more[..last]), more[last]);
    }
  }

  lemma {:induction false} EntryPossible(s: State)
    requires Inv(s) && exists q: nat :: q < |s.pc| && s.InLock(q)
    ensures CriticalReachable(s)
    decreases TotalWork(s, |s.pc|)
  {
    if q: nat :| q < |s.pc| && s.InCritical(q) {
      assert Run(s, []) == s;
    } else {
      var p := SomeoneNotStuck(s);
      var t := SoloProgress(s, p);
      var first :| IsSchedule(first, |s.pc|) && Run(s, first) == t;
      InvReaches(s, first);
      if !t.InCritical(p) {
        TotalWorkDrops(s, t, p, |s.pc|);
        EntryPossible(t);
        var more: seq<nat>, q: nat :| IsSchedule(more, |t.pc|) && q < |t.pc| && Run(t, more).InCritical(q);
        RunConcat(s, first, more);
      }
    }
  }

  /** From every reachable state with a thread in `lock`, some continuation puts a thread in the critical section. */
  lemma CriticalStaysReachable(n: nat, iters: nat, schedule: seq<nat>)
    requires IsSchedule(schedule, n)
    requires exists q: nat :: q < n && Run(Init(n, iters), schedule).InLock(q)
    ensures CriticalReachable(Run(Init(n, iters), schedule))
  {
    InvRun(n, iters, schedule);
    EntryPossible(Run(Init(n, iters), schedule));
  }

  // ---------- The program's arrays ----------

  /** The shared arrays and counter of the program, with one method per scheduled step. */
  class Machine {
    const flag: array<nat>
    const turn: array<nat>
    const pc: array<Pc>
    var sharedResource: nat
    const iters: nat
    ghost var done: nat

    constructor (n: nat, iters: nat)
      ensures fresh(flag) && fresh(turn) && fresh(pc) && Snapshot() == Init(n, iters) && Valid()
    {
      this.flag := new nat[n](_ => 0);
      this.turn := new nat[n](_ => 0);
      this.pc := new Pc[n](_ => Idle);
      this.sharedResource, this.iters, this.done := 0, iters, 0;
      new;
      assert Snapshot() == Init(n, iters);
    }

    ghost function Snapshot(): State
      reads this, flag, turn, pc
    {
      State(flag[..], turn[..], pc[..], sharedResource, iters, done)
    }

    ghost predicate Valid()
      reads this, flag, turn, pc
    {
      flag != turn && Snapshot().WellFormed()
    }

    /** Runs thread p up to and including its next access to shared memory. */
    method Step(p: nat)
      requires Valid() && p < pc.Length
      modifies this, flag, turn, pc
      ensures Valid() && Snapshot() == old(Snapshot()).Step(p)
    {
      hide State.WellFormed;
      WellFormedStep(Snapshot(), p);
      var idx := p + 1;
      match pc[p]
      case Idle =>
        pc[p] := SetFlag(1);
      case SetFlag(i) =>
        flag[idx - 1] := i;
        pc[p] := SetTurn(i);
      case SetTurn(i) =>
        turn[i - 1] := idx;
        pc[p] := TestTurn(i);
      case TestTurn(i) =>
        pc[p] := if turn[i - 1] != idx then NextLevel(i) else Scan(i, 0, true);
      case Scan(i, j, gobreak) =>
        if j == pc.Length {
          pc[p] := if gobreak then NextLevel(i) else TestTurn(i);
        } else if j == p {
          pc[p] := Scan(i, j + 1, gobreak);
        } else {
          pc[p] := Scan(i, j + 1, gobreak && flag[j] < i);
        }
      case Load(k) =>
        pc[p] := if k < iters then Store(k, sharedResource) else Unlock;
      case Store(k, tmp) =>
        sharedResource := tmp + 1;
        done := done + 1;
        pc[p] := Load(k + 1);
      case Unlock =>
        flag[idx - 1] := 0;
        pc[p] := Idle;
    }

    function NextLevel(i: nat): Pc {
      if i < pc.Length then SetFlag(i + 1) else Load(0)
    }
  }
}
