/** Starvation freedom of the filter lock: under every schedule that is fair to the threads that have started
    `lock` and not finished `unlock`, each of them enters the critical section, however often the others enter
    before it, and even if threads outside never run again. */
module FilterLockFairness {
  import opened FilterLock

  /** An infinite run: the thread that takes the t-th step is sched(t); if there is no such thread, nothing happens,
      so the threads may all have stopped. */
  datatype Trace = Trace(start: State, sched: nat -> nat) {

    ghost predicate Valid() {
      Inv(start)
    }

    function N(): nat { |start.pc| }

    /** The state before the t-th step. */
    ghost function At(t: nat): (s: State)
      requires Valid()
      ensures Inv(s) && s.WellFormed() && |s.pc| == N() && s.iters == start.iters
    {
      if t == 0 then start
      else if sched(t - 1) >= N() then At(t - 1)
      else
        InvStep(At(t - 1), sched(t - 1));
        At(t - 1).Step(sched(t - 1))
    }

    ghost predicate TakesStep(p: nat, t: nat) {
      exists u: nat :: t <= u && sched(u) == p
    }

    /** A thread that has started `lock` and not finished `unlock` takes another step; one outside may stop. */
    ghost predicate Fair()
      requires Valid()
    {
      forall p: nat, t: nat {:trigger TakesStep(p, t)} :: p < N() && At(t).pc[p] != Idle ==> TakesStep(p, t)
    }

    /** Only its own steps move a thread. */
    lemma StepAt(t: nat, p: nat)
      requires Valid() && p < N()
      ensures At(t + 1) == if sched(t) < N() then At(t).Step(sched(t)) else At(t)
      ensures sched(t) != p ==> At(t + 1).pc[p] == At(t).pc[p]
    {
    }

    lemma NextTurn(p: nat, t: nat) returns (u: nat)
      requires Valid() && Fair() && p < N() && At(t).pc[p] != Idle
      ensures t <= u && sched(u) == p && At(u + 1) == At(u).Step(p)
      ensures forall k: nat {:trigger At(k)} :: t <= k <= u ==> At(k).pc[p] == At(t).pc[p]
    {
      hide At;
      assert TakesStep(p, t);
      var w: nat :| t <= w && sched(w) == p;
      u := t;
      while sched(u) != p
        invariant t <= u <= w
        invariant forall k: nat {:trigger At(k)} :: t <= k <= u ==> At(k).pc[p] == At(t).pc[p]
        decreases w - u
      {
        StepAt(u, p);
        u := u + 1;
      }
      StepAt(u, p);
    }

    // ---------- Critical sections end ----------

    lemma Exits(p: nat, t: nat) returns (u: nat)
      requires Valid() && Fair() && p < N() && At(t).InCritical(p)
      ensures t <= u && At(u).pc[p] == Idle
      decreases StepsLeft(At(t).pc[p], start.iters)
    {
      hide At, Fair, Inv;
      var v := NextTurn(p, t);
      if At(t).pc[p].Unlock? {
        u := v + 1;
      } else {
        u := Exits(p, v + 1);
      }
    }

    // ---------- A thread that another has overtaken at its level ----------

    lemma ReleasedStays(p: nat, i: nat, t: nat, u: nat)
      requires Valid() && p < N() && Arrived(At(t), p, i) && At(t).turn[i - 1] != p + 1 && t <= u
      requires forall k: nat {:trigger At(k)} :: t <= k <= u ==> At(k).pc[p] == At(t).pc[p]
      ensures At(u).turn[i - 1] != p + 1
      decreases u - t
    {
      hide At, Inv;
      if t < u {
        StepAt(t, p);
        assert At(t + 1).pc[p] == At(t).pc[p];
        if sched(t) < N() { TurnStep(At(t), sched(t), p, i); }
        ReleasedStays(p, i, t + 1, u);
      }
    }

    /** A thread that is no longer the last to have arrived at its level passes it. */
    lemma ReleasedPasses(p: nat, i: nat, t: nat) returns (u: nat)
      requires Valid() && Fair() && p < N() && Arrived(At(t), p, i) && At(t).turn[i - 1] != p + 1
      ensures t <= u && At(u).Past(p, i)
      decreases if At(t).pc[p].Scan? then N() + 1 - At(t).pc[p].j else 0
    {
      hide At, Fair, Inv;
      var v := NextTurn(p, t);
      ReleasedStays(p, i, t, v);
      ArrivedStep(At(v), p, i);
      TurnStep(At(v), p, p, i);
      if At(v + 1).Past(p, i) {
        u := v + 1;
      } else {
        u := ReleasedPasses(p, i, v + 1);
      }
    }

    // ---------- A thread that nobody overtakes ----------

    /** From t on, p waits at level i, and is the last to have arrived there. */
    ghost predicate Waits(p: nat, i: nat, t: nat)
      requires Valid() && p < N()
    {
      forall w: nat {:trigger At(w)} :: t <= w ==> Arrived(At(w), p, i) && At(w).turn[i - 1] == p + 1
    }

    /** Nobody else is then about to arrive at the level. */
    lemma NobodyArrives(p: nat, q: nat, i: nat, t: nat, w: nat)
      requires Valid() && Fair() && p < N() && q < N() && p != q && Waits(p, i, t) && t <= w
      ensures At(w).pc[q] != SetFlag(i) && At(w).pc[q] != SetTurn(i)
    {
      hide At, Fair, Inv;
      assert Arrived(At(t), p, i);
      if At(w).pc[q] == SetFlag(i) {
        var u := NextTurn(q, w);
        NobodyTurns(p, q, i, t, u + 1);
      } else if At(w).pc[q] == SetTurn(i) {
        NobodyTurns(p, q, i, t, w);
      }
    }

    lemma NobodyTurns(p: nat, q: nat, i: nat, t: nat, w: nat)
      requires Valid() && Fair() && p < N() && q < N() && p != q && Waits(p, i, t) && t <= w
      ensures At(w).pc[q] != SetTurn(i)
    {
      hide At, Fair, Inv;
      if At(w).pc[q] == SetTurn(i) {
        var u := NextTurn(q, w);
      }
    }

    /** So a thread below the level stays below it. */
    lemma BelowStays(p: nat, q: nat, i: nat, t: nat, u: nat, w: nat)
      requires Valid() && Fair() && p < N() && q < N() && p != q && Waits(p, i, t)
      requires t <= u <= w && Below(At(u), q, i)
      ensures Below(At(w), q, i)
      decreases w
    {
      hide At, Fair, Inv;
      if u < w {
        BelowStays(p, q, i, t, u, w - 1);
        NobodyArrives(p, q, i, t, w);
        assert Arrived(At(t), p, i);
        StepAt(w - 1, q);
        BelowStep(At(w - 1), q, i);
      }
    }

    /** And every other thread gets below it. */
    lemma GetsBelow(p: nat, q: nat, i: nat, t: nat) returns (u: nat)
      requires Valid() && Fair() && p < N() && q < N() && p != q && Waits(p, i, t)
      ensures t <= u && Below(At(u), q, i)
      decreases N() - i, 1
    {
      hide At, Fair, Inv;
      assert Arrived(At(t), p, i) && At(t).turn[i - 1] == p + 1;
      NobodyArrives(p, q, i, t, t);
      u := t;
      if !Below(At(t), q, i) {
        if Arrived(At(t), q, i) {
          u := ReleasedPasses(q, i, t);
        }
        u := ReachesCritical(q, i, u);
        u := Exits(q, u);
      }
    }

    lemma AllGetBelow(p: nat, i: nat, t: nat, m: nat) returns (u: nat)
      requires Valid() && Fair() && p < N() && m <= N() && Waits(p, i, t)
      ensures t <= u && forall q: nat, w: nat {:trigger Below(At(w), q, i)} ::
        q < m && q != p && u <= w ==> Below(At(w), q, i)
      decreases N() - i, 2, m
    {
      hide At, Fair, Inv, Waits;
      u := t;
      if m > 0 {
        u := AllGetBelow(p, i, t, m - 1);
        if m - 1 != p {
          var v := GetsBelow(p, m - 1, i, t);
          forall w: nat | v <= w ensures Below(At(w), m - 1, i) {
            BelowStays(p, m - 1, i, t, v, w);
          }
          if u < v { u := v; }
        }
      }
    }

    /** With all others below its level, a thread finds them there and passes. */
    lemma ClearPasses(p: nat, i: nat, t: nat) returns (u: nat)
      requires Valid() && Fair() && p < N() && Arrived(At(t), p, i)
      requires forall q: nat, w: nat {:trigger Below(At(w), q, i)} :: q < N() && q != p && t <= w ==> Below(At(w), q, i)
      ensures t <= u && At(u).Past(p, i)
      decreases ScansLeft(At(t).pc[p], N())
    {
      hide At, Fair, Inv;
      var v := NextTurn(p, t);
      forall q: nat | q < N() && q != p ensures At(v).flag[q] < i {
        assert Below(At(v), q, i);
        BelowFlag(At(v), q, i);
      }
      ArrivedStep(At(v), p, i);
      if At(v + 1).Past(p, i) {
        u := v + 1;
      } else {
        u := ClearPasses(p, i, v + 1);
      }
    }

    // ---------- Every level is passed ----------

    lemma ArrivedPasses(p: nat, i: nat, t: nat) returns (u: nat)
      requires Valid() && Fair() && p < N() && Arrived(At(t), p, i)
      ensures t <= u && At(u).Past(p, i)
      decreases N() - i, 3
    {
      hide At, Fair, Inv;
      if u' : nat :| t <= u' && At(u').Past(p, i) {
        u := u';
      } else {
        forall w: nat | t <= w ensures Arrived(At(w), p, i) { ArrivedStays(p, i, t, w); }
        if w: nat :| t <= w && At(w).turn[i - 1] != p + 1 {
          u := ReleasedPasses(p, i, w);
        } else {
          u := AllGetBelow(p, i, t, N());
          u := ClearPasses(p, i, u);
        }
      }
    }

    lemma ArrivedStays(p: nat, i: nat, t: nat, w: nat)
      requires Valid() && p < N() && Arrived(At(t), p, i) && t <= w
      requires forall u: nat {:trigger At(u)} :: t <= u ==> !At(u).Past(p, i)
      ensures Arrived(At(w), p, i)
      decreases w
    {
      hide At, Inv;
      if t < w {
        ArrivedStays(p, i, t, w - 1);
        StepAt(w - 1, p);
        ArrivedStep(At(w - 1), p, i);
        assert !At(w).Past(p, i);
      }
    }

    lemma LevelPasses(p: nat, i: nat, t: nat) returns (u: nat)
      requires Valid() && Fair() && p < N() && At(t).InLock(p) && At(t).pc[p].level == i
      ensures t <= u && At(u).Past(p, i)
      decreases N() - i, 4
    {
      hide At, Fair, Inv;
      u := t;
      if At(u).pc[p].SetFlag? { u := NextTurn(p, u); u := u + 1; }
      if At(u).pc[p].SetTurn? { u := NextTurn(p, u); u := u + 1; }
      u := ArrivedPasses(p, i, u);
    }

    lemma ReachesCritical(p: nat, i: nat, t: nat) returns (u: nat)
      requires Valid() && Fair() && p < N() && i <= N() && At(t).Past(p, i)
      ensures t <= u && At(u).InCritical(p)
      decreases N() - i, 0
    {
      hide At, Fair;
      u := t;
      if !At(t).InCritical(p) {
        var level := At(t).pc[p].level;
        assert At(t).PcInRange(At(t).pc[p]);
        u := LevelPasses(p, level, t);
        u := ReachesCritical(p, level, u);
      }
    }
  }

  /** Thread p has written Turn[i-1] and waits at level i. */
  predicate Arrived(s: State, p: nat, i: nat) {
    && s.WellFormed() && p < |s.pc| && 1 <= i <= |s.pc|
    && (s.pc[p].TestTurn? || s.pc[p].Scan?) && s.pc[p].level == i
  }

  /** Thread q is outside the lock or at a level below i. */
  predicate Below(s: State, q: nat, i: nat) {
    q < |s.pc| && (s.pc[q].Idle? || (s.InLock(q) && s.pc[q].level < i))
  }

  lemma BelowFlag(s: State, q: nat, i: nat)
    requires Inv(s) && Below(s, q, i) && 1 <= i
    ensures s.flag[q] < i
  {
    assert FlagOk(s, q);
  }

  lemma BelowStep(s: State, q: nat, i: nat)
    requires s.WellFormed() && Below(s, q, i) && 1 <= i <= |s.pc|
    ensures Below(s.Step(q), q, i) || s.Step(q).pc[q] == SetFlag(i)
  {
  }

  /** A step at a level passes it or stays there. */
  lemma ArrivedStep(s: State, p: nat, i: nat)
    requires Arrived(s, p, i)
    ensures s.Step(p).WellFormed() && (Arrived(s.Step(p), p, i) || s.Step(p).Past(p, i))
  {
    WellFormedStep(s, p);
  }

  lemma TurnStep(s: State, q: nat, p: nat, i: nat)
    requires Arrived(s, p, i) && s.turn[i - 1] != p + 1 && q < |s.pc|
    ensures s.Step(q).turn[i - 1] != p + 1
  {
    WellFormedStep(s, q);
  }

  function StepsLeft(c: Pc, iters: nat): nat {
    match c
    case Load(k) => 2 * (if k < iters then iters - k else 0) + 1
    case Store(k, _) => 2 * (if k + 1 < iters then iters - k - 1 else 0) + 2
    case _ => 0
  }

  /** The most steps to the end of a scan that starts afresh after this one. */
  function ScansLeft(c: Pc, n: nat): nat {
    match c
    case Scan(_, j, gobreak) =>
      var left := if j < n then n - j else 0;
      if gobreak then left else n + 2 + left
    case _ => n + 1
  }

  /** Starvation freedom: for any number of threads and every schedule that is fair to those that are in `lock`,
      in the critical section or in `unlock`, a thread in `lock` gets into the critical section, and out of it
      again. */
  lemma StarvationFree(n: nat, iters: nat, sched: nat -> nat, p: nat, t: nat) returns (u: nat, v: nat)
    requires p < n && Trace(Init(n, iters), sched).Valid() && Trace(Init(n, iters), sched).Fair()
    requires Run(Init(n, iters), Steps(sched, n, t)).InLock(p)
    ensures t <= u <= v && Run(Init(n, iters), Steps(sched, n, u)).InCritical(p)
    ensures Run(Init(n, iters), Steps(sched, n, v)).pc[p] == Idle
  {
    var trace := Trace(Init(n, iters), sched);
    AtIsRun(trace, n, iters, t);
    var s := trace.At(t);
    assert s.PcInRange(s.pc[p]);
    u := trace.ReachesCritical(p, 0, t);
    v := trace.Exits(p, u);
    AtIsRun(trace, n, iters, u);
    AtIsRun(trace, n, iters, v);
  }

  /** A thread that calls `lock` under such a schedule gets into the critical section and out of it. */
  lemma LockReturns(n: nat, iters: nat, sched: nat -> nat, p: nat, t: nat) returns (u: nat, v: nat)
    requires p < n && Trace(Init(n, iters), sched).Valid() && Trace(Init(n, iters), sched).Fair()
    requires Run(Init(n, iters), Steps(sched, n, t)).pc[p] == Idle && sched(t) == p
    ensures t < u < v && Run(Init(n, iters), Steps(sched, n, u)).InCritical(p)
    ensures Run(Init(n, iters), Steps(sched, n, v)).pc[p] == Idle
  {
    hide Run, Trace.At, State.Step, Steps, Trace.Fair, Inv;
    var trace := Trace(Init(n, iters), sched);
    AtIsRun(trace, n, iters, t);
    AtIsRun(trace, n, iters, t + 1);
    trace.StepAt(t, p);
    IdleEnters(trace.At(t), p);
    u, v := StarvationFree(n, iters, sched, p, t + 1);
  }

  lemma IdleEnters(s: State, p: nat)
    requires s.WellFormed() && p < |s.pc| && s.pc[p] == Idle
    ensures |s.Step(p).pc| == |s.pc| && s.Step(p).InLock(p)
  {
  }

  /** The steps that n threads take in the first t steps of a schedule. */
  function Steps(sched: nat -> nat, n: nat, t: nat): (steps: seq<nat>)
    ensures IsSchedule(steps, n)
  {
    if t == 0 then []
    else if sched(t - 1) >= n then Steps(sched, n, t - 1)
    else Steps(sched, n, t - 1) + [sched(t - 1)]
  }

  lemma {:induction false} AtIsRun(trace: Trace, n: nat, iters: nat, t: nat)
    requires trace.Valid() && trace.start == Init(n, iters)
    ensures trace.At(t) == Run(Init(n, iters), Steps(trace.sched, n, t))
  {
    if t > 0 {
      AtIsRun(trace, n, iters, t - 1);
      var before, after := Steps(trace.sched, n, t - 1), Steps(trace.sched, n, t);
      if trace.sched(t - 1) < n { assert after[..|before|] == before; }
    }
  }

  /** Taking turns is fair. */
  lemma RoundRobinFair(start: State)
    requires Inv(start) && |start.pc| > 0
    ensures Trace(start, (t: nat) => t % |start.pc|).Fair()
  {
    var n := |start.pc|;
    var trace := Trace(start, (t: nat) => t % n);
    forall p: nat, t: nat | p < n ensures trace.TakesStep(p, t) {
      var u := n * t + p;
      TurnComes(n, t, p);
      assert t <= u && trace.sched(u) == p;
    }
  }

  lemma TurnComes(n: nat, t: nat, p: nat)
    requires p < n
    ensures t <= n * t + p && (n * t + p) % n == p
  {
    var x := n * t + p;
    var q, r := x / n, x % n;
    assert x == n * q + r && n * (t - q) == r - p;
    AtLeast(n, t - q);
    AtLeast(n, q - t);
    AtLeast(t, n);
    assert n * (q - t) == p - r;
  }

  lemma AtLeast(n: nat, k: int)
    ensures k >= 1 ==> n * k >= n
  {
  }

  /** So is a run in which nobody takes another step once all are outside the lock. */
  lemma AllDoneFair(start: State, sched: nat -> nat, t: nat)
    requires Inv(start) && forall u: nat :: t <= u ==> sched(u) >= |start.pc|
    requires forall p: nat :: p < |start.pc| ==> Trace(start, sched).At(t).pc[p] == Idle
    ensures Trace(start, sched).Fair()
  {
    var trace := Trace(start, sched);
    forall p: nat, u: nat | p < |start.pc| && trace.At(u).pc[p] != Idle ensures trace.TakesStep(p, u) {
      if t <= u { Still(trace, t, u); }
      EndsOutside(trace, p, u, t);
    }
  }

  lemma Still(trace: Trace, t: nat, u: nat)
    requires trace.Valid() && t <= u && forall k: nat :: t <= k ==> trace.sched(k) >= trace.N()
    ensures trace.At(u) == trace.At(t)
    decreases u
  {
    if t < u { Still(trace, t, u - 1); }
  }

  /** A thread that gets outside the lock takes a step on the way. */
  lemma EndsOutside(trace: Trace, p: nat, u: nat, t: nat)
    requires trace.Valid() && p < trace.N() && u <= t && trace.At(u).pc[p] != trace.At(t).pc[p]
    ensures trace.TakesStep(p, u)
    decreases t - u
  {
    if trace.sched(u) != p {
      trace.StepAt(u, p);
      EndsOutside(trace, p, u + 1, t);
      var v: nat :| u + 1 <= v && trace.sched(v) == p;
    }
  }
}
