/** Pipes, as in Project1/pipe.c, with the sleep and wakeup of Project1/proc.c they rest on. A process
    runs a pipe call under the pipe's lock until it returns or sleeps, so one method here is what
    happens between taking the lock, or waking with it, and giving it up. */
module Pipe {

  const PIPESIZE: nat := 512
  const UINT_LIMIT: nat := 0x1_0000_0000

  /** A call in progress: bytes i.. of addr are still to be written, or up to n bytes are wanted. */
  datatype Call = WriteCall(addr: string, i: nat) | ReadCall(n: nat)

  datatype Chan = NREAD | NWRITE

  datatype State = Idle | Runnable(call: Call) | Sleeping(chan: Chan, call: Call)

  datatype Proc = Proc(state: State, killed: bool)

  // ---------- Wrapping counters ----------

  /** The counters are compared after wrapping, but never differ by more than PIPESIZE. */
  lemma FullTest(delivered: nat, stored: nat)
    requires delivered <= stored <= delivered + PIPESIZE
    ensures stored % UINT_LIMIT == (delivered % UINT_LIMIT + PIPESIZE) % UINT_LIMIT <==> stored == delivered + PIPESIZE
  {
    SameRemainder(stored, delivered + PIPESIZE);
    assert (delivered % UINT_LIMIT + PIPESIZE) % UINT_LIMIT == (delivered + PIPESIZE) % UINT_LIMIT;
  }

  lemma EmptyTest(delivered: nat, stored: nat)
    requires delivered <= stored <= delivered + PIPESIZE
    ensures delivered % UINT_LIMIT == stored % UINT_LIMIT <==> stored == delivered
  {
    SameRemainder(delivered, stored);
  }

  lemma SameRemainder(a: nat, b: nat)
    requires a <= b < a + UINT_LIMIT
    ensures a % UINT_LIMIT == b % UINT_LIMIT <==> a == b
  {
    var q, r := a / UINT_LIMIT, a % UINT_LIMIT;
    assert b == q * UINT_LIMIT + (r + (b - a));
  }

  lemma NextCounter(n: nat)
    ensures (n % UINT_LIMIT + 1) % UINT_LIMIT == (n + 1) % UINT_LIMIT
    ensures n % UINT_LIMIT % PIPESIZE == n % PIPESIZE
  {
    var q, r := n / UINT_LIMIT, n % UINT_LIMIT;
    assert n + 1 == q * UINT_LIMIT + (r + 1);
    SlotOfSum(q * 0x80_0000, r);
    assert n == q * 0x80_0000 * PIPESIZE + r;
  }

  lemma SlotOfSum(k: nat, r: nat)
    ensures (k * PIPESIZE + r) % PIPESIZE == r % PIPESIZE
  {
  }

  /** Positions less than PIPESIZE apart use different slots of the ring. */
  lemma DistinctSlots(i: nat, j: nat)
    requires i < j < i + PIPESIZE
    ensures i % PIPESIZE != j % PIPESIZE
  {
  }

  // ---------- Pipes as queues of bytes ----------

  function WakeOne(p: Proc, chan: Chan): Proc {
    if p.state.Sleeping? && p.state.chan == chan then p.(state := Runnable(p.state.call)) else p
  }

  /** The processes after a wakeup on chan. */
  function Woken(procs: seq<Proc>, chan: Chan): (r: seq<Proc>)
    ensures |r| == |procs|
    ensures forall p :: 0 <= p < |procs| ==> r[p] == WakeOne(procs[p], chan)
  {
    seq(|procs|, p requires 0 <= p < |procs| => WakeOne(procs[p], chan))
  }

  /** No process is in a call on that end. */
  predicate CanClose(procs: seq<Proc>, writable: bool) {
    forall p :: 0 <= p < |procs| ==>
      match procs[p].state
      case Idle => true
      case Runnable(call) => call.WriteCall? != writable
      case Sleeping(_, call) => call.WriteCall? != writable
  }

  function Min(a: nat, b: nat): nat {
    if a < b then a else b
  }

  /** Every byte ever put in the pipe, how many of them have been read, the ends, and the processes. */
  datatype Queue = Queue(stored: string, delivered: nat, readopen: bool, writeopen: bool, procs: seq<Proc>) {
    predicate Bounded() {
      delivered <= |stored| <= delivered + PIPESIZE
    }

    predicate Empty() {
      |stored| == delivered
    }

    predicate Full() {
      |stored| == delivered + PIPESIZE
    }

    function Room(): nat
      requires Bounded()
    {
      PIPESIZE - (|stored| - delivered)
    }

    /** A process has the end of the pipe open while it is in a call on it, and a writer sleeps only while
        the pipe is full and has a reader. */
    predicate CallOk(p: nat)
      requires p < |procs|
    {
      match procs[p].state
      case Idle => true
      case Runnable(WriteCall(addr, i)) => i <= |addr| && writeopen
      case Runnable(ReadCall(_)) => readopen
      case Sleeping(NWRITE, WriteCall(addr, i)) => i < |addr| && writeopen && Full() && readopen
      case Sleeping(NREAD, ReadCall(_)) => readopen && writeopen
      case Sleeping(_, _) => false
    }

    ghost predicate Inv() {
      Bounded() && forall p {:trigger CallOk(p)} :: 0 <= p < |procs| ==> CallOk(p)
    }

    predicate ReaderAsleep() {
      exists p :: 0 <= p < |procs| && procs[p].state.Sleeping? && procs[p].state.chan == NREAD
    }

    /** No wakeup has been lost: a reader sleeps only while the pipe is empty (and has a writer). */
    predicate Awake() {
      ReaderAsleep() ==> Empty()
    }

    predicate Writing(p: nat) {
      p < |procs| && procs[p].state.Runnable? && procs[p].state.call.WriteCall?
      && procs[p].state.call.i <= |procs[p].state.call.addr|
    }

    predicate Reading(p: nat) {
      p < |procs| && procs[p].state.Runnable? && procs[p].state.call.ReadCall?
    }

    /** The bytes that process p puts into the pipe when it runs its pipewrite. */
    function Puts(p: nat): string
      requires Bounded() && Writing(p)
    {
      var call := procs[p].state.call;
      call.addr[call.i..call.i + Min(|call.addr| - call.i, Room())]
    }

    /** pipewrite by process p until it returns or sleeps. */
    function Write(p: nat): Queue
      requires Bounded() && Writing(p)
    {
      var call, killed, n := procs[p].state.call, procs[p].killed, |Puts(p)|;
      var all := call.i + n == |call.addr|;
      var sleeps := !all && readopen && !killed;
      var woken := if all || sleeps then Woken(procs, NREAD) else procs;
      this.(stored := stored + Puts(p),
            procs := woken[p := Proc(if sleeps then Sleeping(NWRITE, call.(i := call.i + n)) else Idle, killed)])
    }

    /** The bytes that process p gets when it runs its piperead. */
    function Gets(p: nat): string
      requires Bounded() && Reading(p)
    {
      stored[delivered..delivered + Min(procs[p].state.call.n, |stored| - delivered)]
    }

    /** piperead by process p until it returns or sleeps. */
    function Read(p: nat): Queue
      requires Bounded() && Reading(p)
    {
      var call, killed := procs[p].state.call, procs[p].killed;
      if Empty() && writeopen then
        this.(procs := procs[p := Proc(if killed then Idle else Sleeping(NREAD, call), killed)])
      else this.(delivered := delivered + |Gets(p)|, procs := Woken(procs, NWRITE)[p := Proc(Idle, killed)])
    }

    function Closed(writable: bool): Queue {
      if writable then this.(writeopen := false, procs := Woken(procs, NREAD))
      else this.(readopen := false, procs := Woken(procs, NWRITE))
    }

    function Killed(p: nat): Queue
      requires p < |procs|
    {
      var state := if procs[p].state.Sleeping? then Runnable(procs[p].state.call) else procs[p].state;
      this.(procs := procs[p := Proc(state, true)])
    }

    predicate CanEnter(p: nat, call: Call) {
      p < |procs| && procs[p].state.Idle? && (if call.WriteCall? then call.i == 0 && writeopen else readopen)
    }

    /** What event e does; nothing where it cannot happen. */
    function Step(e: Event): Queue
      requires Bounded()
    {
      match e
      case Start(p, call) =>
        if CanEnter(p, call) then this.(procs := procs[p := procs[p].(state := Runnable(call))]) else this
      case Run(p) => if Writing(p) then Write(p) else if Reading(p) then Read(p) else this
      case Close(writable) => if CanClose(procs, writable) then Closed(writable) else this
      case KillProc(p) => if p < |procs| then Killed(p) else this
    }

    /** The bytes that go into the pipe in event e, and those that come out of it. */
    function In(e: Event): string
      requires Bounded()
    {
      if e.Run? && Writing(e.p) then Puts(e.p) else ""
    }

    function Out(e: Event): string
      requires Bounded()
    {
      if e.Run? && Reading(e.p) then Gets(e.p) else ""
    }

    /** A killed writer fills the pipe beside a sleeping reader, and returns without waking it. */
    predicate Silences(e: Event)
      requires Bounded()
    {
      && e.Run? && Writing(e.p) && procs[e.p].killed && ReaderAsleep()
      && Room() < |procs[e.p].state.call.addr| - procs[e.p].state.call.i
    }

    lemma InvStep(e: Event)
      requires Inv()
      ensures Step(e).Inv() && |Step(e).procs| == |procs|
      ensures Step(e).stored == stored + In(e)
      ensures delivered <= Step(e).delivered <= |stored| && Out(e) == stored[delivered..Step(e).delivered]
    {
      hide CallOk;
      forall p: nat | p < |procs| ensures Step(e).CallOk(p) {
        CallStep(e, p);
      }
    }

    lemma CallStep(e: Event, p: nat)
      requires Inv() && p < |procs|
      ensures |Step(e).procs| == |procs| && Step(e).CallOk(p)
    {
      assert CallOk(p);
      if e.Run? && e.p < |procs| { assert CallOk(e.p); }
    }

    /** The exact condition for a wakeup to be lost. */
    lemma AwakeStep(e: Event)
      requires Inv() && Awake()
      ensures Step(e).Awake() <==> !Silences(e)
    {
      var next := Step(e);
      if e.Run? && Writing(e.p) {
        if ReaderAsleep() {
          var r :| 0 <= r < |procs| && procs[r].state.Sleeping? && procs[r].state.chan == NREAD;
          assert CallOk(r);
          assert Silences(e) ==> next.procs[r] == procs[r];
        }
      } else if next.ReaderAsleep() {
        var r :| 0 <= r < |procs| && next.procs[r].state.Sleeping? && next.procs[r].state.chan == NREAD;
        assert procs[r] == next.procs[r] || (Empty() && next.Empty());
        assert CallOk(r);
      }
    }

    /** While no wakeup is lost, readers and writers are never asleep together. */
    lemma NeverBothAsleep(p: nat, q: nat)
      requires Inv() && Awake() && p < |procs| && q < |procs| && procs[p].state.Sleeping? && procs[q].state.Sleeping?
      ensures procs[p].state.chan == procs[q].state.chan
    {
      assert CallOk(p) && CallOk(q);
    }
  }

  // ---------- Whole runs ----------

  datatype Event = Start(p: nat, call: Call) | Run(p: nat) | Close(writable: bool) | KillProc(p: nat)

  function Init(nproc: nat): (q: Queue)
    ensures q.Inv() && q.Awake() && |q.procs| == nproc
  {
    Queue("", 0, true, true, seq(nproc, _ => Proc(Idle, false)))
  }

  /** The state after the events, from a new pipe. */
  function Run(nproc: nat, events: seq<Event>): (q: Queue)
    ensures q.Inv() && |q.procs| == nproc
  {
    if events == [] then Init(nproc)
    else
      var q, last := Run(nproc, events[..|events| - 1]), events[|events| - 1];
      q.InvStep(last);
      q.Step(last)
  }

  /** All bytes that go in, as the writers are run, and all that come out, as the readers are. */
  function AllIn(nproc: nat, events: seq<Event>): string {
    if events == [] then ""
    else AllIn(nproc, events[..|events| - 1]) + Run(nproc, events[..|events| - 1]).In(events[|events| - 1])
  }

  function AllOut(nproc: nat, events: seq<Event>): string {
    if events == [] then ""
    else AllOut(nproc, events[..|events| - 1]) + Run(nproc, events[..|events| - 1]).Out(events[|events| - 1])
  }

  /** For every interleaving, what comes out is a prefix of what goes in, in order, and the rest is in the pipe. */
  lemma {:induction false} FirstInFirstOut(nproc: nat, events: seq<Event>)
    ensures
      var q := Run(nproc, events);
      q.stored == AllIn(nproc, events) && AllOut(nproc, events) == AllIn(nproc, events)[..q.delivered]
  {
    hide Queue.Step, Queue.In, Queue.Out, Queue.CallOk;
    if events != [] {
      var before, last := events[..|events| - 1], events[|events| - 1];
      FirstInFirstOut(nproc, before);
      var q, next := Run(nproc, before), Run(nproc, events);
      q.InvStep(last);
      assert q.stored[..q.delivered] + q.stored[q.delivered..next.delivered] == next.stored[..next.delivered];
    }
  }

  lemma {:induction false} AwakeAfter(nproc: nat, events: seq<Event>)
    requires forall k :: 0 <= k < |events| ==> !Run(nproc, events[..k]).Silences(events[k])
    ensures Run(nproc, events).Awake()
  {
    hide Queue.Step, Queue.Awake, Queue.Silences, Queue.CallOk;
    if events != [] {
      var n := |events| - 1;
      forall k | 0 <= k < n ensures !Run(nproc, events[..n][..k]).Silences(events[..n][k]) {
        assert events[..n][..k] == events[..k];
      }
      AwakeAfter(nproc, events[..n]);
      Run(nproc, events[..n]).AwakeStep(events[n]);
    }
  }

  /** In every run, no wakeup is lost at any point if and only if no killed writer ever fills the pipe beside
      a sleeping reader. */
  lemma NoLostWakeup(nproc: nat, events: seq<Event>)
    ensures
      (forall k :: 0 <= k <= |events| ==> Run(nproc, events[..k]).Awake()) <==>
      (forall k :: 0 <= k < |events| ==> !Run(nproc, events[..k]).Silences(events[k]))
  {
    hide Queue.Step, Queue.CallOk, Queue.Awake, Queue.Silences, Run;
    if forall k :: 0 <= k < |events| ==> !Run(nproc, events[..k]).Silences(events[k]) {
      forall k | 0 <= k <= |events| ensures Run(nproc, events[..k]).Awake() {
        forall j | 0 <= j < k ensures !Run(nproc, events[..k][..j]).Silences(events[..k][j]) {
          assert events[..k][..j] == events[..j];
        }
        AwakeAfter(nproc, events[..k]);
      }
    } else {
      var k :| 0 <= k < |events| && Run(nproc, events[..k]).Silences(events[k]);
      RunAfter(nproc, events[..k], events[k]);
      assert events[..k] + [events[k]] == events[..k + 1];
      if Run(nproc, events[..k]).Awake() { Run(nproc, events[..k]).AwakeStep(events[k]); }
    }
  }

  /** Such a run: a killed writer fills the pipe and leaves a reader asleep beside it. */
  lemma LostWakeup(addr: string)
    requires |addr| > PIPESIZE
    ensures
      var events := [Start(0, ReadCall(1)), Event.Run(0), KillProc(1), Start(1, WriteCall(addr, 0)), Event.Run(1)];
      var q := Run(2, events);
      q.Full() && q.procs[0] == Proc(Sleeping(NREAD, ReadCall(1)), false) && q.procs[1].state == Idle && !q.Awake()
  {
    var e0, e1, e2, e3, e4 :=
      Start(0, ReadCall(1)), Event.Run(0), KillProc(1), Start(1, WriteCall(addr, 0)), Event.Run(1);
    var idle, asleep := Proc(Idle, false), Proc(Sleeping(NREAD, ReadCall(1)), false);
    assert Run(2, []) == Init(2) && Init(2).procs == [idle, idle];
    hide Run, Queue.Inv;
    RunAfter(2, [], e0);
    assert [] + [e0] == [e0] && [e0] + [e1] == [e0, e1] && [e0, e1] + [e2] == [e0, e1, e2];
    RunAfter(2, [e0], e1);
    assert Run(2, [e0, e1]) == Queue("", 0, true, true, [asleep, idle]);
    RunAfter(2, [e0, e1], e2);
    RunAfter(2, [e0, e1, e2], e3);
    assert [e0, e1, e2] + [e3] == [e0, e1, e2, e3];
    assert Run(2, [e0, e1, e2, e3]) == Queue("", 0, true, true, [asleep, Proc(Runnable(WriteCall(addr, 0)), true)]);
    RunAfter(2, [e0, e1, e2, e3], e4);
    assert [e0, e1, e2, e3] + [e4] == [e0, e1, e2, e3, e4];
  }

  lemma RunAfter(nproc: nat, events: seq<Event>, e: Event)
    ensures Run(nproc, events + [e]) == Run(nproc, events).Step(e)
  {
    assert (events + [e])[..|events|] == events;
  }

  // ---------- What each event does in a run ----------

  /** The processes as they were, but for those asleep on chan, if it is woken, and for p. */
  predicate OthersAre(procs: seq<Proc>, procs': seq<Proc>, p: nat, wakes: bool, chan: Chan) {
    && |procs'| == |procs|
    && forall q :: 0 <= q < |procs| && q != p ==>
         procs'[q] == if wakes && procs[q].state.Sleeping? && procs[q].state.chan == chan
           then procs[q].(state := Runnable(procs[q].state.call)) else procs[q]
  }

  /** A process that is in no call may start one on an end that is open. */
  lemma StartEffect(nproc: nat, events: seq<Event>, p: nat, call: Call)
    requires p < nproc && Run(nproc, events).procs[p].state == Idle
    requires if call.WriteCall? then call.i == 0 && Run(nproc, events).writeopen else Run(nproc, events).readopen
    ensures
      var q, r := Run(nproc, events), Run(nproc, events + [Start(p, call)]);
      r == q.(procs := q.procs[p := Proc(Runnable(call), q.procs[p].killed)])
  {
    RunAfter(nproc, events, Start(p, call));
  }

  /** A writer that runs puts in as much as there is room for. It is through if that is all; with the pipe full it
      wakes the readers and sleeps, or gives up if it is killed or nobody can read. */
  predicate WriterRan(q: Queue, r: Queue, p: nat, addr: string, i: nat)
    requires p < |q.procs| == |r.procs| && q.Bounded() && i <= |addr|
  {
    var room := 512 - (|q.stored| - q.delivered);
    var n := if |addr| - i < room then |addr| - i else room;
    var gives := q.procs[p].killed || !q.readopen;
    && r.stored == q.stored + addr[i..i + n] && r.delivered == q.delivered
    && r.readopen == q.readopen && r.writeopen == q.writeopen
    && r.procs[p] == Proc(if i + n == |addr| || gives then Idle else Sleeping(NWRITE, WriteCall(addr, i + n)),
                          q.procs[p].killed)
    && OthersAre(q.procs, r.procs, p, i + n == |addr| || !gives, NREAD)
  }

  lemma WriteEffect(nproc: nat, events: seq<Event>, p: nat, addr: string, i: nat)
    requires p < nproc && Run(nproc, events).procs[p].state == Runnable(WriteCall(addr, i))
    ensures i <= |addr| && WriterRan(Run(nproc, events), Run(nproc, events + [Event.Run(p)]), p, addr, i)
  {
    hide Run, WriterRan, Queue.Write;
    var q := Run(nproc, events);
    assert q.CallOk(p);
    RunAfter(nproc, events, Event.Run(p));
    WriterRuns(q, p, addr, i);
  }

  lemma WriterRuns(q: Queue, p: nat, addr: string, i: nat)
    requires q.Bounded() && p < |q.procs| && i <= |addr| && q.procs[p].state == Runnable(WriteCall(addr, i))
    ensures |q.Write(p).procs| == |q.procs| && WriterRan(q, q.Write(p), p, addr, i)
  {
  }

  /** A reader that runs takes what it wants of what there is, and wakes the writers. With the pipe empty and still
      open for writing it sleeps, or gives up if it is killed. */
  predicate ReaderRan(q: Queue, r: Queue, p: nat, n: nat)
    requires p < |q.procs| == |r.procs| && q.Bounded()
  {
    var there := |q.stored| - q.delivered;
    var waits := there == 0 && q.writeopen;
    && r.stored == q.stored && r.delivered == q.delivered + (if n < there then n else there)
    && r.readopen == q.readopen && r.writeopen == q.writeopen
    && r.procs[p] == Proc(if waits && !q.procs[p].killed then Sleeping(NREAD, ReadCall(n)) else Idle,
                          q.procs[p].killed)
    && OthersAre(q.procs, r.procs, p, !waits, NWRITE)
  }

  lemma ReadEffect(nproc: nat, events: seq<Event>, p: nat, n: nat)
    requires p < nproc && Run(nproc, events).procs[p].state == Runnable(ReadCall(n))
    ensures ReaderRan(Run(nproc, events), Run(nproc, events + [Event.Run(p)]), p, n)
  {
    hide Run, ReaderRan, Queue.Read;
    RunAfter(nproc, events, Event.Run(p));
    ReaderRuns(Run(nproc, events), p, n);
  }

  lemma ReaderRuns(q: Queue, p: nat, n: nat)
    requires q.Bounded() && p < |q.procs| && q.procs[p].state == Runnable(ReadCall(n))
    ensures |q.Read(p).procs| == |q.procs| && ReaderRan(q, q.Read(p), p, n)
  {
  }

  /** Closing an end that nobody is using wakes everyone who sleeps for the sake of it. */
  lemma CloseEffect(nproc: nat, events: seq<Event>, writable: bool)
    requires forall p :: 0 <= p < nproc ==>
      var state := Run(nproc, events).procs[p].state;
      state.Idle? || state.call.WriteCall? != writable
    ensures
      var q, r := Run(nproc, events), Run(nproc, events + [Close(writable)]);
      && r.stored == q.stored && r.delivered == q.delivered
      && r.writeopen == (q.writeopen && !writable) && r.readopen == (q.readopen && writable)
      && OthersAre(q.procs, r.procs, nproc, true, if writable then NREAD else NWRITE)
  {
    RunAfter(nproc, events, Close(writable));
  }

  /** A process that is killed is woken, wherever it sleeps. */
  lemma KillEffect(nproc: nat, events: seq<Event>, p: nat)
    requires p < nproc
    ensures
      var q, r := Run(nproc, events), Run(nproc, events + [KillProc(p)]);
      && r.procs[p].killed && !r.procs[p].state.Sleeping?
      && (!q.procs[p].state.Sleeping? ==> r.procs[p].state == q.procs[p].state)
      && (q.procs[p].state.Sleeping? ==> r.procs[p].state == Runnable(q.procs[p].state.call))
      && r == q.(procs := r.procs) && OthersAre(q.procs, r.procs, p, false, NREAD)
  {
    RunAfter(nproc, events, KillProc(p));
  }

  // ---------- Pipes in memory ----------

  class Pipe {
    const data: array<char>
    var nread: nat
    var nwrite: nat
    var readopen: bool
    var writeopen: bool
    var procs: seq<Proc>
    ghost var stored: string       // every byte ever put in the pipe
    ghost var delivered: nat       // how many of them have been read

    ghost function Now(): Queue
      reads this
    {
      Queue(stored, delivered, readopen, writeopen, procs)
    }

    /** The ring holds the stored bytes that are not yet delivered. */
    ghost predicate RingOk()
      reads this, data
    {
      && data.Length == PIPESIZE
      && delivered <= |stored| <= delivered + PIPESIZE
      && nread == delivered % UINT_LIMIT && nwrite == |stored| % UINT_LIMIT
      && forall j :: delivered <= j < |stored| ==> data[j % PIPESIZE] == stored[j]
    }

    ghost predicate Valid()
      reads this, data
    {
      RingOk() && Now().Inv()
    }

    /** pipealloc */
    constructor (nproc: nat)
      ensures Valid() && fresh(data) && Now() == Init(nproc)
    {
      data := new char[PIPESIZE];
      nread, nwrite, readopen, writeopen := 0, 0, true, true;
      procs := seq(nproc, _ => Proc(Idle, false));
      stored, delivered := "", 0;
    }

    /** wakeup1 */
    method Wakeup(chan: Chan)
      modifies this`procs
      ensures procs == Woken(old(procs), chan)
    {
      var p := 0;
      while p < |procs|
        invariant p <= |procs| == |old(procs)|
        invariant forall q :: 0 <= q < |procs| ==>
          procs[q] == if q < p then Woken(old(procs), chan)[q] else old(procs)[q]
      {
        if procs[p].state.Sleeping? && procs[p].state.chan == chan {
          procs := procs[p := procs[p].(state := Runnable(procs[p].state.call))];
        }
        p := p + 1;
      }
    }

    /** One more byte in the ring. */
    method Put(c: char)
      requires RingOk() && !Now().Full()
      modifies this`nwrite, this`stored, data
      ensures RingOk() && stored == old(stored) + [c]
    {
      NextCounter(|stored|);
      forall j | delivered <= j < |stored| ensures j % PIPESIZE != |stored| % PIPESIZE { DistinctSlots(j, |stored|); }
      data[nwrite % PIPESIZE] := c;
      nwrite := (nwrite + 1) % UINT_LIMIT;
      stored := stored + [c];
    }

    /** One byte out of the ring. */
    method Get() returns (c: char)
      requires RingOk() && !Now().Empty()
      modifies this`nread, this`delivered
      ensures RingOk() && delivered == old(delivered) + 1 && c == stored[old(delivered)]
    {
      NextCounter(delivered);
      c := data[nread % PIPESIZE];
      nread := (nread + 1) % UINT_LIMIT;
      delivered := delivered + 1;
    }

    predicate IsFull()
      requires RingOk()
      reads this, data
      ensures IsFull() <==> Now().Full()
    {
      FullTest(delivered, |stored|);
      nwrite == (nread + PIPESIZE) % UINT_LIMIT
    }

    predicate IsEmpty()
      requires RingOk()
      reads this, data
      ensures IsEmpty() <==> Now().Empty()
    {
      EmptyTest(delivered, |stored|);
      nread == nwrite
    }

    /** pipewrite by process p until it returns or sleeps. A sleeping reader is left behind in just one case. */
    method Pipewrite(p: nat) returns (r: int, ghost n: nat)
      requires Valid() && Now().Writing(p)
      modifies this`nwrite, this`stored, this`procs, data
      ensures Valid() && Now() == old(Now()).Write(p)
      ensures n == |old(Now()).Puts(p)|
      ensures
        var call, killed := old(procs)[p].state.call, old(procs)[p].killed;
        var all := call.i + n == |call.addr|;
        var sleeps := !all && readopen && !killed;
        && stored == old(stored) + call.addr[call.i..call.i + n] && (!all ==> Now().Full())
        && r == (if all then |call.addr| else if sleeps then 0 else -1)
        && var woken := if all || sleeps then Woken(old(procs), NREAD) else old(procs);
           procs == woken[p := Proc(if sleeps then Sleeping(NWRITE, call.(i := call.i + n)) else Idle, killed)]
      ensures old(Now()).Awake() ==> (Now().Awake() <==> !old(Now()).Silences(Event.Run(p)))
    {
      hide Queue.CallOk, Queue.Awake, Queue.Silences;
      ghost var q := Now();
      q.InvStep(Event.Run(p));
      if q.Awake() { q.AwakeStep(Event.Run(p)); }
      var call := procs[p].state.call;
      procs := procs[p := procs[p].(state := Idle)];
      var i := Fill(call.addr, call.i);
      n := i - call.i;
      if i < |call.addr| {
        r := -1;
        if readopen && !procs[p].killed {
          Wakeup(NREAD);
          procs := procs[p := procs[p].(state := Sleeping(NWRITE, WriteCall(call.addr, i)))];
          r := 0;
        }
      } else {
        Wakeup(NREAD);
        r := |call.addr|;
      }
      assert procs == q.Write(p).procs;
    }

    /** pipewrite's loop up to where the pipe is full. */
    method Fill(addr: string, first: nat) returns (i: nat)
      requires RingOk() && first <= |addr|
      modifies this`nwrite, this`stored, data
      ensures RingOk() && first <= i <= |addr| && (i < |addr| ==> Now().Full())
      ensures stored == old(stored) + addr[first..i]
    {
      i := first;
      while i < |addr| && !IsFull()
        invariant first <= i <= |addr| && RingOk() && stored == old(stored) + addr[first..i]
      {
        Put(addr[i]);
        i := i + 1;
      }
    }

    /** piperead by process p until it returns or sleeps. */
    method Piperead(p: nat) returns (r: int, bytes: string)
      requires Valid() && Now().Reading(p)
      modifies this`nread, this`delivered, this`procs
      ensures Valid() && Now() == old(Now()).Read(p)
      ensures old(delivered) <= delivered && bytes == stored[old(delivered)..delivered] == old(Now()).Gets(p)
      ensures
        var killed, waits := old(procs)[p].killed, old(Now()).Empty() && writeopen;
        && r == (if waits && killed then -1 else |bytes|)
        && (if waits then
              procs == old(procs)[p := Proc(if killed then Idle else Sleeping(NREAD, old(procs)[p].state.call), killed)]
            else procs == Woken(old(procs), NWRITE)[p := Proc(Idle, killed)])
        && (if waits then bytes == "" else |bytes| == old(procs)[p].state.call.n || Now().Empty())
      ensures old(Now()).Awake() ==> Now().Awake()
    {
      hide Queue.CallOk, Queue.Awake;
      ghost var q := Now();
      q.InvStep(Event.Run(p));
      if q.Awake() { q.AwakeStep(Event.Run(p)); }
      var n := procs[p].state.call.n;
      bytes := "";
      if IsEmpty() && writeopen {
        r := 0;
        if procs[p].killed {
          procs := procs[p := procs[p].(state := Idle)];
          r := -1;
        } else {
          procs := procs[p := procs[p].(state := Sleeping(NREAD, ReadCall(n)))];
        }
        return;
      }
      procs := procs[p := procs[p].(state := Idle)];
      bytes := Drain(n);
      Wakeup(NWRITE);
      r := |bytes|;
      assert procs == q.Read(p).procs;
    }

    /** piperead's loop: up to n bytes, as long as there are any. */
    method Drain(n: nat) returns (bytes: string)
      requires RingOk()
      modifies this`nread, this`delivered
      ensures RingOk() && delivered == old(delivered) + Min(n, |stored| - old(delivered))
      ensures bytes == stored[old(delivered)..delivered]
    {
      bytes := "";
      var i := 0;
      while i < n
        invariant i == |bytes| <= n && RingOk()
        invariant delivered == old(delivered) + i && bytes == stored[old(delivered)..delivered]
      {
        if IsEmpty() {
          break;
        }
        var c := Get();
        bytes := bytes + [c];
        i := i + 1;
      }
    }

    /** pipeclose; the last reference to an end goes only when no process is in a call on it. */
    method Pipeclose(writable: bool)
      requires Valid() && CanClose(procs, writable)
      modifies this`readopen, this`writeopen, this`procs
      ensures Valid() && Now() == old(Now()).Closed(writable) && (old(Now()).Awake() ==> Now().Awake())
      ensures readopen == (old(readopen) && writable) && writeopen == (old(writeopen) && !writable)
      ensures procs == Woken(old(procs), if writable then NREAD else NWRITE)
    {
      ghost var q := Now();
      q.InvStep(Close(writable));
      if q.Awake() { q.AwakeStep(Close(writable)); }
      if writable {
        writeopen := false;
        Wakeup(NREAD);
      } else {
        readopen := false;
        Wakeup(NWRITE);
      }
    }

    /** kill of process p. */
    method Kill(p: nat)
      requires Valid() && p < |procs|
      modifies this`procs
      ensures Valid() && Now() == old(Now()).Killed(p) && (old(Now()).Awake() ==> Now().Awake())
    {
      hide Queue.CallOk, Queue.Awake;
      ghost var q := Now();
      q.InvStep(KillProc(p));
      if q.Awake() { q.AwakeStep(KillProc(p)); }
      procs := procs[p := procs[p].(killed := true)];
      if procs[p].state.Sleeping? {
        procs := procs[p := procs[p].(state := Runnable(procs[p].state.call))];
      }
      assert procs == q.Killed(p).procs;
    }

    /** A process enters piperead or pipewrite. */
    method Enter(p: nat, call: Call)
      requires Valid() && Now().CanEnter(p, call)
      modifies this`procs
      ensures Valid() && Now() == old(Now()).Step(Start(p, call)) && (old(Now()).Awake() ==> Now().Awake())
    {
      ghost var q := Now();
      q.InvStep(Start(p, call));
      if q.Awake() { q.AwakeStep(Start(p, call)); }
      procs := procs[p := procs[p].(state := Runnable(call))];
    }

    /** One event; `got` is what a reader gets. */
    method Perform(e: Event) returns (got: string)
      requires Valid()
      modifies this, data
      ensures Valid() && Now() == old(Now()).Step(e) && got == old(Now()).Out(e)
    {
      got := "";
      match e
      case Start(p, call) =>
        if p < |procs| && procs[p].state.Idle? && (if call.WriteCall? then call.i == 0 && writeopen else readopen) {
          Enter(p, call);
        }
      case Run(p) =>
        if p < |procs| && procs[p].state.Runnable? {
          assert Now().CallOk(p);
          if procs[p].state.call.WriteCall? {
            var r;
            ghost var n;
            r, n := Pipewrite(p);
          } else {
            var r;
            r, got := Piperead(p);
          }
        }
      case Close(writable) =>
        if CanClose(procs, writable) {
          Pipeclose(writable);
        }
      case KillProc(p) =>
        if p < |procs| {
          Kill(p);
        }
    }
  }

  /** The pipe in memory carries out every run of the queue, with the same bytes out. */
  method RunPipe(nproc: nat, events: seq<Event>) returns (pipe: Pipe, delivered: string)
    ensures fresh(pipe) && pipe.Valid() && pipe.Now() == Run(nproc, events) && delivered == AllOut(nproc, events)
    ensures delivered <= pipe.stored == AllIn(nproc, events)
    ensures (forall k :: 0 <= k < |events| ==> !Run(nproc, events[..k]).Silences(events[k])) ==> pipe.Now().Awake()
  {
    pipe := new Pipe(nproc);
    delivered := "";
    for k := 0 to |events|
      invariant fresh(pipe) && fresh(pipe.data) && pipe.Valid()
      invariant pipe.Now() == Run(nproc, events[..k]) && delivered == AllOut(nproc, events[..k])
    {
      var got := pipe.Perform(events[k]);
      delivered := delivered + got;
      assert events[..k + 1][..k] == events[..k];
    }
    assert events[..|events|] == events;
    FirstInFirstOut(nproc, events);
    NoLostWakeup(nproc, events);
  }
}
