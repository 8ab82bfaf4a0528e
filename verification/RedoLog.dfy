/** The redo log of Project1/log.c over an abstract disk.

    A crash may come between any two block writes. `power` is the number of writes the disk will
    still perform; the code never looks at it. Once it is zero further writes are lost, so whatever
    the code does from then on leaves the disk as the crash left it, until `Reboot` discards memory
    and runs `recover_from_log`, which can be cut short in the same way. */
module RedoLog {
  import opened Collections
  import BufferCache

  const MAXOPBLOCKS: nat := 10
  const LOGSIZE: nat := MAXOPBLOCKS * 3
  const BWORDS: nat := 128

  /** The 128 words of a 512-byte block. */
  type Block = b: seq<nat> | |b| == BWORDS witness seq(BWORDS, _ => 0)

  /** Block numbers of the log: a header at `start`, then `size - 1` data blocks. */
  datatype Geometry = Geometry(start: nat, size: nat, blocks: nat) {
    predicate Valid() { 1 <= size && start + size <= blocks }
    predicate Home(b: int) { 0 <= b < blocks && !(start <= b < start + size) }
    function Capacity(): nat
      requires Valid()
    {
      if size - 1 < LOGSIZE then size - 1 else LOGSIZE
    }
  }

  /** One block write by one file-system operation. */
  datatype Write = Write(op: nat, bno: nat, data: Block)

  /** An operation between begin_op and end_op, with the blocks it has logged. */
  datatype Running = Running(op: nat, blocks: set<nat>)

  // ---------- What a disk image means ----------

  predicate IsDisk(g: Geometry, d: seq<Block>) {
    g.Valid() && |d| == g.blocks
  }

  /** The on-disk header names at most Capacity() home blocks. */
  predicate HeaderOk(g: Geometry, d: seq<Block>)
    requires IsDisk(g, d)
  {
    && d[g.start][0] <= g.Capacity()
    && forall i :: 1 <= i <= d[g.start][0] ==> g.Home(d[g.start][i])
  }

  /** Contents of home block b once the first n log entries of d are installed, in order. */
  function Replayed(g: Geometry, d: seq<Block>, n: nat, b: nat): Block
    requires IsDisk(g, d) && n <= g.Capacity() && b < g.blocks
  {
    if n == 0 then d[b]
    else if d[g.start][n] == b then d[g.start + n]
    else Replayed(g, d, n - 1, b)
  }

  /** Contents of home block b after recovery from d. */
  function Recovered(g: Geometry, d: seq<Block>, b: nat): Block
    requires IsDisk(g, d) && HeaderOk(g, d) && b < g.blocks
  {
    Replayed(g, d, d[g.start][0], b)
  }

  /** The image after the first k of the given block writes. */
  function Apply(d: seq<Block>, ws: seq<Write>, k: nat): (r: seq<Block>)
    requires k <= |ws|
    ensures |r| == |d|
  {
    if k == 0 then d
    else
      var r := Apply(d, ws, k - 1);
      var w := ws[k - 1];
      if w.bno < |d| then r[w.bno := w.data] else r
  }

  lemma {:induction false} ApplyAgree(d: seq<Block>, ws: seq<Write>, vs: seq<Write>, k: nat)
    requires k <= |ws| && k <= |vs| && forall i :: 0 <= i < k ==> ws[i] == vs[i]
    ensures Apply(d, ws, k) == Apply(d, vs, k)
  {
    if k > 0 { ApplyAgree(d, ws, vs, k - 1); }
  }

  ghost predicate SameLog(g: Geometry, d: seq<Block>, e: seq<Block>)
    requires IsDisk(g, d) && IsDisk(g, e)
  {
    forall b :: g.start <= b < g.start + g.size ==> d[b] == e[b]
  }

  ghost predicate SameHome(g: Geometry, d: seq<Block>, e: seq<Block>)
    requires IsDisk(g, d) && IsDisk(g, e)
  {
    forall b :: g.Home(b) ==> d[b] == e[b]
  }

  lemma {:induction false} ReplayedUnlisted(g: Geometry, d: seq<Block>, n: nat, b: nat)
    requires IsDisk(g, d) && n <= g.Capacity() && b < g.blocks
    requires forall i :: 1 <= i <= n ==> d[g.start][i] != b
    ensures Replayed(g, d, n, b) == d[b]
  {
    if n > 0 { ReplayedUnlisted(g, d, n - 1, b); }
  }

  lemma {:induction false} ReplayedListed(g: Geometry, d: seq<Block>, n: nat, k: nat)
    requires IsDisk(g, d) && 1 <= k <= n <= g.Capacity() && d[g.start][k] < g.blocks
    requires forall i :: k < i <= n ==> d[g.start][i] != d[g.start][k]
    ensures Replayed(g, d, n, d[g.start][k]) == d[g.start + k]
  {
    if k < n { ReplayedListed(g, d, n - 1, k); }
  }

  /** Overwriting home blocks that the log will overwrite anyway does not change what is recovered. */
  lemma {:induction false} ReplayedIgnores(g: Geometry, d: seq<Block>, e: seq<Block>, n: nat, b: nat)
    requires IsDisk(g, d) && IsDisk(g, e) && SameLog(g, d, e) && n <= g.Capacity() && b < g.blocks
    requires d[b] != e[b] ==> exists i :: 1 <= i <= n && d[g.start][i] == b
    ensures Replayed(g, d, n, b) == Replayed(g, e, n, b)
  {
    if n > 0 && d[g.start][n] != b { ReplayedIgnores(g, d, e, n - 1, b); }
  }

  /** Disk e differs from d at most in home blocks that the first n entries of the log list. */
  ghost predicate Installing(g: Geometry, d: seq<Block>, e: seq<Block>, n: nat)
    requires IsDisk(g, d) && IsDisk(g, e) && n <= g.Capacity()
  {
    forall b {:trigger e[b]} :: g.Home(b) && e[b] != d[b] ==> exists i :: 1 <= i <= n && d[g.start][i] == b
  }

  /** The first t entries of the log are installed. */
  ghost predicate Installed(g: Geometry, d: seq<Block>, e: seq<Block>, t: nat)
    requires IsDisk(g, d) && IsDisk(g, e) && t <= g.Capacity()
  {
    forall b :: g.Home(b) ==> e[b] == Replayed(g, d, t, b)
  }

  lemma InstalledNone(g: Geometry, d: seq<Block>, n: nat)
    requires IsDisk(g, d) && n <= g.Capacity()
    ensures Installed(g, d, d, 0) && Installing(g, d, d, n) && SameLog(g, d, d)
  {
  }

  /** One round of install_trans. */
  lemma InstallOne(g: Geometry, d: seq<Block>, e: seq<Block>, n: nat, t: nat, b: nat)
    requires IsDisk(g, d) && IsDisk(g, e) && SameLog(g, d, e) && t < n <= g.Capacity() && Installing(g, d, e, n)
    requires d[g.start][t + 1] == b && g.Home(b)
    ensures
      var e' := e[b := e[g.start + t + 1]];
      IsDisk(g, e') && SameLog(g, d, e') && Installing(g, d, e', n)
    ensures Installed(g, d, e, t) ==> Installed(g, d, e[b := e[g.start + t + 1]], t + 1)
  {
  }

  lemma InstalledAll(g: Geometry, d: seq<Block>, e: seq<Block>, n: nat)
    requires IsDisk(g, d) && IsDisk(g, e) && n <= g.Capacity() && Installed(g, d, e, n)
    ensures forall b :: g.Home(b) ==> e[b] == Replayed(g, d, n, b)
  {
  }

  /** However far an installation gets, replay gives the same. */
  lemma InstallingKeeps(g: Geometry, d: seq<Block>, e: seq<Block>, n: nat)
    requires IsDisk(g, d) && IsDisk(g, e) && SameLog(g, d, e) && n <= g.Capacity() && Installing(g, d, e, n)
    ensures forall b :: g.Home(b) ==> Replayed(g, e, n, b) == Replayed(g, d, n, b)
  {
    forall b | g.Home(b) ensures Replayed(g, e, n, b) == Replayed(g, d, n, b) {
      ReplayedIgnores(g, d, e, n, b);
    }
  }

  // ---------- Reservations ----------

  /** Log space reserved by running operations and not yet used. */
  function Unused(rs: seq<Running>): int {
    if rs == [] then 0 else Unused(rs[..|rs| - 1]) + MAXOPBLOCKS - |rs[|rs| - 1].blocks|
  }

  lemma {:induction false} UnusedUpdate(rs: seq<Running>, i: nat, r: Running)
    requires i < |rs|
    ensures Unused(rs[i := r]) == Unused(rs) + |rs[i].blocks| - |r.blocks|
  {
    var last := |rs| - 1;
    if i < last {
      UnusedUpdate(rs[..last], i, r);
      assert rs[i := r][..last] == rs[..last][i := r];
    } else {
      assert rs[i := r][..last] == rs[..last];
    }
  }

  lemma {:induction false} UnusedRemove(rs: seq<Running>, i: nat)
    requires i < |rs|
    ensures Unused(rs[..i] + rs[i + 1..]) == Unused(rs) - MAXOPBLOCKS + |rs[i].blocks|
  {
    var last := |rs| - 1;
    if i < last {
      UnusedRemove(rs[..last], i);
      assert (rs[..i] + rs[i + 1..])[..last - 1] == rs[..last][..i] + rs[..last][i + 1..];
    } else {
      assert rs[..i] + rs[i + 1..] == rs[..last];
    }
  }

  ghost predicate WithinBudget(rs: seq<Running>) {
    forall i :: 0 <= i < |rs| ==> |rs[i].blocks| <= MAXOPBLOCKS
  }

  lemma {:induction false} UnusedBounds(rs: seq<Running>, i: nat)
    requires WithinBudget(rs)
    ensures 0 <= Unused(rs) <= MAXOPBLOCKS * |rs|
    ensures i < |rs| ==> MAXOPBLOCKS - |rs[i].blocks| <= Unused(rs)
  {
    if rs != [] {
      UnusedBounds(rs[..|rs| - 1], i);
      UnusedBounds(rs[..|rs| - 1], 0);
    }
  }

  /** The logged blocks and everything still reserved fit in the log. */
  ghost predicate SpaceReserved(listed: seq<nat>, rs: seq<Running>) {
    && |listed| + Unused(rs) <= LOGSIZE
    && WithinBudget(rs)
    && forall r, b :: 0 <= r < |rs| && b in rs[r].blocks ==> b in listed
  }

  lemma SpaceAfterBegin(listed: seq<nat>, rs: seq<Running>, op: nat)
    requires SpaceReserved(listed, rs) && |listed| + (|rs| + 1) * MAXOPBLOCKS <= LOGSIZE
    ensures SpaceReserved(listed, rs + [Running(op, {})])
  {
    UnusedBounds(rs, 0);
    assert (rs + [Running(op, {})])[..|rs|] == rs;
  }

  /** A write within its operation's budget uses up reserved space at least as fast as it fills the log. */
  lemma SpaceAfterWrite(listed: seq<nat>, rs: seq<Running>, r: nat, b: nat)
    requires SpaceReserved(listed, rs) && r < |rs| && |rs[r].blocks + {b}| <= MAXOPBLOCKS
    ensures
      SpaceReserved(if b in listed then listed else listed + [b], rs[r := Running(rs[r].op, rs[r].blocks + {b})])
  {
    UnusedUpdate(rs, r, Running(rs[r].op, rs[r].blocks + {b}));
    if b in rs[r].blocks { assert rs[r].blocks + {b} == rs[r].blocks; }
  }

  lemma SpaceAfterEnd(listed: seq<nat>, rs: seq<Running>, r: nat)
    requires SpaceReserved(listed, rs) && r < |rs|
    ensures SpaceReserved(listed, rs[..r] + rs[r + 1..])
  {
    UnusedRemove(rs, r);
  }

  /** A log_write within its operation's budget of distinct blocks passes the panic tests exactly when the list
      is shorter than LOGSIZE and than the disk's log. The reservation of begin_op rules the first out for every
      block that is not listed yet; but the test comes before absorption, so with a full list the write of a
      block that needs no more space panics. */
  lemma ReservedWriteFits(g: Geometry, listed: seq<nat>, rs: seq<Running>, r: nat, b: nat)
    requires g.Valid() && SpaceReserved(listed, rs) && r < |rs| && |rs[r].blocks + {b}| <= MAXOPBLOCKS
    ensures |listed| < g.Capacity() <==> |listed| < LOGSIZE && |listed| < g.size - 1
    ensures |listed| == LOGSIZE ==> Unused(rs) == 0 && b in rs[r].blocks && b in listed
    ensures g.size > LOGSIZE && b !in listed ==> |listed| < g.Capacity()
  {
    UnusedBounds(rs, r);
    if b in rs[r].blocks { assert rs[r].blocks + {b} == rs[r].blocks; }
  }

  // ---------- The invariant, on values ----------

  /** The crash guarantee: recovery from disk d shows exactly the first k writes. */
  ghost predicate Shows(g: Geometry, d: seq<Block>, initial: seq<Block>, ws: seq<Write>, k: nat) {
    && IsDisk(g, d) && IsDisk(g, initial) && HeaderOk(g, d) && k <= |ws|
    && forall b {:trigger Recovered(g, d, b)} :: g.Home(b) ==> Recovered(g, d, b) == Apply(initial, ws, k)[b]
  }

  /** Operations with a visible write are exactly in `sealed`: all their writes are visible, and they are over. */
  ghost predicate WholeOps(journal: seq<Write>, visible: nat, running: seq<Running>, sealed: set<nat>, nextOp: nat) {
    && visible <= |journal|
    && (forall i :: 0 <= i < |journal| ==> (journal[i].op in sealed <==> i < visible) && journal[i].op < nextOp)
    && (forall r :: 0 <= r < |running| ==> running[r].op !in sealed && running[r].op < nextOp)
    && (forall op :: op in sealed ==> op < nextOp)
  }

  /** The log's list names each pinned buffer once. */
  ghost predicate ListOk(g: Geometry, dirty: map<nat, Block>, listed: seq<nat>) {
    && (forall i :: 0 <= i < |listed| ==> g.Home(listed[i]) && listed[i] in dirty)
    && (forall i, j :: 0 <= i < j < |listed| ==> listed[i] != listed[j])
    && (forall b :: b in dirty ==> b in listed)
  }

  /** Pinned buffers over the disk hold the image. */
  ghost predicate CacheOk(g: Geometry, d: seq<Block>, dirty: map<nat, Block>, image: seq<Block>) {
    && IsDisk(g, d) && |image| == |d|
    && forall b {:trigger image[b]} :: g.Home(b) ==> (if b in dirty then dirty[b] else d[b]) == image[b]
  }

  /** Every listed buffer has been copied to the log's data blocks. */
  ghost predicate LogCopied(g: Geometry, d: seq<Block>, dirty: map<nat, Block>, listed: seq<nat>)
    requires IsDisk(g, d) && |listed| <= g.Capacity()
  {
    forall i {:trigger listed[i]} :: 0 <= i < |listed| ==>
      listed[i] in dirty && d[g.start + 1 + i] == dirty[listed[i]]
  }

  ghost predicate HeaderLists(g: Geometry, d: seq<Block>, listed: seq<nat>)
    requires IsDisk(g, d) && |listed| <= g.Capacity()
  {
    d[g.start][0] == |listed| && forall i :: 1 <= i <= |listed| ==> d[g.start][i] == listed[i - 1]
  }

  /** With an empty header, changing only log data blocks changes nothing. */
  lemma ShowsAfterLogCopy(g: Geometry, d: seq<Block>, e: seq<Block>, initial: seq<Block>, ws: seq<Write>, k: nat)
    requires Shows(g, d, initial, ws, k) && IsDisk(g, e) && SameHome(g, d, e)
    requires d[g.start][0] == 0 && e[g.start] == d[g.start]
    ensures Shows(g, e, initial, ws, k)
  {
    forall b | g.Home(b) ensures Recovered(g, e, b) == Recovered(g, d, b) {}
  }

  /** Once the header lists all of the group, recovery shows every journalled write. */
  lemma ShowsAfterHeader(g: Geometry, d: seq<Block>, dirty: map<nat, Block>, listed: seq<nat>,
                         initial: seq<Block>, ws: seq<Write>, k: nat)
    requires IsDisk(g, initial) && k <= |ws| && CacheOk(g, d, dirty, Apply(initial, ws, k)) && ListOk(g, dirty, listed)
    requires |listed| <= g.Capacity() && LogCopied(g, d, dirty, listed) && HeaderLists(g, d, listed)
    ensures Shows(g, d, initial, ws, k)
  {
    forall b | g.Home(b) ensures Recovered(g, d, b) == Apply(initial, ws, k)[b] {
      if b in dirty {
        var i :| 0 <= i < |listed| && listed[i] == b;
        assert d[g.start][i + 1] == b;
        ReplayedListed(g, d, |listed|, i + 1);
      } else {
        ReplayedUnlisted(g, d, |listed|, b);
      }
    }
  }

  /** Installing some of the logged blocks leaves what recovery shows alone. */
  lemma ShowsWhileInstalling(g: Geometry, d: seq<Block>, e: seq<Block>, initial: seq<Block>, ws: seq<Write>, k: nat)
    requires Shows(g, d, initial, ws, k) && IsDisk(g, e) && SameLog(g, d, e)
    requires forall b :: g.Home(b) ==> Replayed(g, e, d[g.start][0], b) == Replayed(g, d, d[g.start][0], b)
    ensures Shows(g, e, initial, ws, k)
  {
    forall b | g.Home(b) ensures Recovered(g, e, b) == Recovered(g, d, b) {
      assert e[g.start] == d[g.start];
    }
  }

  /** Clearing the header after everything is installed leaves what recovery shows alone. */
  lemma ShowsAfterClear(g: Geometry, d: seq<Block>, e: seq<Block>, initial: seq<Block>, ws: seq<Write>, k: nat)
    requires Shows(g, d, initial, ws, k) && IsDisk(g, e) && SameHome(g, d, e) && e[g.start][0] == 0
    requires forall b :: g.Home(b) ==> d[b] == Recovered(g, d, b)
    ensures Shows(g, e, initial, ws, k)
  {
    forall b | g.Home(b) ensures Recovered(g, e, b) == Recovered(g, d, b) {
      assert Recovered(g, e, b) == e[b] && d[b] == Recovered(g, d, b);
    }
  }

  lemma CacheOkHome(g: Geometry, d: seq<Block>, e: seq<Block>, dirty: map<nat, Block>, image: seq<Block>)
    requires CacheOk(g, d, dirty, image) && IsDisk(g, e) && SameHome(g, d, e)
    ensures CacheOk(g, e, dirty, image)
  {
  }

  lemma CacheOkWhenClear(g: Geometry, d: seq<Block>, initial: seq<Block>, ws: seq<Write>, k: nat)
    requires Shows(g, d, initial, ws, k) && d[g.start][0] == 0
    ensures CacheOk(g, d, map[], Apply(initial, ws, k))
  {
    forall b | g.Home(b) ensures d[b] == Apply(initial, ws, k)[b] {
      assert Recovered(g, d, b) == d[b];
    }
  }

  /** What recovery shows does not depend on writes that are not visible. */
  lemma ShowsMore(g: Geometry, d: seq<Block>, initial: seq<Block>, ws: seq<Write>, k: nat, w: Write)
    requires Shows(g, d, initial, ws, k)
    ensures Shows(g, d, initial, ws + [w], k)
  {
    ApplyAgree(initial, ws, ws + [w], k);
  }

  lemma ShowsPrefix(g: Geometry, d: seq<Block>, initial: seq<Block>, ws: seq<Write>, k: nat)
    requires Shows(g, d, initial, ws, k)
    ensures k <= |ws| && Shows(g, d, initial, ws[..k], k)
  {
    ApplyAgree(initial, ws, ws[..k], k);
  }

  lemma WholeOpsGrow(journal: seq<Write>, visible: nat, running: seq<Running>, sealed: set<nat>, nextOp: nat,
                     r: nat, w: Write, blocks: set<nat>)
    requires WholeOps(journal, visible, running, sealed, nextOp) && r < |running| && w.op == running[r].op
    ensures WholeOps(journal + [w], visible, running[r := Running(w.op, blocks)], sealed, nextOp)
  {
  }

  lemma WholeOpsEnd(journal: seq<Write>, visible: nat, running: seq<Running>, sealed: set<nat>, nextOp: nat, r: nat)
    requires WholeOps(journal, visible, running, sealed, nextOp) && r < |running|
    ensures WholeOps(journal, visible, running[..r] + running[r + 1..], sealed, nextOp)
  {
  }

  lemma WholeOpsSeal(journal: seq<Write>, visible: nat, sealed: set<nat>, nextOp: nat)
    requires WholeOps(journal, visible, [], sealed, nextOp)
    ensures WholeOps(journal, |journal|, [], sealed + OpsOf(journal), nextOp)
  {
  }

  lemma WholeOpsCrash(journal: seq<Write>, visible: nat, running: seq<Running>, sealed: set<nat>, nextOp: nat)
    requires WholeOps(journal, visible, running, sealed, nextOp)
    ensures WholeOps(journal[..visible], visible, [], sealed, nextOp)
  {
  }

  function OpsOf(ws: seq<Write>): set<nat> {
    set i | 0 <= i < |ws| :: ws[i].op
  }

  lemma ListOkGrow(g: Geometry, dirty: map<nat, Block>, listed: seq<nat>, b: nat, data: Block)
    requires ListOk(g, dirty, listed) && g.Home(b)
    ensures b in listed ==> ListOk(g, dirty[b := data], listed)
    ensures b !in listed ==> ListOk(g, dirty[b := data], listed + [b])
  {
  }

  lemma CacheOkGrow(g: Geometry, d: seq<Block>, dirty: map<nat, Block>, initial: seq<Block>, ws: seq<Write>, w: Write)
    requires CacheOk(g, d, dirty, Apply(initial, ws, |ws|)) && g.Home(w.bno)
    ensures CacheOk(g, d, dirty[w.bno := w.data], Apply(initial, ws + [w], |ws| + 1))
  {
    ApplyAgree(initial, ws, ws + [w], |ws|);
  }

  // ---------- What happens, without the disk ----------

  /** What can happen next: a begin_op, a log_write or end_op by the r-th running operation, the
      commit that an end_op has asked for, or a crash and reboot. */
  datatype Event =
    | Begin
    | Put(r: nat, b: nat, data: Block)
    | End(r: nat)
    | Finish
    | Crash(power: nat)

  /** The power left after some block writes. */
  function Left(power: nat, writes: nat): nat {
    if power > writes then power - writes else 0
  }

  /** The log without block contents: `header` is the count in the on-disk header, and `sealed` the operations
      of the groups whose header write has completed, which the power left decides. */
  datatype View = View(power: nat, header: nat, listed: seq<nat>, running: seq<Running>, nextOp: nat,
                       committing: bool, panicked: bool, journal: seq<Write>, visible: nat, sealed: set<nat>) {
    predicate Up() {
      power > 0 && !panicked
    }

    predicate Enters() {
      Up() && !committing && |listed| + (|running| + 1) * MAXOPBLOCKS <= LOGSIZE
    }

    /** A log_write that takes place, or panics. */
    predicate Tries(g: Geometry, e: Event) {
      Up() && e.Put? && e.r < |running| && g.Home(e.b)
    }

    predicate Logs(g: Geometry, e: Event)
      requires g.Valid()
    {
      Tries(g, e) && |listed| < g.Capacity()
    }

    /** A log_write keeps its operation within MAXOPBLOCKS distinct blocks. */
    predicate InBudget(e: Event) {
      e.Put? && e.r < |running| ==> |running[e.r].blocks + {e.b}| <= MAXOPBLOCKS
    }

    function Logged(e: Event): View
      requires e.Put? && e.r < |running|
    {
      this.(journal := journal + [Write(running[e.r].op, e.b, e.data)],
            running := running[e.r := Running(running[e.r].op, running[e.r].blocks + {e.b})],
            listed := if e.b in listed then listed else listed + [e.b])
    }

    function Ended(r: nat): View
      requires r < |running|
    {
      var rest := running[..r] + running[r + 1..];
      this.(running := rest, committing := rest == [])
    }

    /** The commit of n blocks takes n writes to the log, one of the header, n installs and one to clear the
        header. The group is sealed exactly if the power lasts for the header write. */
    function Committed(): View {
      var n := |listed|;
      if n == 0 then this.(committing := false)
      else
        var seals := power > n;
        this.(power := Left(power, 2 * n + 2), listed := [], committing := false,
              header := if !seals then header else if power > 2 * n + 1 then 0 else n,
              visible := if seals then |journal| else visible,
              sealed := if seals then sealed + OpsOf(journal) else sealed)
    }

    /** Memory is lost, and with it what is not visible; recovery installs what the header lists and clears it. */
    function Rebooted(newPower: nat): View
      requires visible <= |journal|
    {
      View(Left(newPower, header + 1), if newPower > header then 0 else header, [], [], nextOp,
           false, false, journal[..visible], visible, sealed)
    }

    /** What event e does; nothing where the code would sleep, or the machine is down. */
    function Step(g: Geometry, e: Event): View
      requires g.Valid() && visible <= |journal|
    {
      match e
      case Begin => if Enters() then this.(running := running + [Running(nextOp, {})], nextOp := nextOp + 1) else this
      case Put(r, b, data) => if Logs(g, e) then Logged(e) else if Tries(g, e) then this.(panicked := true) else this
      case End(r) => if Up() && r < |running| then Ended(r) else this
      case Finish => if Up() && committing then Committed() else this
      case Crash(newPower) => Rebooted(newPower)
    }

    /** The write that event e logs, if any. */
    function Written(g: Geometry, e: Event): seq<Write>
      requires g.Valid()
    {
      if Logs(g, e) then [Write(running[e.r].op, e.b, e.data)] else []
    }
  }

  // ---------- The log ----------

  class Log {
    const g: Geometry
    var disk: seq<Block>
    var power: nat
    var dirty: map<nat, Block>       // buffers pinned by B_DIRTY
    var n: nat                       // lh.n
    const block: array<nat>          // lh.block
    var outstanding: int
    var committing: bool
    var panicked: bool

    ghost var initial: seq<Block>    // home blocks when the history starts
    ghost var journal: seq<Write>    // every logged write not lost in a crash, oldest first
    ghost var visible: nat           // how many of them are covered by completed header writes
    ghost var sealed: set<nat>       // the operations they belong to
    ghost var running: seq<Running>
    ghost var nextOp: nat

    ghost function Listed(): seq<nat>
      reads this, block
      requires n <= block.Length
    {
      block[..n]
    }

    /** What bread returns: a pinned buffer, or the block on disk. */
    function Content(b: nat): Block
      reads this`dirty, this`disk
      requires b < |disk|
    {
      if b in dirty then dirty[b] else disk[b]
    }

    ghost function Now(): View
      reads this, block
      requires Shape()
    {
      View(power, disk[g.start][0], Listed(), running, nextOp, committing, panicked, journal, visible, sealed)
    }

    ghost predicate Shape()
      reads this, block
    {
      IsDisk(g, disk) && block.Length == LOGSIZE && n <= g.Capacity()
    }

    ghost predicate MemoryOk()
      reads this, block
    {
      && Shape()
      && IsDisk(g, initial)
      && disk[g.start][0] == 0
      && ListOk(g, dirty, Listed())
      && CacheOk(g, disk, dirty, Apply(initial, journal, |journal|))
      && (n == 0 ==> visible == |journal|)
      && outstanding == |running|
      && (committing ==> outstanding == 0)
    }

    ghost predicate Reserved()
      reads this, block
      requires Shape()
    {
      SpaceReserved(Listed(), running)
    }

    ghost predicate Valid()
      reads this, block
    {
      && Shape()
      && WholeOps(journal, visible, running, sealed, nextOp)
      && Shows(g, disk, initial, journal, visible)
      && (power > 0 ==> MemoryOk())
    }

    /** Header writes only ever add to what is visible, and nothing drops it. */
    twostate predicate Durable()
      reads this
    {
      && old(visible) <= visible <= |journal|
      && old(visible) <= |old(journal)|
      && journal[..old(visible)] == old(journal)[..old(visible)]
      && old(sealed) <= sealed
      && initial == old(initial)
    }

    /** A freshly made file system: an empty log. */
    constructor (g: Geometry, image: seq<Block>, power: nat)
      requires IsDisk(g, image) && image[g.start][0] == 0
      ensures Valid() && fresh(block) && this.g == g && this.power == power
      ensures initial == image && journal == [] && running == [] && sealed == {} && n == 0
      ensures !committing && !panicked && Reserved() && Now() == Start(power)
    {
      this.g := g;
      disk, this.power, dirty, n := image, power, map[], 0;
      block := new nat[LOGSIZE](_ => 0);
      outstanding, committing, panicked := 0, false, false;
      initial, journal, visible, sealed, running, nextOp := image, [], 0, {}, [], 0;
    }

    method Bwrite(b: nat, data: Block)
      requires b < |disk|
      modifies this`disk, this`power, this`dirty
      ensures disk == if old(power) > 0 then old(disk)[b := data] else old(disk)
      ensures power == if old(power) > 0 then old(power) - 1 else 0
      ensures dirty == old(dirty) - {b}
    {
      if power > 0 {
        disk := disk[b := data];
        power := power - 1;
      }
      dirty := dirty - {b};
    }

    /** write_head: one block write that carries lh.n and the listed block numbers. */
    method WriteHead()
      requires Shape()
      modifies this`disk, this`power, this`dirty
      ensures dirty == old(dirty) - {g.start}
      ensures power == if old(power) > 0 then old(power) - 1 else 0
      ensures IsDisk(g, disk)
      ensures forall b :: 0 <= b < g.blocks && b != g.start ==> disk[b] == old(disk)[b]
      ensures if old(power) > 0 then HeaderLists(g, disk, Listed()) else disk == old(disk)
    {
      var hb: Block := Content(g.start);
      hb := hb[0 := n];
      var i := 0;
      while i < n
        invariant i <= n && hb[0] == n
        invariant forall k :: 1 <= k <= i ==> hb[k] == block[k - 1]
      {
        hb := hb[1 + i := block[i]];
        i := i + 1;
      }
      Bwrite(g.start, hb);
    }

    /** write_log: copies the listed buffers into the log's data blocks. */
    method WriteLog()
      requires Shape()
      requires forall i :: 0 <= i < n ==> g.Home(block[i]) && block[i] in dirty
      requires forall b :: b in dirty ==> g.Home(b)
      modifies this`disk, this`power, this`dirty
      ensures IsDisk(g, disk) && dirty == old(dirty)
      ensures power == Left(old(power), n) && (old(power) == 0 ==> disk == old(disk))
      ensures SameHome(g, old(disk), disk) && disk[g.start] == old(disk)[g.start]
      ensures power > 0 ==> LogCopied(g, disk, dirty, Listed())
    {
      var tail := 0;
      while tail < n
        invariant tail <= n && IsDisk(g, disk) && dirty == old(dirty)
        invariant power == Left(old(power), tail) && (old(power) == 0 ==> disk == old(disk))
        invariant SameHome(g, old(disk), disk) && disk[g.start] == old(disk)[g.start]
        invariant power > 0 ==> forall i {:trigger block[i]} :: 0 <= i < tail ==>
          disk[g.start + 1 + i] == dirty[block[i]]
      {
        Bwrite(g.start + tail + 1, Content(block[tail]));
        tail := tail + 1;
      }
    }

    /** install_trans: copies log blocks home. However far it gets, recovery sees the same image. */
    method InstallTrans()
      requires Shape() && n <= g.Capacity()
      requires forall i :: 0 <= i < n ==> g.Home(block[i])
      requires forall b :: b in dirty ==> g.Home(b)
      requires power > 0 ==> HeaderLists(g, disk, Listed())
      modifies this`disk, this`power, this`dirty
      ensures IsDisk(g, disk) && SameLog(g, old(disk), disk)
      ensures power == Left(old(power), n) && (old(power) == 0 ==> disk == old(disk))
      ensures forall b :: g.Home(b) && old(power) > 0 ==> Replayed(g, disk, n, b) == Replayed(g, old(disk), n, b)
      ensures forall b :: g.Home(b) && power > 0 ==> disk[b] == Replayed(g, old(disk), n, b)
      ensures dirty == old(dirty) - (set i | 0 <= i < n :: block[i])
    {
      hide Installing, Installed, HeaderOk, Replayed, SameLog;
      var tail := 0;
      ghost var d := disk;
      InstalledNone(g, d, n);
      while tail < n
        invariant tail <= n && IsDisk(g, disk) && SameLog(g, d, disk) && power == Left(old(power), tail)
        invariant old(power) == 0 ==> disk == d
        invariant old(power) > 0 ==> Installing(g, d, disk, n)
        invariant power > 0 ==> Installed(g, d, disk, tail)
        invariant dirty == old(dirty) - (set i | 0 <= i < tail :: block[i])
      {
        if power > 0 { InstallOne(g, d, disk, n, tail, block[tail]); }
        Bwrite(block[tail], Content(g.start + tail + 1));
        tail := tail + 1;
      }
      if old(power) > 0 { InstallingKeeps(g, d, disk, n); }
      if power > 0 { InstalledAll(g, d, disk, n); }
    }

    /** The first half of commit: log the group, then seal it with the header write. */
    method LogAndSeal()
      requires Valid() && power > 0 && n > 0 && running == []
      modifies this`disk, this`power, this`dirty, this`visible, this`sealed
      ensures Shape() && dirty == old(dirty)
      ensures power == Left(old(power), n + 1) && old(sealed) <= sealed
      ensures WholeOps(journal, visible, running, sealed, nextOp)
      ensures disk[g.start][0] == if old(power) > n then n else 0
      ensures
        if disk[g.start][0] != 0 then visible == |journal| && sealed == old(sealed) + OpsOf(journal)
        else visible == old(visible) && sealed == old(sealed)
      ensures Shows(g, disk, initial, journal, visible)
      ensures power > 0 ==> visible == |journal| && HeaderLists(g, disk, Listed())
    {
      hide SpaceReserved, WholeOps, Shows, CacheOk, HeaderOk;
      ghost var before := disk;
      WriteLog();
      ShowsAfterLogCopy(g, old(disk), disk, initial, journal, visible);
      ghost var up := power > 0;
      WriteHead();
      assert dirty == old(dirty);
      if up {
        WholeOpsSeal(journal, visible, sealed, nextOp);
        sealed := sealed + OpsOf(journal);
        visible := |journal|;
        CacheOkHome(g, before, disk, dirty, Apply(initial, journal, |journal|));
        ShowsAfterHeader(g, disk, dirty, Listed(), initial, journal, |journal|);
      }
    }

    /** The second half of commit, and all of recovery after read_head: install, then clear the header. */
    method InstallAndClear(ghost ws: seq<Write>, ghost k: nat)
      requires Shape() && Shows(g, disk, initial, ws, k)
      requires forall i :: 0 <= i < n ==> g.Home(block[i])
      requires forall b :: b in dirty ==> g.Home(b) && b in Listed()
      requires power > 0 ==> HeaderLists(g, disk, Listed())
      modifies this`disk, this`power, this`dirty, this`n
      ensures Shape() && Shows(g, disk, initial, ws, k) && n == 0
      ensures power == Left(old(power), old(n) + 1)
      ensures disk[g.start][0] == if old(power) > old(n) then 0 else old(disk)[g.start][0]
      ensures power > 0 ==> dirty == map[]
    {
      ghost var up := power > 0;
      InstallTrans();
      if up { ShowsWhileInstalling(g, old(disk), disk, initial, ws, k); }
      ghost var installed, upAgain := disk, power > 0;
      n := 0;
      WriteHead();
      if upAgain { ShowsAfterClear(g, installed, disk, initial, ws, k); }
    }

    /** commit: whichever write is the last to reach the disk, recovery shows the image before or
        the image after the whole group, and the header write is what separates the two. */
    method Commit()
      requires Valid() && power > 0 && committing && running == []
      modifies this`disk, this`power, this`dirty, this`n, this`visible, this`sealed
      ensures Valid() && Durable() && Now().(committing := false) == old(Now()).Committed()
      ensures
        || (visible == old(visible) && sealed == old(sealed))
        || (visible == |journal| && sealed == old(sealed) + OpsOf(journal))
      ensures power > 0 ==> visible == |journal| && n == 0
    {
      hide SpaceReserved, CacheOk, Shows;
      if n > 0 {
        LogAndSeal();
        InstallAndClear(journal, visible);
        if power > 0 { CacheOkWhenClear(g, disk, initial, journal, |journal|); }
      }
    }

    /** One round of the loop of begin_op; `entered` is false where the code sleeps. */
    method BeginOp() returns (entered: bool, ghost op: nat)
      requires Valid() && power > 0 && !panicked
      modifies this`outstanding, this`running, this`nextOp
      ensures Valid() && (old(Reserved()) ==> Reserved())
      ensures entered <==> !committing && n + (old(outstanding) + 1) * MAXOPBLOCKS <= LOGSIZE
      ensures op == old(nextOp)
      ensures entered ==> running == old(running) + [Running(op, {})]
      ensures if entered then nextOp == op + 1 else running == old(running) && nextOp == op
      ensures Now() == old(Now()).Step(g, Begin)
    {
      hide Shows, CacheOk, ListOk, SpaceReserved;
      op := nextOp;
      if committing {
        entered := false;
      } else if n + (outstanding + 1) * MAXOPBLOCKS > LOGSIZE {
        entered := false;
      } else {
        entered := true;
        outstanding := outstanding + 1;
        if Reserved() { SpaceAfterBegin(Listed(), running, op); }
        running := running + [Running(op, {})];
        nextOp := nextOp + 1;
      }
    }

    /** log_write by the running operation in slot r, after it has put `data` in block b's buffer. */
    method LogWrite(ghost r: nat, b: nat, data: Block) returns (ok: bool)
      requires Valid() && power > 0 && !panicked && r < |running| && g.Home(b)
      modifies this`dirty, this`n, block, this`panicked, this`journal, this`running
      ensures Valid() && panicked == !ok
      ensures ok <==> old(n) < g.Capacity()
      ensures ok ==> journal == old(journal) + [Write(old(running)[r].op, b, data)] && Content(b) == data
      ensures ok ==> running == old(running)[r := Running(old(running)[r].op, old(running)[r].blocks + {b})]
      ensures ok ==> Listed() == if b in old(Listed()) then old(Listed()) else old(Listed()) + [b]
      ensures ok && old(Reserved()) && |running[r].blocks| <= MAXOPBLOCKS ==> Reserved()
      ensures !ok ==> journal == old(journal) && running == old(running)
      ensures Now() == old(Now()).Step(g, Put(r, b, data))
    {
      hide Shows, CacheOk, ListOk, WholeOps;
      ok := n < LOGSIZE && n < g.size - 1 && outstanding >= 1;
      if ok {
        if Reserved() && |running[r].blocks + {b}| <= MAXOPBLOCKS { SpaceAfterWrite(Listed(), running, r, b); }
        Record(r, b, data);
      } else {
        panicked := true;
      }
    }

    /** The part of log_write under the lock, past the panic checks. */
    method Record(ghost r: nat, b: nat, data: Block)
      requires Valid() && power > 0 && r < |running| && g.Home(b) && n < g.Capacity()
      modifies this`dirty, this`n, block, this`journal, this`running
      ensures Valid()
      ensures journal == old(journal) + [Write(old(running)[r].op, b, data)] && Content(b) == data
      ensures running == old(running)[r := Running(old(running)[r].op, old(running)[r].blocks + {b})]
      ensures Listed() == if b in old(Listed()) then old(Listed()) else old(Listed()) + [b]
    {
      hide Shows, CacheOk, ListOk, WholeOps, SpaceReserved, Apply;
      ghost var w, blocks := Write(running[r].op, b, data), running[r].blocks + {b};
      Journal(r, w, blocks);
      Pin(b, data);
    }

    /** The write is now part of the history, though not yet in its buffer. */
    ghost method Journal(r: nat, w: Write, blocks: set<nat>)
      requires Valid() && power > 0 && r < |running| && w.op == running[r].op && g.Home(w.bno)
      modifies this`journal, this`running
      ensures journal == old(journal) + [w] && running == old(running)[r := Running(w.op, blocks)]
      ensures WholeOps(journal, visible, running, sealed, nextOp) && Shows(g, disk, initial, journal, visible)
      ensures CacheOk(g, disk, dirty[w.bno := w.data], Apply(initial, journal, |journal|))
    {
      hide Shows, CacheOk, ListOk, WholeOps, SpaceReserved, Apply;
      CacheOkGrow(g, disk, dirty, initial, journal, w);
      WholeOpsGrow(journal, visible, running, sealed, nextOp, r, w, blocks);
      ShowsMore(g, disk, initial, journal, visible, w);
      running := running[r := Running(w.op, blocks)];
      journal := journal + [w];
    }

    /** The list and buffer update of log_write: a block already listed is absorbed. */
    method Pin(b: nat, data: Block)
      requires Shape() && ListOk(g, dirty, Listed()) && g.Home(b) && n < g.Capacity()
      modifies this`n, this`dirty, block
      ensures Shape() && ListOk(g, dirty, Listed()) && n > 0
      ensures dirty == old(dirty)[b := data]
      ensures Listed() == if b in old(Listed()) then old(Listed()) else old(Listed()) + [b]
    {
      ListOkGrow(g, dirty, Listed(), b, data);
      Absorb(b);
      dirty := dirty[b := data];
    }

    method Absorb(b: nat)
      requires Shape() && n < g.Capacity()
      modifies this`n, block
      ensures Shape() && n > 0
      ensures Listed() == if b in old(Listed()) then old(Listed()) else old(Listed()) + [b]
    {
      var i := 0;
      while i < n && block[i] != b
        invariant i <= n
        invariant forall k :: 0 <= k < i ==> block[k] != b
      {
        i := i + 1;
      }
      block[i] := b;
      if i == n {
        n := n + 1;
      }
    }

    /** end_op up to its first release: the last operation out must run the commit. */
    method EndOp(ghost r: nat) returns (doCommit: bool)
      requires Valid() && power > 0 && !panicked && r < |running|
      modifies this`outstanding, this`committing, this`running, this`panicked
      ensures Valid() && !panicked
      ensures running == old(running)[..r] + old(running)[r + 1..]
      ensures doCommit == committing && (doCommit <==> running == []) && Now() == old(Now()).Step(g, End(r))
      ensures old(Reserved()) ==> Reserved()
    {
      hide Shows, CacheOk, ListOk, SpaceReserved, WholeOps;
      doCommit := false;
      outstanding := outstanding - 1;
      panicked := committing;
      if outstanding == 0 {
        doCommit := true;
        committing := true;
      }
      if Reserved() { SpaceAfterEnd(Listed(), running, r); }
      WholeOpsEnd(journal, visible, running, sealed, nextOp, r);
      running := running[..r] + running[r + 1..];
    }

    /** end_op after its first release, for the operation that must commit. */
    method FinishCommit()
      requires Valid() && power > 0 && committing && running == []
      modifies this`disk, this`power, this`dirty, this`n, this`visible, this`sealed, this`committing
      ensures Valid() && Durable() && Now() == old(Now()).Committed()
      ensures
        || (visible == old(visible) && sealed == old(sealed))
        || (visible == |journal| && sealed == old(sealed) + OpsOf(journal))
      ensures power > 0 ==> visible == |journal| && n == 0 && Reserved()
    {
      Commit();
      committing := false;
    }

    /** read_head */
    method ReadHead()
      requires Shape() && HeaderOk(g, disk) && dirty == map[]
      modifies this`n, block
      ensures Shape() && HeaderLists(g, disk, Listed())
    {
      var header := Content(g.start);
      n := header[0];
      var i := 0;
      while i < n
        invariant i <= n == header[0]
        invariant forall k :: 1 <= k <= i ==> header[k] == block[k - 1]
      {
        block[i] := header[i + 1];
        i := i + 1;
      }
    }

    /** A crash, then a boot with `newPower` writes until the next crash. Memory is lost, and with it
        the writes that no header write had made visible. */
    method Reboot(newPower: nat)
      requires Valid()
      modifies this, block
      ensures Valid() && Durable() && Now() == old(Now()).Rebooted(newPower)
      ensures newPower >= LOGSIZE + 2 ==> power > 0
      ensures power > 0 ==> Reserved() && disk[g.start][0] == 0
      ensures power > 0 ==> forall b :: g.Home(b) ==> disk[b] == Apply(initial, journal, |journal|)[b]
    {
      hide Shows, CacheOk;
      WholeOpsCrash(journal, visible, running, sealed, nextOp);
      power, dirty, n := newPower, map[], 0;
      outstanding, committing, panicked := 0, false, false;
      ShowsPrefix(g, disk, initial, journal, visible);
      journal, running := journal[..visible], [];
      RecoverFromLog();
    }

    method RecoverFromLog()
      requires Shape() && dirty == map[] && Shows(g, disk, initial, journal, |journal|)
      modifies this`disk, this`power, this`dirty, this`n, block
      ensures Shape() && Shows(g, disk, initial, journal, |journal|) && n == 0
      ensures power == Left(old(power), old(disk)[g.start][0] + 1)
      ensures disk[g.start][0] == if old(power) > old(disk)[g.start][0] then 0 else old(disk)[g.start][0]
      ensures old(power) >= LOGSIZE + 2 ==> power > 0
      ensures power > 0 ==> dirty == map[] && disk[g.start][0] == 0
      ensures power > 0 ==> CacheOk(g, disk, dirty, Apply(initial, journal, |journal|))
    {
      ReadHead();
      forall i | 0 <= i < n ensures g.Home(block[i]) {
        assert disk[g.start][i + 1] == Listed()[i];
      }
      InstallAndClear(journal, |journal|);
      if power > 0 { CacheOkWhenClear(g, disk, initial, journal, |journal|); }
    }
  }

  // ---------- Whole runs ----------

  /** The writes of the given operations, in their order. */
  function Keep(ws: seq<Write>, ops: set<nat>): seq<Write> {
    if ws == [] then []
    else
      var w := ws[|ws| - 1];
      Keep(ws[..|ws| - 1], ops) + if w.op in ops then [w] else []
  }

  function Of(ws: seq<Write>, op: nat): seq<Write> {
    Keep(ws, {op})
  }

  lemma {:induction false} KeepSame(ws: seq<Write>, a: set<nat>, b: set<nat>)
    requires forall i :: 0 <= i < |ws| ==> (ws[i].op in a <==> ws[i].op in b)
    ensures Keep(ws, a) == Keep(ws, b)
  {
    if ws != [] { KeepSame(ws[..|ws| - 1], a, b); }
  }

  lemma KeepMore(ws: seq<Write>, w: Write, ops: set<nat>)
    ensures Keep(ws + [w], ops) == Keep(ws, ops) + if w.op in ops then [w] else []
  {
    assert (ws + [w])[..|ws|] == ws;
  }

  lemma {:induction false} KeepKeep(ws: seq<Write>, a: set<nat>, b: set<nat>)
    ensures Keep(Keep(ws, a), b) == Keep(ws, a * b)
  {
    if ws != [] {
      var last := |ws| - 1;
      var kept := Keep(ws[..last], a);
      KeepKeep(ws[..last], a, b);
      if ws[last].op in a { KeepMore(kept, ws[last], b); } else { assert kept + [] == kept; }
    }
  }

  lemma {:induction false} KeepPrefix(ws: seq<Write>, k: nat, ops: set<nat>)
    requires k <= |ws| && forall i :: 0 <= i < |ws| ==> (ws[i].op in ops <==> i < k)
    ensures Keep(ws, ops) == ws[..k]
  {
    if ws != [] {
      var last := |ws| - 1;
      KeepPrefix(ws[..last], if k <= last then k else last, ops);
      assert ws[..last][..if k <= last then k else last] == if k <= last then ws[..k] else ws[..last];
      if k > last { assert ws[..last] + [ws[last]] == ws[..k]; }
    }
  }

  /** The journal is the history without the operations lost in crashes, which are over and were never sealed. */
  ghost predicate HistoryOk(history: seq<Write>, journal: seq<Write>, running: seq<Running>, sealed: set<nat>,
                            nextOp: nat) {
    && journal == Keep(history, OpsOf(journal))
    && (forall i :: 0 <= i < |history| ==> history[i].op < nextOp)
    && (forall i, r :: 0 <= i < |history| && 0 <= r < |running| && history[i].op == running[r].op ==>
          history[i].op in OpsOf(journal))
    && (forall i :: 0 <= i < |history| && history[i].op in sealed ==> history[i].op in OpsOf(journal))
  }

  lemma HistoryAfterBegin(history: seq<Write>, journal: seq<Write>, running: seq<Running>, sealed: set<nat>,
                          nextOp: nat)
    requires HistoryOk(history, journal, running, sealed, nextOp)
    ensures HistoryOk(history, journal, running + [Running(nextOp, {})], sealed, nextOp + 1)
  {
    hide Keep;
  }

  lemma HistoryAfterWrite(history: seq<Write>, journal: seq<Write>, running: seq<Running>, sealed: set<nat>,
                          nextOp: nat, r: nat, w: Write, blocks: set<nat>)
    requires HistoryOk(history, journal, running, sealed, nextOp)
    requires r < |running| && w.op == running[r].op && w.op < nextOp
    ensures HistoryOk(history + [w], journal + [w], running[r := Running(w.op, blocks)], sealed, nextOp)
  {
    var ops := OpsOf(journal + [w]);
    OpsOfMore(journal, w);
    KeepSame(history, OpsOf(journal), ops);
    KeepMore(history, w, ops);
  }

  lemma OpsOfMore(ws: seq<Write>, w: Write)
    ensures OpsOf(ws + [w]) == OpsOf(ws) + {w.op}
  {
    forall op | op in OpsOf(ws) ensures op in OpsOf(ws + [w]) {
      var i :| 0 <= i < |ws| && ws[i].op == op;
      assert (ws + [w])[i].op == op;
    }
    assert (ws + [w])[|ws|].op == w.op;
  }

  lemma HistoryAfterEnd(history: seq<Write>, journal: seq<Write>, running: seq<Running>, sealed: set<nat>, nextOp: nat,
                        r: nat)
    requires HistoryOk(history, journal, running, sealed, nextOp) && r < |running|
    ensures HistoryOk(history, journal, running[..r] + running[r + 1..], sealed, nextOp)
  {
    hide Keep;
  }

  lemma HistoryAfterSeal(history: seq<Write>, journal: seq<Write>, sealed: set<nat>, nextOp: nat)
    requires HistoryOk(history, journal, [], sealed, nextOp)
    ensures HistoryOk(history, journal, [], sealed + OpsOf(journal), nextOp)
  {
    hide Keep;
  }

  /** What recovery shows is the history without the operations that are not sealed. */
  lemma VisibleIsKept(history: seq<Write>, journal: seq<Write>, visible: nat, running: seq<Running>,
                      sealed: set<nat>, nextOp: nat)
    requires WholeOps(journal, visible, running, sealed, nextOp)
    requires HistoryOk(history, journal, running, sealed, nextOp)
    ensures journal[..visible] == Keep(history, sealed)
  {
    hide Keep;
    KeepPrefix(journal, visible, sealed);
    KeepKeep(history, OpsOf(journal), sealed);
    KeepSame(history, OpsOf(journal) * sealed, sealed);
  }

  lemma HistoryAfterCrash(history: seq<Write>, journal: seq<Write>, visible: nat, running: seq<Running>,
                          sealed: set<nat>, nextOp: nat)
    requires WholeOps(journal, visible, running, sealed, nextOp)
    requires HistoryOk(history, journal, running, sealed, nextOp)
    ensures HistoryOk(history, journal[..visible], [], sealed, nextOp)
  {
    hide Keep;
    var shown := journal[..visible];
    VisibleIsKept(history, journal, visible, running, sealed, nextOp);
    forall i | 0 <= i < |history| ensures history[i].op in sealed <==> history[i].op in OpsOf(shown) {
      if history[i].op in sealed {
        var k :| 0 <= k < |journal| && journal[k].op == history[i].op;
        assert shown[k].op == history[i].op;
      }
      if k :| 0 <= k < |shown| && shown[k].op == history[i].op { assert journal[k].op in sealed; }
    }
    KeepSame(history, sealed, OpsOf(shown));
  }

  /** A view reached by some run, with all the writes ever logged on the way, kept or lost. */
  ghost predicate ViewOk(v: View, history: seq<Write>) {
    && WholeOps(v.journal, v.visible, v.running, v.sealed, v.nextOp) && (v.committing ==> v.running == [])
    && HistoryOk(history, v.journal, v.running, v.sealed, v.nextOp)
  }

  lemma ViewStep(g: Geometry, v: View, e: Event, history: seq<Write>)
    requires g.Valid() && ViewOk(v, history)
    ensures ViewOk(v.Step(g, e), history + v.Written(g, e))
  {
    hide WholeOps, HistoryOk;
    assert history + [] == history;
    match e
    case Begin =>
      HistoryAfterBegin(history, v.journal, v.running, v.sealed, v.nextOp);
      WholeOpsBegin(v.journal, v.visible, v.running, v.sealed, v.nextOp);
    case Put(r, b, data) =>
      if v.Logs(g, e) {
        var w, blocks := Write(v.running[r].op, b, data), v.running[r].blocks + {b};
        RunningOld(v.journal, v.visible, v.running, v.sealed, v.nextOp, r);
        HistoryAfterWrite(history, v.journal, v.running, v.sealed, v.nextOp, r, w, blocks);
        WholeOpsGrow(v.journal, v.visible, v.running, v.sealed, v.nextOp, r, w, blocks);
      }
    case End(r) =>
      if v.Up() && r < |v.running| {
        HistoryAfterEnd(history, v.journal, v.running, v.sealed, v.nextOp, r);
        WholeOpsEnd(v.journal, v.visible, v.running, v.sealed, v.nextOp, r);
      }
    case Finish =>
      if v.Up() && v.committing {
        HistoryAfterSeal(history, v.journal, v.sealed, v.nextOp);
        WholeOpsSeal(v.journal, v.visible, v.sealed, v.nextOp);
      }
    case Crash(newPower) =>
      WholeOpsVisible(v.journal, v.visible, v.running, v.sealed, v.nextOp);
      HistoryAfterCrash(history, v.journal, v.visible, v.running, v.sealed, v.nextOp);
      WholeOpsCrash(v.journal, v.visible, v.running, v.sealed, v.nextOp);
  }

  lemma WholeOpsBegin(journal: seq<Write>, visible: nat, running: seq<Running>, sealed: set<nat>, nextOp: nat)
    requires WholeOps(journal, visible, running, sealed, nextOp)
    ensures WholeOps(journal, visible, running + [Running(nextOp, {})], sealed, nextOp + 1)
  {
  }

  lemma WholeOpsVisible(journal: seq<Write>, visible: nat, running: seq<Running>, sealed: set<nat>, nextOp: nat)
    requires WholeOps(journal, visible, running, sealed, nextOp)
    ensures visible <= |journal|
  {
  }

  lemma RunningOld(journal: seq<Write>, visible: nat, running: seq<Running>, sealed: set<nat>, nextOp: nat, r: nat)
    requires WholeOps(journal, visible, running, sealed, nextOp) && r < |running|
    ensures running[r].op < nextOp
  {
  }

  function Start(power: nat): View {
    View(power, 0, [], [], 0, false, false, [], 0, {})
  }

  /** The view after the events, and every write that they log. */
  ghost function Run(g: Geometry, power: nat, events: seq<Event>): (r: (View, seq<Write>))
    requires g.Valid()
    ensures ViewOk(r.0, r.1)
  {
    if events == [] then (Start(power), [])
    else
      var (v, history) := Run(g, power, events[..|events| - 1]);
      var e := events[|events| - 1];
      ViewStep(g, v, e, history);
      (v.Step(g, e), history + v.Written(g, e))
  }

  /** Crash atomicity over whole runs: recovery shows, in their order, the writes of the operations of groups whose
      header write completed, and no other. So of every operation it shows everything or nothing. */
  lemma WholeOperations(g: Geometry, power: nat, events: seq<Event>)
    requires g.Valid()
    ensures
      var (v, history) := Run(g, power, events);
      && v.visible <= |v.journal| && v.journal[..v.visible] == Keep(history, v.sealed)
      && forall op :: Of(v.journal[..v.visible], op) == if op in v.sealed then Of(history, op) else []
  {
    hide Keep;
    var (v, history) := Run(g, power, events);
    VisibleIsKept(history, v.journal, v.visible, v.running, v.sealed, v.nextOp);
    forall op ensures Of(v.journal[..v.visible], op) == if op in v.sealed then Of(history, op) else [] {
      KeepKeep(history, v.sealed, {op});
      assert v.sealed * {op} == if op in v.sealed then {op} else {};
      KeepNone(history);
    }
  }

  lemma {:induction false} KeepNone(ws: seq<Write>)
    ensures Keep(ws, {}) == []
  {
    if ws != [] { KeepNone(ws[..|ws| - 1]); }
  }

  // ---------- Space in the log, over whole runs ----------

  lemma RunAfter(g: Geometry, power: nat, events: seq<Event>, e: Event)
    requires g.Valid()
    ensures Run(g, power, events + [e]).0 == Run(g, power, events).0.Step(g, e)
    ensures Run(g, power, events + [e]).1 == Run(g, power, events).1 + Run(g, power, events).0.Written(g, e)
  {
    assert (events + [e])[..|events|] == events;
  }

  /** No operation ever logs more than MAXOPBLOCKS distinct blocks. */
  ghost predicate Budgeted(g: Geometry, power: nat, events: seq<Event>)
    requires g.Valid()
  {
    forall k :: 0 <= k < |events| ==> Run(g, power, events[..k]).0.InBudget(events[k])
  }

  lemma BudgetedAfter(g: Geometry, power: nat, events: seq<Event>, e: Event)
    requires g.Valid() && Budgeted(g, power, events) && Run(g, power, events).0.InBudget(e)
    ensures Budgeted(g, power, events + [e])
  {
    hide Run, View.InBudget;
    var all := events + [e];
    forall k | 0 <= k < |all| ensures Run(g, power, all[..k]).0.InBudget(all[k]) {
      assert all[..k] == events[..k];
      assert events[..|events|] == events;
    }
  }

  lemma BudgetedBefore(g: Geometry, power: nat, events: seq<Event>, n: nat)
    requires g.Valid() && Budgeted(g, power, events) && n <= |events|
    ensures Budgeted(g, power, events[..n])
  {
    hide Run, View.InBudget;
    forall k | 0 <= k < n ensures Run(g, power, events[..n][..k]).0.InBudget(events[..n][k]) {
      assert events[..n][..k] == events[..k];
    }
  }

  lemma SpaceStep(g: Geometry, v: View, e: Event)
    requires g.Valid() && SpaceReserved(v.listed, v.running) && v.InBudget(e) && v.visible <= |v.journal|
    requires v.committing ==> v.running == []
    ensures SpaceReserved(v.Step(g, e).listed, v.Step(g, e).running)
  {
    hide SpaceReserved;
    NoSpaceNeeded();
    match e
    case Begin => if v.Enters() { SpaceAfterBegin(v.listed, v.running, v.nextOp); }
    case Put(r, b, _) => if v.Logs(g, e) { SpaceAfterWrite(v.listed, v.running, r, b); }
    case End(r) => if v.Up() && r < |v.running| { SpaceAfterEnd(v.listed, v.running, r); }
    case Finish =>
    case Crash(_) =>
  }

  lemma NoSpaceNeeded()
    ensures SpaceReserved([], [])
  {
  }

  /** In every run of operations within their budgets, the listed blocks and what is reserved fit in LOGSIZE. */
  lemma {:induction false} SpaceOnRuns(g: Geometry, power: nat, events: seq<Event>)
    requires g.Valid() && Budgeted(g, power, events)
    ensures SpaceReserved(Run(g, power, events).0.listed, Run(g, power, events).0.running)
  {
    hide SpaceReserved;
    if events == [] {
      NoSpaceNeeded();
    } else {
      var n := |events| - 1;
      BudgetedBefore(g, power, events, n);
      SpaceOnRuns(g, power, events[..n]);
      RunUp(g, power, events[..n]);
      SpaceStep(g, Run(g, power, events[..n]).0, events[n]);
    }
  }

  lemma RunUp(g: Geometry, power: nat, events: seq<Event>)
    requires g.Valid()
    ensures
      var v := Run(g, power, events).0;
      v.visible <= |v.journal| && (v.committing ==> v.running == [])
  {
  }

  /** After such a run, a log_write within its operation's budget panics exactly when the list is as long as
      LOGSIZE or as the disk's log; if the disk's log has more than LOGSIZE blocks, that is only when every
      operation has used up its budget, and the block is listed already. */
  lemma PanicsOnRuns(g: Geometry, power: nat, events: seq<Event>, e: Event)
    requires g.Valid() && Budgeted(g, power, events)
    requires
      var v := Run(g, power, events).0;
      v.Tries(g, e) && v.InBudget(e)
    ensures
      var v := Run(g, power, events).0;
      && (v.Step(g, e).panicked <==> |v.listed| >= LOGSIZE || |v.listed| >= g.size - 1)
      && (g.size > LOGSIZE && v.Step(g, e).panicked ==>
            |v.listed| == LOGSIZE && Unused(v.running) == 0 && e.b in v.listed)
  {
    var v := Run(g, power, events).0;
    SpaceOnRuns(g, power, events);
    ReservedWriteFits(g, v.listed, v.running, e.r, e.b);
    UnusedBounds(v.running, 0);
  }

  lemma {:induction false} ListedOnRuns(g: Geometry, power: nat, events: seq<Event>)
    requires g.Valid()
    ensures Distinct(Run(g, power, events).0.listed) && |Run(g, power, events).0.listed| <= g.Capacity()
  {
    hide ViewOk;
    if events != [] { ListedOnRuns(g, power, events[..|events| - 1]); }
  }

  /** After any run, commit finds a buffer for a block of the log, if it is not cached, exactly when the listed
      blocks and the other buffers that are held, as by a read outside any operation, are fewer than all buffers.
      With a log of at most LOGSIZE blocks, as mkfs makes it, that is always so while no other is held. */
  lemma CommitOnRuns(g: Geometry, power: nat, events: seq<Event>, bufs: seq<BufferCache.Buf>, dev: nat, blockno: nat)
    requires g.Valid() && |bufs| == BufferCache.NBUF && BufferCache.Unique(bufs) && dev != 0
    requires BufferCache.Pinned(bufs, dev, Run(g, power, events).0.listed)
    ensures BufferCache.Obtains(bufs, dev, blockno) <==>
      BufferCache.Cached(bufs, dev, blockno) ||
      |Run(g, power, events).0.listed| + |BufferCache.Held(bufs)| < BufferCache.NBUF
    ensures g.size <= LOGSIZE && BufferCache.Held(bufs) == {} ==> BufferCache.Obtains(bufs, dev, blockno)
  {
    hide Run, BufferCache.Pinned, BufferCache.Obtains, BufferCache.Unique;
    ListedOnRuns(g, power, events);
    BufferCache.CommitObtains(bufs, dev, Run(g, power, events).0.listed, blockno);
  }

  predicate HomeBlocks(g: Geometry, bs: seq<nat>) {
    && |bs| == LOGSIZE && (forall i :: 0 <= i < LOGSIZE ==> g.Home(bs[i]))
    && forall i, j :: 0 <= i < j < LOGSIZE ==> bs[i] != bs[j]
  }

  /** Three operations begin, and log the first k blocks of bs, ten each at most. */
  function ThreeOps(bs: seq<nat>, k: nat, data: Block): seq<Event>
    requires k <= |bs|
  {
    if k == 0 then [Begin, Begin, Begin] else ThreeOps(bs, k - 1, data) + [Put((k - 1) / MAXOPBLOCKS, bs[k - 1], data)]
  }

  /** Operation r logs the r-th ten of the blocks. */
  predicate Sharing(r: nat, j: nat) {
    MAXOPBLOCKS * r <= j < MAXOPBLOCKS * r + MAXOPBLOCKS
  }

  function Share(bs: seq<nat>, r: nat, k: nat): set<nat>
    requires k <= |bs|
  {
    set j: nat | j < k && Sharing(r, j) :: bs[j]
  }

  lemma ShareMore(bs: seq<nat>, r: nat, k: nat)
    requires k < |bs|
    ensures Share(bs, r, k + 1) == Share(bs, r, k) + if Sharing(r, k) then {bs[k]} else {}
  {
  }

  lemma {:induction false} ShareSize(bs: seq<nat>, r: nat, k: nat)
    requires k <= |bs|
    ensures |Share(bs, r, k)| <= MAXOPBLOCKS && (k > MAXOPBLOCKS * r ==> |Share(bs, r, k)| <= k - MAXOPBLOCKS * r)
    ensures k <= MAXOPBLOCKS * r ==> Share(bs, r, k) == {}
  {
    if k > 0 {
      ShareSize(bs, r, k - 1);
      ShareMore(bs, r, k - 1);
    }
  }

  predicate ThreeView(v: View, bs: seq<nat>, k: nat)
    requires k <= |bs|
  {
    v.Up() && !v.committing && v.listed == bs[..k] && v.running == Shares(bs, k)
  }

  function Shares(bs: seq<nat>, k: nat): (r: seq<Running>)
    requires k <= |bs|
    ensures |r| == 3 && forall i :: 0 <= i < 3 ==> r[i] == Running(i, Share(bs, i, k))
  {
    [Running(0, Share(bs, 0, k)), Running(1, Share(bs, 1, k)), Running(2, Share(bs, 2, k))]
  }

  lemma SharesNext(bs: seq<nat>, k: nat)
    requires k < LOGSIZE <= |bs|
    ensures
      var r := k / MAXOPBLOCKS;
      Shares(bs, k)[r := Running(r, Share(bs, r, k) + {bs[k]})] == Shares(bs, k + 1)
  {
    hide Share;
    var r := k / MAXOPBLOCKS;
    var next := Shares(bs, k)[r := Running(r, Share(bs, r, k) + {bs[k]})];
    forall i: nat | i < 3 ensures next[i] == Shares(bs, k + 1)[i] {
      ShareMore(bs, i, k);
      assert Sharing(i, k) <==> i == r;
    }
  }

  lemma BeginRun(g: Geometry, power: nat, events: seq<Event>, v: View)
    requires g.Valid() && Budgeted(g, power, events) && Run(g, power, events).0 == v && v.Enters()
    ensures
      Run(g, power, events + [Begin]).0 == v.(running := v.running + [Running(v.nextOp, {})], nextOp := v.nextOp + 1)
    ensures Budgeted(g, power, events + [Begin])
  {
    hide Budgeted, Run, ViewOk;
    RunAfter(g, power, events, Begin);
    BudgetedAfter(g, power, events, Begin);
  }

  lemma ThreeBegun(g: Geometry, power: nat, bs: seq<nat>)
    requires g.Valid() && power > 0
    ensures ThreeView(Run(g, power, [Begin, Begin, Begin]).0, bs, 0) && Budgeted(g, power, [Begin, Begin, Begin])
  {
    hide Budgeted, Run, ViewOk;
    BudgetedNone(g, power);
    var v0 := Start(power);
    BeginRun(g, power, [], v0);
    var v1 := v0.(running := [Running(0, {})], nextOp := 1);
    assert [] + [Begin] == [Begin] && v0.running + [Running(0, {})] == [Running(0, {})];
    BeginRun(g, power, [Begin], v1);
    var v2 := v1.(running := [Running(0, {}), Running(1, {})], nextOp := 2);
    assert [Begin] + [Begin] == [Begin, Begin] && v1.running + [Running(1, {})] == v2.running;
    BeginRun(g, power, [Begin, Begin], v2);
    assert [Begin, Begin] + [Begin] == [Begin, Begin, Begin];
    assert v2.running + [Running(2, {})] == [Running(0, {}), Running(1, {}), Running(2, {})];
    assert Share(bs, 0, 0) == {} && Share(bs, 1, 0) == {} && Share(bs, 2, 0) == {};
  }

  lemma BudgetedNone(g: Geometry, power: nat)
    requires g.Valid()
    ensures Budgeted(g, power, []) && Run(g, power, []).0 == Start(power)
  {
  }

  lemma LogsStep(g: Geometry, v: View, e: Event)
    requires g.Valid() && v.visible <= |v.journal| && v.Logs(g, e)
    ensures v.Step(g, e) == v.Logged(e)
  {
  }

  lemma ThreeStep(g: Geometry, v: View, bs: seq<nat>, k: nat, data: Block)
    requires g.Valid() && HomeBlocks(g, bs) && k < g.Capacity() && ThreeView(v, bs, k) && v.visible <= |v.journal|
    ensures
      var e := Put(k / MAXOPBLOCKS, bs[k], data);
      v.InBudget(e) && ThreeView(v.Step(g, e), bs, k + 1)
  {
    hide Share, Shares, View.Step;
    var r, b := k / MAXOPBLOCKS, bs[k];
    SharesNext(bs, k);
    ShareMore(bs, r, k);
    ShareSize(bs, r, k + 1);
    assert bs[..k] + [b] == bs[..k + 1] && b !in bs[..k];
    LogsStep(g, v, Put(r, b, data));
  }

  lemma {:induction false} ThreeOpsRun(g: Geometry, power: nat, bs: seq<nat>, k: nat, data: Block)
    requires g.Valid() && power > 0 && HomeBlocks(g, bs) && k <= g.Capacity()
    ensures ThreeView(Run(g, power, ThreeOps(bs, k, data)).0, bs, k) && Budgeted(g, power, ThreeOps(bs, k, data))
  {
    hide Run, Budgeted, ThreeView, View.Step, View.InBudget, HomeBlocks;
    if k == 0 {
      ThreeBegun(g, power, bs);
    } else {
      assert |bs| == LOGSIZE by { HomeBlocksSize(g, bs); }
      var before, e := ThreeOps(bs, k - 1, data), Put((k - 1) / MAXOPBLOCKS, bs[k - 1], data);
      ThreeOpsRun(g, power, bs, k - 1, data);
      RunUp(g, power, before);
      ThreeStep(g, Run(g, power, before).0, bs, k - 1, data);
      RunAfter(g, power, before, e);
      BudgetedAfter(g, power, before, e);
    }
  }

  lemma HomeBlocksSize(g: Geometry, bs: seq<nat>)
    requires HomeBlocks(g, bs)
    ensures |bs| == LOGSIZE
  {
  }

  /** A run within all budgets, whatever the size of the log beyond LOGSIZE, that panics: with the list full, an
      operation logs its own block again. */
  lemma FullListRefusesOldBlock(g: Geometry, power: nat, bs: seq<nat>, data: Block)
    returns (events: seq<Event>, e: Event)
    requires g.Valid() && g.size > LOGSIZE && power > 0 && HomeBlocks(g, bs)
    ensures e == Put(2, bs[LOGSIZE - 1], data) && bs[LOGSIZE - 1] in Run(g, power, events).0.listed
    ensures Budgeted(g, power, events + [e]) && !Run(g, power, events).0.panicked
    ensures Run(g, power, events + [e]).0.panicked
  {
    hide Run, Budgeted, Share;
    events, e := ThreeOps(bs, LOGSIZE, data), Put(2, bs[LOGSIZE - 1], data);
    ThreeOpsRun(g, power, bs, LOGSIZE, data);
    ShareSize(bs, 2, LOGSIZE);
    ShareMore(bs, 2, LOGSIZE - 1);
    assert Share(bs, 2, LOGSIZE) + {bs[LOGSIZE - 1]} == Share(bs, 2, LOGSIZE);
    BudgetedAfter(g, power, events, e);
    RunAfter(g, power, events, e);
    assert bs[..LOGSIZE][LOGSIZE - 1] == bs[LOGSIZE - 1];
  }

  /** With a log of LOGSIZE blocks, as mkfs makes it, a run within all budgets that panics: there is no room for
      a block that space is reserved for. */
  lemma MkfsLogTooSmall(g: Geometry, power: nat, bs: seq<nat>, data: Block) returns (events: seq<Event>, e: Event)
    requires g.Valid() && g.size == LOGSIZE && power > 0 && HomeBlocks(g, bs)
    ensures e == Put(2, bs[LOGSIZE - 1], data) && bs[LOGSIZE - 1] !in Run(g, power, events).0.listed
    ensures Budgeted(g, power, events + [e]) && !Run(g, power, events).0.panicked
    ensures Run(g, power, events + [e]).0.panicked
  {
    hide Run, Budgeted, Share;
    events, e := ThreeOps(bs, LOGSIZE - 1, data), Put(2, bs[LOGSIZE - 1], data);
    ThreeOpsRun(g, power, bs, LOGSIZE - 1, data);
    ShareSize(bs, 2, LOGSIZE - 1);
    BudgetedAfter(g, power, events, e);
    RunAfter(g, power, events, e);
  }

  lemma EndRun(g: Geometry, power: nat, events: seq<Event>)
    requires g.Valid() && Budgeted(g, power, events)
    requires Run(g, power, events).0.Up() && Run(g, power, events).0.running != []
    ensures Run(g, power, events + [End(0)]).0 == Run(g, power, events).0.Ended(0)
    ensures Budgeted(g, power, events + [End(0)])
  {
    hide Run, Budgeted;
    RunAfter(g, power, events, End(0));
    BudgetedAfter(g, power, events, End(0));
  }

  /** The listed blocks are pinned, and a buffer of another block is held. */
  function OneHeld(bs: seq<nat>, data: BufferCache.Block): (bufs: seq<BufferCache.Buf>)
    requires |bs| == LOGSIZE
    ensures |bufs| == LOGSIZE
  {
    seq(LOGSIZE, b requires 0 <= b < LOGSIZE =>
      BufferCache.Buf(1, bs[b], true, b < LOGSIZE - 1, if b < LOGSIZE - 1 then 0 else 1, data))
  }

  lemma OneHeldPins(g: Geometry, bs: seq<nat>, data: BufferCache.Block)
    requires g.Valid() && g.size == LOGSIZE && HomeBlocks(g, bs)
    ensures
      var bufs := OneHeld(bs, data);
      && BufferCache.Unique(bufs) && BufferCache.Pinned(bufs, 1, bs[..LOGSIZE - 1])
      && BufferCache.Held(bufs) == {LOGSIZE - 1} && !BufferCache.Obtains(bufs, 1, g.start + 1)
  {
    var bufs, listed := OneHeld(bs, data), bs[..LOGSIZE - 1];
    forall b | 0 <= b < |bufs| && bufs[b].dirty ensures bufs[b].dev == 1 && bufs[b].blockno in listed {
      assert listed[b] == bs[b];
    }
    forall i | 0 <= i < |listed| ensures BufferCache.HasDirty(bufs, 1, listed[i]) {
      assert listed[i] == bs[i] && BufferCache.IsFor(bufs[i], 1, listed[i]);
    }
  }

  /** With the log of mkfs and one buffer held by a reader, a run within all budgets comes to a commit that finds
      no buffer. */
  lemma ReaderStopsCommit(g: Geometry, power: nat, bs: seq<nat>, data: Block)
    returns (events: seq<Event>, bufs: seq<BufferCache.Buf>)
    requires g.Valid() && g.size == LOGSIZE && power > 0 && HomeBlocks(g, bs)
    ensures Budgeted(g, power, events) && Run(g, power, events).0.Up() && Run(g, power, events).0.committing
    ensures |bufs| == BufferCache.NBUF && BufferCache.Unique(bufs) && |BufferCache.Held(bufs)| == 1
    ensures |Run(g, power, events).0.listed| == LOGSIZE - 1
    ensures BufferCache.Pinned(bufs, 1, Run(g, power, events).0.listed)
    ensures !BufferCache.Obtains(bufs, 1, g.start + 1)
  {
    hide Run, Budgeted, Share, BufferCache.Unique, BufferCache.Pinned, BufferCache.Obtains, BufferCache.Held;
    events := ThreeOps(bs, LOGSIZE - 1, data);
    ThreeOpsRun(g, power, bs, LOGSIZE - 1, data);
    EndRun(g, power, events);
    EndRun(g, power, events + [End(0)]);
    EndRun(g, power, events + [End(0)] + [End(0)]);
    events := events + [End(0)] + [End(0)] + [End(0)];
    bufs := OneHeld(bs, data);
    OneHeldPins(g, bs, data);
  }

  // ---------- What each event does, and what lasts ----------

  /** A begin_op enters with nothing logged yet unless a commit is under way or the log may run out of space; then
      nothing happens. */
  lemma BeginEffect(g: Geometry, power: nat, events: seq<Event>)
    requires g.Valid() && Run(g, power, events).0.Up()
    ensures
      var v := Run(g, power, events).0;
      var w := Run(g, power, events + [Begin]).0;
      if !v.committing && |v.listed| + (|v.running| + 1) * 10 <= 30 then
        && |w.running| == |v.running| + 1 && w.running[..|v.running|] == v.running
        && w.running[|v.running|].blocks == {} && w.running[|v.running|].op == v.nextOp < w.nextOp
        && forall i :: 0 <= i < |v.running| ==> v.running[i].op != v.nextOp
      else w == v
  {
    RunAfter(g, power, events, Begin);
    var v := Run(g, power, events).0;
    forall i | 0 <= i < |v.running| ensures v.running[i].op < v.nextOp {
      RunningOld(v.journal, v.visible, v.running, v.sealed, v.nextOp, i);
    }
  }

  /** A log_write with room in the list is the newest write of its operation, and lists its block once. */
  lemma PutEffect(g: Geometry, power: nat, events: seq<Event>, r: nat, b: nat, data: Block)
    requires g.Valid() && Run(g, power, events).0.Up() && r < |Run(g, power, events).0.running| && g.Home(b)
    requires |Run(g, power, events).0.listed| < LOGSIZE && |Run(g, power, events).0.listed| < g.size - 1
    ensures
      var (v, history) := Run(g, power, events);
      var (w, history') := Run(g, power, events + [Put(r, b, data)]);
      && history' == history + [Write(v.running[r].op, b, data)]
      && w.journal == v.journal + [Write(v.running[r].op, b, data)] && w.visible == v.visible && w.sealed == v.sealed
      && (forall c :: c in w.listed <==> c in v.listed || c == b) && !w.panicked && w.committing == v.committing
      && |w.running| == |v.running| && w.running[r].blocks == v.running[r].blocks + {b}
      && forall i :: 0 <= i < |v.running| && i != r ==> w.running[i] == v.running[i]
  {
    hide Run, ViewOk;
    RunAfter(g, power, events, Put(r, b, data));
  }

  /** An end_op takes its operation out, and asks for a commit exactly when it was the last one running. */
  lemma EndEffect(g: Geometry, power: nat, events: seq<Event>, r: nat)
    requires g.Valid() && Run(g, power, events).0.Up() && r < |Run(g, power, events).0.running|
    ensures
      var v := Run(g, power, events).0;
      var w := Run(g, power, events + [End(r)]).0;
      && |w.running| == |v.running| - 1 && (w.committing <==> |v.running| == 1)
      && (forall i :: 0 <= i < |w.running| ==> w.running[i] == v.running[if i < r then i else i + 1])
      && w.journal == v.journal && w.listed == v.listed && w.visible == v.visible && w.sealed == v.sealed
  {
    hide Run, ViewOk;
    RunAfter(g, power, events, End(r));
    EndedBelow(Run(g, power, events).0, r);
  }

  lemma EndedBelow(v: View, r: nat)
    requires r < |v.running|
    ensures |v.Ended(r).running| == |v.running| - 1
    ensures forall i :: 0 <= i < |v.running| - 1 ==> v.Ended(r).running[i] == v.running[if i < r then i else i + 1]
  {
  }

  /** A commit that the power carries past the copies of the listed blocks makes all that has been logged visible,
      and empties the list; with nothing listed there is nothing to do. The next operation may then enter. */
  lemma FinishEffect(g: Geometry, power: nat, events: seq<Event>)
    requires g.Valid() && Run(g, power, events).0.Up() && Run(g, power, events).0.committing
    ensures
      var v := Run(g, power, events).0;
      var w := Run(g, power, events + [Finish]).0;
      && !w.committing && w.listed == [] && w.running == [] && w.journal == v.journal
      && (0 < |v.listed| < v.power ==> w.visible == |v.journal| && w.sealed == v.sealed + OpsOf(v.journal))
      && (v.listed == [] || v.power <= |v.listed| ==> w.visible == v.visible && w.sealed == v.sealed)
      && (v.power > 2 * |v.listed| + 2 ==> w.power >= v.power - (2 * |v.listed| + 2) && w.Up())
  {
    RunAfter(g, power, events, Finish);
  }

  /** A crash ends all operations and cuts the journal to what was visible; it takes nothing else, and recovery
      with power for it leaves the log empty. */
  lemma CrashEffect(g: Geometry, power: nat, events: seq<Event>, newPower: nat)
    requires g.Valid()
    ensures
      var v := Run(g, power, events).0;
      var w := Run(g, power, events + [Crash(newPower)]).0;
      && w.running == [] && w.listed == [] && !w.committing && !w.panicked && w.nextOp == v.nextOp
      && v.visible <= |v.journal| && w.journal == v.journal[..v.visible] && w.visible == v.visible
      && w.sealed == v.sealed && (newPower > v.header + 1 ==> w.Up() && w.header == 0)
  {
    RunAfter(g, power, events, Crash(newPower));
  }

  lemma SealedStep(g: Geometry, v: View, e: Event)
    requires g.Valid() && v.visible <= |v.journal|
    ensures v.sealed <= v.Step(g, e).sealed
  {
  }

  lemma {:induction false} SealedStays(g: Geometry, power: nat, events: seq<Event>, more: seq<Event>)
    requires g.Valid()
    ensures Run(g, power, events).0.sealed <= Run(g, power, events + more).0.sealed
  {
    hide Run, ViewOk;
    if more == [] {
      assert events + more == events;
    } else {
      var front := more[..|more| - 1];
      SealedStays(g, power, events, front);
      RunUp(g, power, events + front);
      SealedStep(g, Run(g, power, events + front).0, more[|more| - 1]);
      RunAfter(g, power, events + front, more[|more| - 1]);
      assert events + more == (events + front) + [more[|more| - 1]];
    }
  }

  /** Once a commit has written its header, everything that its group has logged is shown by every later recovery,
      whatever happens in between. */
  lemma CommittedLasts(g: Geometry, power: nat, events: seq<Event>, more: seq<Event>, op: nat)
    requires g.Valid() && Run(g, power, events).0.Up() && Run(g, power, events).0.committing
    requires 0 < |Run(g, power, events).0.listed| < Run(g, power, events).0.power
    requires op in OpsOf(Run(g, power, events).0.journal)
    ensures
      var (v, history) := Run(g, power, events + [Finish] + more);
      op in v.sealed && Of(v.journal[..v.visible], op) == Of(history, op)
  {
    hide Run;
    FinishEffect(g, power, events);
    SealedStays(g, power, events + [Finish], more);
    WholeOperations(g, power, events + [Finish] + more);
  }

  // ---------- Runs that nothing interrupts ----------

  predicate NoCrash(events: seq<Event>) {
    forall i :: 0 <= i < |events| ==> !events[i].Crash?
  }

  /** The journal is the whole history, and all of it is visible whenever no block is listed. */
  predicate Complete(v: View, history: seq<Write>) {
    && v.journal == history && (v.listed == [] ==> v.visible == |v.journal|)
    && (v.listed != [] ==> v.running != [] || v.committing)
  }

  lemma CompleteStep(g: Geometry, v: View, e: Event, history: seq<Write>)
    requires g.Valid() && v.visible <= |v.journal| && (v.committing ==> v.running == [])
    requires Complete(v, history) && !e.Crash? && v.power > 2 * LOGSIZE + 2 && |v.listed| <= LOGSIZE
    ensures v.Step(g, e).power >= v.power - (2 * LOGSIZE + 2)
    ensures Complete(v.Step(g, e), history + v.Written(g, e))
  {
    hide OpsOf;
    assert history + [] == history;
  }

  /** Without crashes, and with power for every commit there may be, nothing is lost. */
  lemma {:induction false} NothingLost(g: Geometry, power: nat, events: seq<Event>)
    requires g.Valid() && NoCrash(events) && power > |events| * (2 * LOGSIZE + 2)
    ensures Run(g, power, events).0.power >= power - |events| * (2 * LOGSIZE + 2)
    ensures Complete(Run(g, power, events).0, Run(g, power, events).1)
  {
    hide Run, ViewOk, Complete;
    if events == [] {
      CompleteAtStart(g, power);
    } else {
      var n := |events| - 1;
      assert events == events[..n] + [events[n]];
      RunAfter(g, power, events[..n], events[n]);
      NothingLost(g, power, events[..n]);
      ListedOnRuns(g, power, events[..n]);
      RunUp(g, power, events[..n]);
      CompleteStep(g, Run(g, power, events[..n]).0, events[n], Run(g, power, events[..n]).1);
    }
  }

  lemma CompleteAtStart(g: Geometry, power: nat)
    requires g.Valid()
    ensures Run(g, power, []) == (Start(power), []) && Complete(Start(power), [])
  {
  }

  // ---------- The program ----------

  /** Carries out one event; where the code would sleep, or the machine is down, nothing happens. */
  method Perform(log: Log, e: Event)
    requires log.Valid()
    modifies log, log.block
    ensures log.Valid() && log.Durable() && log.Now() == old(log.Now()).Step(log.g, e)
  {
    hide Shows, CacheOk, ListOk, SpaceReserved;
    if e.Crash? {
      log.Reboot(e.power);
    } else if log.power > 0 && !log.panicked {
      match e
      case Begin =>
        ghost var op;
        var entered;
        entered, op := log.BeginOp();
      case Put(r, b, data) =>
        if r < log.outstanding && log.g.Home(b) {
          var ok := log.LogWrite(r, b, data);
        }
      case End(r) =>
        if r < log.outstanding {
          var doCommit := log.EndOp(r);
        }
      case Finish =>
        if log.committing {
          log.FinishCommit();
        }
      case Crash(_) =>
    }
  }

  /** Carries out the events on a new disk. */
  method PerformAll(g: Geometry, image: seq<Block>, firstPower: nat, events: seq<Event>) returns (log: Log)
    requires IsDisk(g, image) && image[g.start][0] == 0
    ensures fresh(log) && fresh(log.block) && log.g == g && log.initial == image
    ensures log.Valid() && log.Now() == Run(g, firstPower, events).0
  {
    log := new Log(g, image, firstPower);
    for k := 0 to |events|
      invariant fresh(log) && fresh(log.block) && log.g == g && log.initial == image
      invariant log.Valid() && log.Now() == Run(g, firstPower, events[..k]).0
    {
      Perform(log, events[k]);
      assert events[..k + 1][..k] == events[..k];
    }
    assert events[..|events|] == events;
  }

  /** Whatever happens, and wherever the power fails, once a boot gets through recovery the home blocks are the
      initial image with the writes of whole operations applied, in the order in which they were logged: those of
      the operations whose group's header write completed. */
  method RunAndRecover(g: Geometry, image: seq<Block>, firstPower: nat, events: seq<Event>) returns (log: Log)
    requires IsDisk(g, image) && image[g.start][0] == 0
    ensures log.g == g && IsDisk(g, log.disk)
    ensures
      var (v, history) := Run(g, firstPower, events);
      var shown := Keep(history, v.sealed);
      && log.journal == shown
      && (forall b :: g.Home(b) ==> log.disk[b] == Apply(image, shown, |shown|)[b])
      && forall op :: Of(shown, op) == if op in v.sealed then Of(history, op) else []
  {
    log := PerformAll(g, image, firstPower, events);
    log.Reboot(LOGSIZE + 2);
    WholeOperations(g, firstPower, events);
  }

  /** Durability: if there is no crash, and power for every commit there may be, then whenever no operation runs and
      no commit is due, every write ever logged is in its home block, as the last write to it. */
  method RunInPeace(g: Geometry, image: seq<Block>, firstPower: nat, events: seq<Event>) returns (log: Log)
    requires IsDisk(g, image) && image[g.start][0] == 0
    requires NoCrash(events) && firstPower > |events| * (2 * LOGSIZE + 2)
    ensures log.g == g && IsDisk(g, log.disk)
    ensures
      var (v, history) := Run(g, firstPower, events);
      v.running == [] && !v.committing ==>
        v.visible == |history| && OpsOf(history) <= v.sealed &&
        forall b :: g.Home(b) ==> log.disk[b] == Apply(image, history, |history|)[b]
  {
    log := PerformAll(g, image, firstPower, events);
    NothingLost(g, firstPower, events);
  }
}
