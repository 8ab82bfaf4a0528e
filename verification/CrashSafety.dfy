/** File-system operations in the log: what create, link and unlink log of an image, as the block writes of one
    operation of RedoLog, takes the disk from one image to the other, or does not happen. The blocks lie as mkfs
    lays them out: after the log the inodes, the bitmap, and the data. */
module CrashSafety {
  import opened Collections
  import FileBlocks
  import opened Directories
  import Links
  import RedoLog

  type Block = RedoLog.Block
  type Write = RedoLog.Write

  const IPB: nat := FileBlocks.IPB
  const BPB: nat := FileBlocks.BPB

  /** What a block of the file system holds. */
  datatype Content =
    | Data(data: FileBlocks.Block)
    | Bits(bits: seq<bool>)
    | Inodes(inodes: seq<(FileBlocks.Inode, Info)>)

  function ContentOf(s: Store, x: FileBlocks.Logged): Content
    requires |s.info| == |s.im.inode|
  {
    match x
    case DiskBlock(b) => Data(if b < |s.im.block| then s.im.block[b] else FileBlocks.ZeroBlock())
    case BitmapBlock(m) => Bits(seq(BPB, k requires 0 <= k => Bit(s, m, k)))
    case InodeBlock(m) => Inodes(seq(IPB, k requires 0 <= k => InodeAt(s, m, k)))
  }

  function Bit(s: Store, m: nat, k: nat): bool {
    BPB * m + k < |s.im.used| && s.im.used[BPB * m + k]
  }

  function InodeAt(s: Store, m: nat, k: nat): (FileBlocks.Inode, Info)
    requires |s.info| == |s.im.inode|
  {
    if IPB * m + k < |s.info| then (s.im.inode[IPB * m + k], s.info[IPB * m + k])
    else (NoBlocks(), Info(Links.NONE, 0))
  }

  /** Blocks that have not been logged hold what they held. */
  lemma SameContent(a: Store, c: Store, logged: set<FileBlocks.Logged>, x: FileBlocks.Logged)
    requires AllLogged(a, c, logged) && x !in logged
    ensures ContentOf(c, x) == ContentOf(a, x)
  {
    match x
    case DiskBlock(b) =>
    case BitmapBlock(m) =>
      forall k: nat | k < BPB ensures Bit(c, m, k) == Bit(a, m, k) {
        assert (BPB * m + k) / BPB == m;
      }
    case InodeBlock(m) =>
      forall k: nat | k < IPB ensures InodeAt(c, m, k) == InodeAt(a, m, k) {
        assert (IPB * m + k) / IPB == m;
      }
  }

  // ---------- The disk ----------

  function InodeBlocks(s: Store): nat { |s.info| / IPB + 1 }

  function BitmapBlocks(s: Store): nat { |s.im.used| / BPB + 1 }

  /** Where the inodes and the bitmap begin, and how a block is written down. */
  datatype Layout = Layout(inodeStart: nat, bmapStart: nat, bytes: Content -> Block) {

    function At(x: FileBlocks.Logged): nat {
      match x
      case DiskBlock(b) => b
      case BitmapBlock(m) => bmapStart + m
      case InodeBlock(m) => inodeStart + m
    }

    /** The blocks of the file system, by kind. */
    predicate In(s: Store, x: FileBlocks.Logged) {
      match x
      case DiskBlock(b) => s.im.dataStart <= b < |s.im.block|
      case BitmapBlock(m) => m < BitmapBlocks(s)
      case InodeBlock(m) => m < InodeBlocks(s)
    }

    /** The log, the inodes, the bitmap and the data come one after the other. */
    predicate Fits(g: RedoLog.Geometry, s: Store) {
      && g.Valid() && g.start + g.size <= inodeStart && inodeStart + InodeBlocks(s) <= bmapStart
      && bmapStart + BitmapBlocks(s) <= s.im.dataStart && |s.im.block| <= g.blocks && s.im.dataStart <= |s.im.block|
      && |s.info| == |s.im.inode| && |s.im.used| == |s.im.block|
    }

    lemma Apart(g: RedoLog.Geometry, s: Store, x: FileBlocks.Logged, y: FileBlocks.Logged)
      requires Fits(g, s) && In(s, x) && In(s, y)
      ensures g.Home(At(x)) && (At(x) == At(y) ==> x == y)
    {
      hide BitmapBlocks, InodeBlocks;
    }

    /** Some logged block is the block b. */
    ghost predicate IsLogged(c: Store, logged: set<FileBlocks.Logged>, b: nat) {
      exists x :: x in logged && In(c, x) && b == At(x)
    }

    /** The home blocks of the disk hold the file system s. */
    ghost predicate Holds(g: RedoLog.Geometry, d: seq<Block>, s: Store) {
      && Fits(g, s) && |d| == g.blocks
      && forall x {:trigger In(s, x)} :: In(s, x) ==> d[At(x)] == bytes(ContentOf(s, x))
    }

    /** The writes ws, of an operation that made c out of a, go to blocks it has logged, and last leave there what
        the block then holds. */
    ghost predicate Writes(a: Store, c: Store, logged: set<FileBlocks.Logged>, ws: seq<Write>)
      requires |c.info| == |c.im.inode|
    {
      && AllLogged(a, c, logged) && c.im.dataStart == a.im.dataStart
      && (forall i :: 0 <= i < |ws| ==> IsLogged(c, logged, ws[i].bno))
      && (forall x :: x in logged && In(c, x) ==> LastIs(ws, At(x), bytes(ContentOf(c, x))))
    }
  }

  /** The last write to block b has this data. */
  predicate LastIs(ws: seq<Write>, b: nat, data: Block) {
    exists i :: 0 <= i < |ws| && ws[i].bno == b && ws[i].data == data && forall j :: i < j < |ws| ==> ws[j].bno != b
  }

  function Applied(d: seq<Block>, ws: seq<Write>): (r: seq<Block>)
    ensures |r| == |d|
  {
    RedoLog.Apply(d, ws, |ws|)
  }

  lemma {:induction false} AppliedLast(d: seq<Block>, ws: seq<Write>, k: nat, b: nat, i: nat)
    requires i < k <= |ws| && b < |d| && ws[i].bno == b && forall j :: i < j < k ==> ws[j].bno != b
    ensures RedoLog.Apply(d, ws, k)[b] == ws[i].data
  {
    if i < k - 1 { AppliedLast(d, ws, k - 1, b, i); }
  }

  lemma {:induction false} AppliedElsewhere(d: seq<Block>, ws: seq<Write>, k: nat, b: nat)
    requires k <= |ws| && b < |d| && forall j :: 0 <= j < k ==> ws[j].bno != b
    ensures RedoLog.Apply(d, ws, k)[b] == d[b]
  {
    if k > 0 { AppliedElsewhere(d, ws, k - 1, b); }
  }

  /** The writes of the operation make the disk hold c. */
  lemma WritesMake(lay: Layout, g: RedoLog.Geometry, d: seq<Block>, a: Store, c: Store, logged: set<FileBlocks.Logged>,
                   ws: seq<Write>)
    requires lay.Holds(g, d, a) && |c.info| == |c.im.inode| && lay.Writes(a, c, logged, ws)
    ensures lay.Holds(g, Applied(d, ws), c)
  {
    hide ContentOf, RedoLog.Apply, AllLogged, BitmapBlocks, InodeBlocks;
    SameSizes(a, c, logged);
    forall x | lay.In(c, x) ensures Applied(d, ws)[lay.At(x)] == lay.bytes(ContentOf(c, x)) {
      lay.Apart(g, c, x, x);
      assert lay.In(a, x);
      if x in logged {
        assert LastIs(ws, lay.At(x), lay.bytes(ContentOf(c, x)));
        var i :| 0 <= i < |ws| && ws[i].bno == lay.At(x) && ws[i].data == lay.bytes(ContentOf(c, x)) &&
          forall j :: i < j < |ws| ==> ws[j].bno != lay.At(x);
        AppliedLast(d, ws, |ws|, lay.At(x), i);
      } else {
        forall j | 0 <= j < |ws| ensures ws[j].bno != lay.At(x) {
          assert lay.IsLogged(c, logged, ws[j].bno);
          var y :| y in logged && lay.In(c, y) && ws[j].bno == lay.At(y);
          lay.Apart(g, c, x, y);
        }
        AppliedElsewhere(d, ws, |ws|, lay.At(x));
        SameContent(a, c, logged, x);
      }
    }
  }

  lemma SameSizes(a: Store, c: Store, logged: set<FileBlocks.Logged>)
    requires AllLogged(a, c, logged)
    ensures |c.info| == |a.info| && |c.im.used| == |a.im.used| && |c.im.block| == |a.im.block|
    ensures InodeBlocks(c) == InodeBlocks(a) && BitmapBlocks(c) == BitmapBlocks(a)
  {
  }

  // ---------- One operation after another, and a crash ----------

  /** What changes the file system: create, in sys_open, sys_mkdir or sys_mknod, sys_link, sys_unlink, a chunk of
      filewrite, and the iput of fileclose, with what they return. */
  datatype Call =
    | Create(d: nat, name: string, kind: Links.Kind, made: Links.Created, k: nat)
    | Link(i: nat, d: nat, name: string, r: int, k: nat)
    | Unlink(d: nat, name: string, r: int, k: nat)
    | WriteFile(i: nat, off: nat, src: seq<FileBlocks.byte>)
    | Put(i: nat)

  /** The call, in a directory that is linked or on a file, takes a to c. */
  ghost predicate Does(call: Call, a: Store, c: Store, logged: set<FileBlocks.Logged>, pending: seq<nat>) {
    match call
    case Create(d, name, kind, r, k) =>
      CreatesOnDisk(a, c, logged, pending, d, name, kind, true, r, k) && Links.Linked(a.Table(), d)
    case Link(i, d, name, r, k) =>
      LinksOnDisk(a, c, logged, pending, i, d, name, true, r, k) && (d != 0 ==> Links.Linked(a.Table(), d))
    case Unlink(d, name, r, k) => UnlinksOnDisk(a, c, logged, pending, d, name, r, k)
    case WriteFile(i, off, src) => i < |a.info| && WritesFile(a, c, logged, i, off, src)
    case Put(i) => Puts(a, c, {}, logged, pending, i)
  }

  /** What writei promises of a file. */
  ghost predicate WritesFile(a: Store, c: Store, logged: set<FileBlocks.Logged>, i: nat, off: nat,
                             src: seq<FileBlocks.byte>)
    requires i < |a.info|
  {
    && IsFile(a.info[i].kind) && c.info == a.info && FileBlocks.Recorded(a.im, c.im, i, logged)
    && a.Ok() && c.im.Valid() && FileBlocks.Wrote(a.im, c.im, i, off, src)
  }

  /** Writing a file leaves the table as it is. */
  lemma FileWritten(a: Store, c: Store, logged: set<FileBlocks.Logged>, i: nat, off: nat, src: seq<FileBlocks.byte>)
    requires i < |a.info| && WritesFile(a, c, logged, i, off, src)
    ensures c.Ok() && c.Table() == a.Table()
  {
    hide FileBlocks.Overwritten, FileBlocks.Image.Bytes, FileBlocks.Image.Owned, FileBlocks.Image.NoLeaks;
    hide FileBlocks.Image.NoHoles, FileBlocks.Image.Shape, Entries;
    forall j: nat | j < |c.info| ensures c.InodeOk(j) && c.At(j) == a.At(j) {
      assert a.InodeOk(j);
      if j != i {
        assert c.im.inode[j] == a.im.inode[j] && c.im.Bytes(j) == a.im.Bytes(j);
      }
    }
  }

  ghost predicate GoodTree(s: Store, pending: seq<nat>) {
    s.Ok() && Links.Good(s.Table(), pending)
  }

  lemma DoesWell(call: Call, a: Store, c: Store, logged: set<FileBlocks.Logged>, pending: seq<nat>)
    requires GoodTree(a, pending) && Does(call, a, c, logged, pending)
    ensures GoodTree(c, pending)
  {
    hide Store.Ok, Links.Good, Changes, WritesFile;
    match call
    case WriteFile(i, off, src) => FileWritten(a, c, logged, i, off, src);
    case _ =>
  }

  /** An operation of the log, what it logged and wrote, and the file system it made. */
  datatype Transaction =
    Transaction(op: nat, call: Call, logged: set<FileBlocks.Logged>, writes: seq<Write>, made: Store)

  function Flat(ts: seq<Transaction>): seq<Write> {
    if ts == [] then [] else Flat(ts[..|ts| - 1]) + ts[|ts| - 1].writes
  }

  /** The file system after those of the transactions that are kept. */
  function Final(s: Store, ts: seq<Transaction>, kept: set<nat>): Store {
    if ts == [] then s
    else if ts[|ts| - 1].op in kept then ts[|ts| - 1].made
    else Final(s, ts[..|ts| - 1], kept)
  }

  /** Each transaction that is kept began with what the kept ones before it had left. */
  ghost predicate InTurn(lay: Layout, s: Store, ts: seq<Transaction>, kept: set<nat>, pending: seq<nat>) {
    ts == [] ||
    var t := ts[|ts| - 1];
    && InTurn(lay, s, ts[..|ts| - 1], kept, pending) && (forall i :: 0 <= i < |t.writes| ==> t.writes[i].op == t.op)
    && (t.op in kept ==>
          var a := Final(s, ts[..|ts| - 1], kept);
          && Does(t.call, a, t.made, t.logged, pending)
          && |t.made.info| == |t.made.im.inode| && lay.Writes(a, t.made, t.logged, t.writes))
  }

  lemma {:induction false} KeepConcat(ws: seq<Write>, vs: seq<Write>, op: nat, kept: set<nat>)
    requires forall i :: 0 <= i < |vs| ==> vs[i].op == op
    ensures RedoLog.Keep(ws + vs, kept) == RedoLog.Keep(ws, kept) + if op in kept then vs else []
  {
    if vs == [] {
      assert ws + vs == ws;
      assert RedoLog.Keep(ws, kept) + [] == RedoLog.Keep(ws, kept);
    } else {
      var front, w := vs[..|vs| - 1], vs[|vs| - 1];
      KeepConcat(ws, front, op, kept);
      assert ws + vs == (ws + front) + [w];
      RedoLog.KeepMore(ws + front, w, kept);
      assert front + [w] == vs;
    }
  }

  lemma {:induction false} AppliedConcat(d: seq<Block>, ws: seq<Write>, vs: seq<Write>)
    ensures Applied(d, ws + vs) == Applied(Applied(d, ws), vs)
  {
    if vs == [] {
      assert ws + vs == ws;
    } else {
      var front := vs[..|vs| - 1];
      AppliedConcat(d, ws, front);
      RedoLog.ApplyAgree(d, ws + vs, ws + front, |ws + front|);
      RedoLog.ApplyAgree(Applied(d, ws), vs, front, |front|);
    }
  }

  /** The writes that are kept leave the file system of the last transaction that is. */
  lemma {:induction false} KeptMake(lay: Layout, g: RedoLog.Geometry, d: seq<Block>, s: Store, ts: seq<Transaction>,
                                    kept: set<nat>, pending: seq<nat>)
    requires lay.Holds(g, d, s) && GoodTree(s, pending) && InTurn(lay, s, ts, kept, pending)
    ensures lay.Holds(g, Applied(d, RedoLog.Keep(Flat(ts), kept)), Final(s, ts, kept))
    ensures GoodTree(Final(s, ts, kept), pending)
  {
    hide GoodTree, Does;
    if ts != [] {
      var t, front := ts[|ts| - 1], ts[..|ts| - 1];
      KeptMake(lay, g, d, s, front, kept, pending);
      KeepConcat(Flat(front), t.writes, t.op, kept);
      var before := RedoLog.Keep(Flat(front), kept);
      if t.op in kept {
        AppliedConcat(d, before, t.writes);
        WritesMake(lay, g, Applied(d, before), Final(s, front, kept), t.made, t.logged, t.writes);
        DoesWell(t.call, Final(s, front, kept), t.made, t.logged, pending);
      } else {
        assert before + [] == before;
      }
    }
  }

  /** Whatever happens, and wherever the power fails, the disk shows the file system that the last of the committed
      transactions made, and its tree is a good one: no transaction is ever half there. */
  method RunTransactions(g: RedoLog.Geometry, image: seq<Block>, power: nat, events: seq<RedoLog.Event>,
                         ghost lay: Layout, ghost s: Store, ghost ts: seq<Transaction>, ghost pending: seq<nat>)
    returns (log: RedoLog.Log)
    requires lay.Holds(g, image, s) && image[g.start][0] == 0 && GoodTree(s, pending)
    requires var (v, history) := RedoLog.Run(g, power, events);
      history == Flat(ts) && InTurn(lay, s, ts, v.sealed, pending)
    ensures var last := Final(s, ts, RedoLog.Run(g, power, events).0.sealed);
      lay.Holds(g, log.disk, last) && GoodTree(last, pending)
  {
    hide GoodTree, InTurn, Final, ContentOf, InodeBlocks, BitmapBlocks, RedoLog.Run, RedoLog.Apply, RedoLog.Keep;
    log := RedoLog.RunAndRecover(g, image, power, events);
    ghost var kept := RedoLog.Run(g, power, events).0.sealed;
    KeptMake(lay, g, image, s, ts, kept, pending);
    HoldsAtHome(lay, g, Applied(image, RedoLog.Keep(Flat(ts), kept)), log.disk, Final(s, ts, kept));
  }

  function Ops(ts: seq<Transaction>): set<nat> {
    set i | 0 <= i < |ts| :: ts[i].op
  }

  /** Every write of the transactions is of one of them. */
  lemma {:induction false} FlatOps(lay: Layout, s: Store, ts: seq<Transaction>, kept: set<nat>, pending: seq<nat>)
    requires InTurn(lay, s, ts, kept, pending)
    ensures forall i :: 0 <= i < |Flat(ts)| ==> Flat(ts)[i].op in Ops(ts)
  {
    if ts != [] {
      var front := ts[..|ts| - 1];
      FlatOps(lay, s, front, kept, pending);
      assert ts[|ts| - 1].op in Ops(ts);
      forall i | 0 <= i < |Flat(ts)| ensures Flat(ts)[i].op in Ops(ts) {
        if i < |Flat(front)| {
          var k :| 0 <= k < |front| && front[k].op == Flat(front)[i].op;
          assert ts[k].op == front[k].op;
        }
      }
    }
  }

  /** If there is no crash, and power for every commit, the disk shows what the last transaction made as soon as
      none is running and no commit is due. */
  method RunTransactionsInPeace(g: RedoLog.Geometry, image: seq<Block>, power: nat, events: seq<RedoLog.Event>,
                                ghost lay: Layout, ghost s: Store, ghost ts: seq<Transaction>,
                                ghost pending: seq<nat>)
    returns (log: RedoLog.Log)
    requires lay.Holds(g, image, s) && image[g.start][0] == 0 && GoodTree(s, pending)
    requires RedoLog.NoCrash(events) && power > |events| * (2 * RedoLog.LOGSIZE + 2)
    requires var (v, history) := RedoLog.Run(g, power, events);
      v.running == [] && !v.committing && history == Flat(ts) && InTurn(lay, s, ts, Ops(ts), pending)
    ensures var last := if ts == [] then s else ts[|ts| - 1].made;
      lay.Holds(g, log.disk, last) && GoodTree(last, pending)
  {
    hide GoodTree, InTurn, ContentOf, InodeBlocks, BitmapBlocks, RedoLog.Run, RedoLog.Apply, RedoLog.Keep;
    log := RedoLog.RunInPeace(g, image, power, events);
    FlatOps(lay, s, ts, Ops(ts), pending);
    RedoLog.KeepPrefix(Flat(ts), |Flat(ts)|, Ops(ts));
    assert Flat(ts)[..|Flat(ts)|] == Flat(ts);
    KeptMake(lay, g, image, s, ts, Ops(ts), pending);
    ghost var last := Final(s, ts, Ops(ts));
    assert ts != [] ==> ts[|ts| - 1].op in Ops(ts);
    HoldsAtHome(lay, g, Applied(image, Flat(ts)), log.disk, last);
  }

  lemma HoldsAtHome(lay: Layout, g: RedoLog.Geometry, d: seq<Block>, e: seq<Block>, s: Store)
    requires lay.Holds(g, d, s) && |e| == |d| && forall b :: g.Home(b) ==> e[b] == d[b]
    ensures lay.Holds(g, e, s)
  {
    hide ContentOf, InodeBlocks, BitmapBlocks;
    forall x | lay.In(s, x) ensures e[lay.At(x)] == lay.bytes(ContentOf(s, x)) {
      lay.Apart(g, s, x, x);
    }
  }

  /** One write of each logged block, with what it holds in the end. */
  function OnceEach(lay: Layout, c: Store, op: nat, xs: seq<FileBlocks.Logged>): (ws: seq<Write>)
    requires |c.info| == |c.im.inode|
    ensures |ws| == |xs| && forall i :: 0 <= i < |ws| ==> ws[i].op == op
  {
    seq(|xs|, i requires 0 <= i < |xs| => RedoLog.Write(op, lay.At(xs[i]), lay.bytes(ContentOf(c, xs[i]))))
  }

  /** Such writes are those of a transaction, in whatever order. */
  lemma OnceEachWrites(lay: Layout, g: RedoLog.Geometry, a: Store, c: Store, logged: set<FileBlocks.Logged>, op: nat,
                       xs: seq<FileBlocks.Logged>)
    requires AllLogged(a, c, logged) && c.im.dataStart == a.im.dataStart && lay.Fits(g, c)
    requires forall i, j :: 0 <= i < j < |xs| ==> xs[i] != xs[j]
    requires forall x :: x in xs <==> x in logged && lay.In(c, x)
    ensures lay.Writes(a, c, logged, OnceEach(lay, c, op, xs))
  {
    hide AllLogged, ContentOf, InodeBlocks, BitmapBlocks;
    var ws := OnceEach(lay, c, op, xs);
    forall i | 0 <= i < |ws| ensures lay.IsLogged(c, logged, ws[i].bno) {
      assert xs[i] in xs;
    }
    forall x | x in logged && lay.In(c, x) ensures LastIs(ws, lay.At(x), lay.bytes(ContentOf(c, x))) {
      var i :| 0 <= i < |xs| && xs[i] == x;
      forall j | i < j < |ws| ensures ws[j].bno != lay.At(x) {
        assert xs[j] in xs;
        lay.Apart(g, c, x, xs[j]);
      }
      assert ws[i].bno == lay.At(x);
    }
  }

  /** An operation writes to no more blocks than it has logged. */
  lemma WritesFew(lay: Layout, a: Store, c: Store, logged: set<FileBlocks.Logged>, ws: seq<Write>)
    requires |c.info| == |c.im.inode| && lay.Writes(a, c, logged, ws)
    ensures |set i | 0 <= i < |ws| :: ws[i].bno| <= |logged|
  {
    hide AllLogged, ContentOf;
    var all := set i | 0 <= i < |ws| :: ws[i].bno;
    var places := set x | x in logged :: lay.At(x);
    forall b | b in all ensures b in places {
      var i :| 0 <= i < |ws| && ws[i].bno == b;
      assert lay.IsLogged(c, logged, ws[i].bno);
    }
    SubsetSize(all, places);
    PlacesSize(lay, logged);
  }

  lemma {:induction false} PlacesSize(lay: Layout, xs: set<FileBlocks.Logged>)
    ensures |set x | x in xs :: lay.At(x)| <= |xs|
  {
    if x :| x in xs {
      var rest := xs - {x};
      PlacesSize(lay, rest);
      SubsetSize(set y | y in xs :: lay.At(y), (set y | y in rest :: lay.At(y)) + {lay.At(x)});
    }
  }

  // ---------- What the disk says ----------

  /** The disk determines the tree and the bytes of every file, if different contents are written down differently. */
  lemma HoldsOneTree(lay: Layout, g: RedoLog.Geometry, d: seq<Block>, s: Store, r: Store)
    requires lay.Holds(g, d, s) && lay.Holds(g, d, r) && s.Ok() && r.Ok()
    requires forall x, y :: lay.bytes(x) == lay.bytes(y) ==> x == y
    requires |r.info| == |s.info| && |r.im.used| == |s.im.used| && r.im.dataStart == s.im.dataStart
    ensures r.im.used == s.im.used && r.im.inode == s.im.inode && r.info == s.info && r.Table() == s.Table()
    ensures forall i :: 0 <= i < |s.info| ==> r.im.Bytes(i) == s.im.Bytes(i)
  {
    hide FileBlocks.Image.Owned, FileBlocks.Image.NoLeaks, FileBlocks.Image.NoHoles, FileBlocks.Image.Bytes;
    hide EntriesOf, ContentOf, DirOk, InodeBlocks, BitmapBlocks;
    forall i: nat | i < |s.info| ensures r.im.inode[i] == s.im.inode[i] && r.info[i] == s.info[i] {
      InodeInBlock(lay, s, i);
      InodeInBlock(lay, r, i);
      SameBlock(lay, g, d, s, r, FileBlocks.InodeBlock(i / IPB));
    }
    forall b: nat | b < |s.im.used| ensures r.im.used[b] == s.im.used[b] {
      BitInBlock(lay, s, b);
      BitInBlock(lay, r, b);
      SameBlock(lay, g, d, s, r, FileBlocks.BitmapBlock(b / BPB));
    }
    forall b: nat | s.im.dataStart <= b < |s.im.block| ensures r.im.block[b] == s.im.block[b] {
      DataInBlock(s, b);
      DataInBlock(r, b);
      SameBlock(lay, g, d, s, r, FileBlocks.DiskBlock(b));
    }
    forall i: nat | i < |s.info| ensures r.Table()[i] == s.Table()[i] && r.im.Bytes(i) == s.im.Bytes(i) {
      SameBytes(s, r, i);
    }
  }

  lemma DataInBlock(s: Store, b: nat)
    requires b < |s.im.block| && |s.info| == |s.im.inode|
    ensures ContentOf(s, FileBlocks.DiskBlock(b)).data == s.im.block[b]
  {
  }

  lemma InodeInBlock(lay: Layout, s: Store, i: nat)
    requires i < |s.info| == |s.im.inode|
    ensures lay.In(s, FileBlocks.InodeBlock(i / IPB))
    ensures ContentOf(s, FileBlocks.InodeBlock(i / IPB)).inodes[i % IPB] == (s.im.inode[i], s.info[i])
  {
    assert InodeAt(s, i / IPB, i % IPB) == (s.im.inode[i], s.info[i]);
  }

  lemma BitInBlock(lay: Layout, s: Store, b: nat)
    requires b < |s.im.used| && |s.info| == |s.im.inode|
    ensures lay.In(s, FileBlocks.BitmapBlock(b / BPB))
    ensures ContentOf(s, FileBlocks.BitmapBlock(b / BPB)).bits[b % BPB] == s.im.used[b]
  {
    assert Bit(s, b / BPB, b % BPB) == s.im.used[b];
  }

  lemma SameBlock(lay: Layout, g: RedoLog.Geometry, d: seq<Block>, s: Store, r: Store, x: FileBlocks.Logged)
    requires lay.Holds(g, d, s) && lay.Holds(g, d, r) && lay.In(s, x) && lay.In(r, x)
    requires forall x, y :: lay.bytes(x) == lay.bytes(y) ==> x == y
    ensures ContentOf(r, x) == ContentOf(s, x)
  {
    hide ContentOf, InodeBlocks, BitmapBlocks;
    assert lay.bytes(ContentOf(r, x)) == lay.bytes(ContentOf(s, x));
  }

  lemma SameBytes(s: Store, r: Store, i: nat)
    requires s.Ok() && r.Ok() && i < |s.info| && r.im.inode == s.im.inode && r.info == s.info
    requires r.im.used == s.im.used && r.im.dataStart == s.im.dataStart
    requires forall b :: s.im.dataStart <= b < |s.im.block| ==> r.im.block[b] == s.im.block[b]
    ensures r.Table()[i] == s.Table()[i] && r.im.Bytes(i) == s.im.Bytes(i)
  {
    hide Entries, FileBlocks.Image.NoLeaks, FileBlocks.Image.NoHoles;
    assert r.InodeOk(i) && s.InodeOk(i);
    forall k: nat | k < FileBlocks.NSLOTS ensures r.im.Slot(i, k) == s.im.Slot(i, k) {
      assert s.im.inode[i].addrs[FileBlocks.NDIRECT] == s.im.Slot(i, FileBlocks.NDIRECT);
    }
    forall o: nat | o < s.im.inode[i].size ensures r.im.ByteAt(i, o) == s.im.ByteAt(i, o) {}
    assert r.im.Bytes(i) == s.im.Bytes(i);
  }
}
