/** The buffer cache of Project1/bio.c: a doubly linked ring of buffers in order of last use. A pointer to a
    buffer is its index; the head of the ring comes after the last buffer. */
module BufferCache {
  import opened Collections

  const NBUF: nat := 30
  const HEAD: nat := NBUF

  type Block = seq<nat>

  /** A block of a device: its contents, as far as they have been written, are in a map. */
  type Disk = map<(nat, nat), Block>

  function OnDisk(disk: Disk, dev: nat, blockno: nat): Block {
    if (dev, blockno) in disk then disk[(dev, blockno)] else []
  }

  datatype Buf = Buf(dev: nat, blockno: nat, valid: bool, dirty: bool, refcnt: nat, data: Block)

  // ---------- The ring ----------

  /** The k-th node of the ring, the head being the 0th and also the last. */
  function Node(order: seq<nat>, k: nat): nat
    requires k <= |order| + 1
  {
    if k == 0 || k == |order| + 1 then HEAD else order[k - 1]
  }

  /** next leads from the k-th node to the one after it, and prev back. */
  ghost predicate Hop(next: seq<nat>, prev: seq<nat>, order: seq<nat>, k: nat)
    requires k <= |order|
  {
    var a, b := Node(order, k), Node(order, k + 1);
    a < |next| && b < |prev| && next[a] == b && prev[b] == a
  }

  /** next and prev link the head and the buffers of `order`, in this order, into a ring. */
  ghost predicate Ring(next: seq<nat>, prev: seq<nat>, order: seq<nat>) {
    && |next| == |prev| == NBUF + 1 && Distinct(order) && (forall i :: 0 <= i < |order| ==> order[i] < NBUF)
    && forall k: nat {:trigger Hop(next, prev, order, k)} :: k <= |order| ==> Hop(next, prev, order, k)
  }

  /** Two updates of a link array, the first overtaken by the second where they coincide. */
  function Set(links: seq<nat>, at: nat, to: nat): (r: seq<nat>)
    requires at < |links|
    ensures |r| == |links|
  {
    links[at := to]
  }

  /** Taking a node out of the ring. */
  lemma Unlinked(next: seq<nat>, prev: seq<nat>, order: seq<nat>, i: nat)
    requires Ring(next, prev, order) && i < |order|
    ensures var b := order[i]; next[b] <= NBUF && prev[b] <= NBUF
    ensures var b := order[i];
      Ring(Set(next, prev[b], next[b]), Set(prev, next[b], prev[b]), Without(order, i))
  {
    hide Node, Without, Distinct;
    var r := Without(order, i);
    NodeAt(order, i);
    assert Hop(next, prev, order, i) && Hop(next, prev, order, i + 1);
    var p, n := Node(order, i), Node(order, i + 2);
    WithoutContents(order, i);
    WithoutNode(order, i, 0);
    forall k | 0 <= k < |r| ensures r[k] < NBUF { assert r[k] in r && r[k] in order; }
    forall k: nat | k <= |r| ensures Hop(Set(next, p, n), Set(prev, n, p), r, k) {
      var m := if k <= i then k else k + 1;
      WithoutNode(order, i, k);
      WithoutNode(order, i, k + 1);
      assert Hop(next, prev, order, m);
      if k != i {
        NodesDiffer(order, m, i);
        NodesDiffer(order, m + 1, i + 2);
      }
    }
  }

  lemma NodeAt(order: seq<nat>, i: nat)
    requires i < |order|
    ensures Node(order, i + 1) == order[i]
  {
  }

  lemma WithoutNode(order: seq<nat>, i: nat, k: nat)
    requires i < |order| && k <= |order|
    ensures |Without(order, i)| == |order| - 1
    ensures Node(Without(order, i), k) == Node(order, if k <= i then k else k + 1)
  {
  }

  lemma NodesDiffer(order: seq<nat>, j: nat, k: nat)
    requires Distinct(order) && j <= |order| + 1 && k <= |order| + 1 && j != k
    requires forall i :: 0 <= i < |order| ==> order[i] < NBUF
    ensures Node(order, j) == Node(order, k) ==> {j, k} == {0, |order| + 1}
  {
  }

  /** Putting a node in after the head. */
  lemma Linked(next: seq<nat>, prev: seq<nat>, order: seq<nat>, b: nat)
    requires Ring(next, prev, order) && b < NBUF && b !in order
    ensures next[HEAD] <= NBUF
    ensures var n := next[HEAD];
      Ring(Set(Set(next, b, n), HEAD, b), Set(Set(prev, b, HEAD), n, b), [b] + order)
  {
    var n, r := next[HEAD], [b] + order;
    assert Hop(next, prev, order, 0);
    var next', prev' := Set(Set(next, b, n), HEAD, b), Set(Set(prev, b, HEAD), n, b);
    forall k: nat | k <= |r| ensures Hop(next', prev', r, k) {
      if k >= 2 {
        assert Node(r, k) == Node(order, k - 1) && Node(r, k + 1) == Node(order, k);
        assert Hop(next, prev, order, k - 1);
        NodesDiffer(order, k, 1);
      }
    }
  }

  // ---------- What the buffers hold ----------

  predicate IsFor(b: Buf, dev: nat, blockno: nat) {
    b.dev == dev && b.blockno == blockno
  }

  predicate Recyclable(b: Buf) {
    b.refcnt == 0 && !b.dirty
  }

  /** At most one buffer is for a given block of a device other than 0, which all buffers are for at first. */
  ghost predicate Unique(bufs: seq<Buf>) {
    forall i, j {:trigger bufs[i], bufs[j]} :: 0 <= i < j < |bufs| && bufs[i].dev != 0 ==>
      !IsFor(bufs[i], bufs[j].dev, bufs[j].blockno)
  }

  /** Valid contents are those on disk, but for a buffer that is marked dirty, or is being changed by a holder. */
  ghost predicate Clean(bufs: seq<Buf>, disk: Disk, changing: set<nat>) {
    && (forall b {:trigger bufs[b]} :: 0 <= b < |bufs| && bufs[b].valid && !bufs[b].dirty && b !in changing ==>
          bufs[b].data == OnDisk(disk, bufs[b].dev, bufs[b].blockno))
    && (forall b {:trigger b in changing} :: b in changing ==> b < |bufs| && bufs[b].refcnt > 0)
    && (forall b {:trigger bufs[b]} :: 0 <= b < |bufs| && bufs[b].dirty ==> bufs[b].valid)
  }

  ghost predicate Holds(bufs: seq<Buf>, b: nat, dev: nat, blockno: nat) {
    b < |bufs| && IsFor(bufs[b], dev, blockno) && bufs[b].valid
  }

  /** The contents of a block as they were last written: in its buffer, if it has one, and otherwise on disk. */
  ghost function Latest(bufs: seq<Buf>, disk: Disk, dev: nat, blockno: nat): Block {
    if b: nat :| Holds(bufs, b, dev, blockno) then bufs[b].data else OnDisk(disk, dev, blockno)
  }

  ghost predicate SameLatest(bufs: seq<Buf>, disk: Disk, bufs': seq<Buf>, disk': Disk) {
    forall dev: nat, blockno: nat {:trigger Latest(bufs', disk', dev, blockno)} ::
      dev != 0 ==> Latest(bufs', disk', dev, blockno) == Latest(bufs, disk, dev, blockno)
  }

  lemma LatestIs(bufs: seq<Buf>, disk: Disk, b: nat)
    requires Unique(bufs) && b < |bufs| && bufs[b].dev != 0 && bufs[b].valid
    ensures Latest(bufs, disk, bufs[b].dev, bufs[b].blockno) == bufs[b].data
  {
    assert Holds(bufs, b, bufs[b].dev, bufs[b].blockno);
    forall c: nat | Holds(bufs, c, bufs[b].dev, bufs[b].blockno) ensures c == b {}
  }

  /** A change to one buffer concerns no block but those it was for and is for. */
  lemma LatestElsewhere(bufs: seq<Buf>, disk: Disk, b: nat, buf: Buf, disk': Disk, dev: nat, blockno: nat)
    requires b < |bufs| && Unique(bufs) && Unique(bufs[b := buf]) && dev != 0
    requires !IsFor(bufs[b], dev, blockno) && !IsFor(buf, dev, blockno)
    requires OnDisk(disk', dev, blockno) == OnDisk(disk, dev, blockno)
    ensures Latest(bufs[b := buf], disk', dev, blockno) == Latest(bufs, disk, dev, blockno)
  {
    var bufs' := bufs[b := buf];
    forall c: nat ensures Holds(bufs', c, dev, blockno) == Holds(bufs, c, dev, blockno) {}
    if c: nat :| Holds(bufs, c, dev, blockno) {
      assert Holds(bufs', c, dev, blockno) && bufs'[c] == bufs[c] == bufs[c];
      LatestIs(bufs, disk, c);
      LatestIs(bufs', disk', c);
    }
  }

  lemma LatestOnDisk(bufs: seq<Buf>, disk: Disk, dev: nat, blockno: nat)
    requires forall c: nat :: !Holds(bufs, c, dev, blockno)
    ensures Latest(bufs, disk, dev, blockno) == OnDisk(disk, dev, blockno)
  {
  }

  /** One more or one less reference. */
  lemma Recounted(bufs: seq<Buf>, disk: Disk, changing: set<nat>, b: nat, n: nat)
    requires Unique(bufs) && Clean(bufs, disk, changing) && b < |bufs| && (n == 0 ==> b !in changing)
    ensures var bufs' := bufs[b := bufs[b].(refcnt := n)];
      Unique(bufs') && Clean(bufs', disk, changing) && SameLatest(bufs, disk, bufs', disk)
  {
    var bufs' := bufs[b := bufs[b].(refcnt := n)];
    forall dev: nat, blockno: nat | dev != 0
      ensures Latest(bufs', disk, dev, blockno) == Latest(bufs, disk, dev, blockno)
    {
      SameHolders(bufs, bufs', disk, dev, blockno);
    }
  }

  lemma SameHolders(bufs: seq<Buf>, bufs': seq<Buf>, disk: Disk, dev: nat, blockno: nat)
    requires Unique(bufs) && Unique(bufs') && dev != 0 && |bufs'| == |bufs|
    requires forall c: nat :: c < |bufs| && IsFor(bufs[c], dev, blockno) ==>
      bufs'[c].valid == bufs[c].valid && bufs'[c].data == bufs[c].data
    requires forall c: nat :: c < |bufs| ==> IsFor(bufs'[c], dev, blockno) == IsFor(bufs[c], dev, blockno)
    ensures Latest(bufs', disk, dev, blockno) == Latest(bufs, disk, dev, blockno)
  {
    forall c: nat ensures Holds(bufs', c, dev, blockno) == Holds(bufs, c, dev, blockno) {}
    if c: nat :| Holds(bufs, c, dev, blockno) {
      assert Holds(bufs', c, dev, blockno);
      LatestIs(bufs, disk, c);
      LatestIs(bufs', disk, c);
    }
  }

  /** A buffer that no one uses is given to another block; what it held is on disk. */
  lemma Recycled(bufs: seq<Buf>, disk: Disk, changing: set<nat>, b: nat, dev: nat, blockno: nat)
    requires Unique(bufs) && Clean(bufs, disk, changing) && b < |bufs| && Recyclable(bufs[b])
    requires forall c :: 0 <= c < |bufs| ==> !IsFor(bufs[c], dev, blockno)
    ensures var bufs' := bufs[b := Buf(dev, blockno, false, false, 1, bufs[b].data)];
      Unique(bufs') && Clean(bufs', disk, changing) && SameLatest(bufs, disk, bufs', disk)
  {
    var bufs' := bufs[b := Buf(dev, blockno, false, false, 1, bufs[b].data)];
    forall d: nat, n: nat | d != 0 ensures Latest(bufs', disk, d, n) == Latest(bufs, disk, d, n) {
      if d == dev && n == blockno {
        LatestOnDisk(bufs, disk, d, n);
        LatestOnDisk(bufs', disk, d, n);
      } else if IsFor(bufs[b], d, n) {
        forall c: nat ensures !Holds(bufs', c, d, n) {}
        LatestOnDisk(bufs', disk, d, n);
        if bufs[b].valid { LatestIs(bufs, disk, b); } else {
          forall c: nat ensures !Holds(bufs, c, d, n) {}
          LatestOnDisk(bufs, disk, d, n);
        }
      } else {
        LatestElsewhere(bufs, disk, b, bufs'[b], disk, d, n);
      }
    }
  }

  /** Reading a block into its buffer. */
  lemma Filled(bufs: seq<Buf>, disk: Disk, changing: set<nat>, b: nat)
    requires Unique(bufs) && Clean(bufs, disk, changing) && b < |bufs| && !bufs[b].valid && !bufs[b].dirty
    ensures var bufs' := bufs[b := bufs[b].(valid := true, data := OnDisk(disk, bufs[b].dev, bufs[b].blockno))];
      Unique(bufs') && Clean(bufs', disk, changing) && SameLatest(bufs, disk, bufs', disk)
  {
    var bufs' := bufs[b := bufs[b].(valid := true, data := OnDisk(disk, bufs[b].dev, bufs[b].blockno))];
    forall d: nat, n: nat | d != 0 ensures Latest(bufs', disk, d, n) == Latest(bufs, disk, d, n) {
      if IsFor(bufs[b], d, n) {
        LatestIs(bufs', disk, b);
        forall c: nat ensures !Holds(bufs, c, d, n) {}
        LatestOnDisk(bufs, disk, d, n);
      } else {
        LatestElsewhere(bufs, disk, b, bufs'[b], disk, d, n);
      }
    }
  }

  /** Giving a buffer new contents, and perhaps its block on disk as well, concerns only its block. */
  lemma Rewritten(bufs: seq<Buf>, disk: Disk, b: nat, buf: Buf, disk': Disk)
    requires Unique(bufs) && b < |bufs| && buf.dev == bufs[b].dev && buf.blockno == bufs[b].blockno && buf.valid
    requires buf.dev != 0
    requires forall d: nat, n: nat {:trigger OnDisk(disk', d, n)} :: !IsFor(buf, d, n) ==>
      OnDisk(disk', d, n) == OnDisk(disk, d, n)
    ensures Unique(bufs[b := buf]) && Latest(bufs[b := buf], disk', buf.dev, buf.blockno) == buf.data
    ensures forall d: nat, n: nat {:trigger Latest(bufs[b := buf], disk', d, n)} ::
      d != 0 && !IsFor(buf, d, n) ==> Latest(bufs[b := buf], disk', d, n) == Latest(bufs, disk, d, n)
  {
    var bufs' := bufs[b := buf];
    assert Unique(bufs');
    LatestIs(bufs', disk', b);
    forall d: nat, n: nat | d != 0 && !IsFor(buf, d, n) ensures Latest(bufs', disk', d, n) == Latest(bufs, disk, d, n) {
      LatestElsewhere(bufs, disk, b, buf, disk', d, n);
    }
  }

  // ---------- The cache ----------

  class Cache {
    const next: array<nat>
    const prev: array<nat>
    const buf: array<Buf>
    var disk: Disk
    ghost var order: seq<nat>          // the buffers from the most to the least recently used
    ghost var changing: set<nat>       // buffers whose holder has changed them and not marked them yet

    ghost predicate Valid()
      reads this, next, prev, buf
    {
      && next != prev && Ring(next[..], prev[..], order) && (forall b: nat :: b < NBUF ==> b in order)
      && buf.Length == NBUF && Unique(buf[..]) && Clean(buf[..], disk, changing)
    }

    /** binit */
    constructor (d: Disk)
      ensures Valid() && fresh(next) && fresh(prev) && fresh(buf) && disk == d && changing == {}
      ensures forall b :: 0 <= b < NBUF ==> buf[b] == Buf(0, 0, false, false, 0, [])
      ensures order == seq(NBUF, k => NBUF - 1 - k)
    {
      next, prev := new nat[NBUF + 1](_ => HEAD), new nat[NBUF + 1](_ => HEAD);
      buf := new Buf[NBUF](_ => Buf(0, 0, false, false, 0, []));
      disk, order, changing := d, [], {};
      new;
      var b := 0;
      while b < NBUF
        invariant b <= NBUF && Ring(next[..], prev[..], order) && forall i: nat :: i in order <==> i < b
        invariant |order| == b && forall k :: 0 <= k < b ==> order[k] == b - 1 - k
        invariant disk == d && changing == {} && forall i :: 0 <= i < NBUF ==> buf[i] == Buf(0, 0, false, false, 0, [])
        invariant fresh(next) && fresh(prev) && fresh(buf)
      {
        LinkIn(b);
        b := b + 1;
      }
    }

    /** Puts b into the ring after the head. */
    method LinkIn(b: nat)
      requires next != prev && Ring(next[..], prev[..], order) && b < NBUF && b !in order
      modifies next, prev, this`order
      ensures Ring(next[..], prev[..], order) && order == [b] + old(order)
    {
      hide Ring;
      ghost var ns, ps := next[..], prev[..];
      Sizes(ns, ps, order);
      Linked(ns, ps, order, b);
      next[b] := next[HEAD];
      prev[b] := HEAD;
      prev[next[HEAD]] := b;
      next[HEAD] := b;
      order := [b] + order;
      assert next[..] == Set(Set(ns, b, ns[HEAD]), HEAD, b) && prev[..] == Set(Set(ps, b, HEAD), ns[HEAD], b);
    }

    /** Takes b, which is entry i of the order, out of the ring. */
    method LinkOut(b: nat, ghost i: nat)
      requires next != prev && Ring(next[..], prev[..], order) && i < |order| && order[i] == b
      modifies next, prev, this`order
      ensures Ring(next[..], prev[..], order) && order == Without(old(order), i)
    {
      hide Ring;
      ghost var ns, ps := next[..], prev[..];
      Sizes(ns, ps, order);
      Unlinked(ns, ps, order, i);
      prev[next[b]] := prev[b];
      next[prev[b]] := next[b];
      order := Without(order, i);
      assert next[..] == Set(ns, ps[b], ns[b]) && prev[..] == Set(ps, ns[b], ps[b]);
    }

    /** bget's first loop: the most recently used buffer for the block, or HEAD. */
    method Lookup(dev: nat, blockno: nat) returns (b: nat, ghost i: nat)
      requires Valid()
      ensures b == HEAD <==> forall c :: 0 <= c < NBUF ==> !IsFor(buf[c], dev, blockno)
      ensures b != HEAD ==> b < NBUF && IsFor(buf[b], dev, blockno)
    {
      b, i := next[HEAD], 0;
      assert Hop(next[..], prev[..], order, 0);
      while b != HEAD && !IsFor(buf[b], dev, blockno)
        invariant i <= |order| && b == Node(order, i + 1) && (b != HEAD ==> b < NBUF)
        invariant forall k :: 0 <= k < i ==> !IsFor(buf[order[k]], dev, blockno)
        decreases |order| - i
      {
        assert Hop(next[..], prev[..], order, i + 1);
        b, i := next[b], i + 1;
      }
      if b == HEAD {
        forall c: nat | c < NBUF ensures !IsFor(buf[c], dev, blockno) {
          assert c in order;
          var k :| 0 <= k < |order| && order[k] == c;
        }
      }
    }

    /** bget's second loop: the least recently used buffer that may be recycled, or HEAD. */
    method FindUnused() returns (b: nat, ghost i: nat)
      requires Valid()
      ensures b == HEAD <==> forall c :: 0 <= c < NBUF ==> !Recyclable(buf[c])
      ensures b != HEAD ==> b < NBUF && Recyclable(buf[b]) && i < |order| && order[i] == b
      ensures b != HEAD ==> forall k :: i < k < |order| ==> order[k] < NBUF && !Recyclable(buf[order[k]])
    {
      ghost var m: nat := |order|;
      b := prev[HEAD];
      assert Hop(next[..], prev[..], order, |order|);
      while b != HEAD && !Recyclable(buf[b])
        invariant m <= |order| && b == Node(order, m) && (b != HEAD ==> b < NBUF)
        invariant forall k :: m <= k < |order| ==> order[k] < NBUF && !Recyclable(buf[order[k]])
        decreases m
      {
        assert Hop(next[..], prev[..], order, m - 1);
        b, m := prev[b], m - 1;
      }
      i := if m > 0 then m - 1 else 0;
      if b == HEAD {
        forall c: nat | c < NBUF ensures !Recyclable(buf[c]) {
          assert c in order;
          var k :| 0 <= k < |order| && order[k] == c;
        }
      }
    }

    /** bget; HEAD stands for the panic that there are no buffers. A buffer in use or dirty is never recycled. */
    method Bget(dev: nat, blockno: nat) returns (b: nat, ghost i: nat)
      requires Valid()
      modifies buf
      ensures Valid() && SameLatest(old(buf[..]), disk, buf[..], disk)
      ensures b == HEAD ==> buf[..] == old(buf[..])
      ensures b == HEAD ==> forall c :: 0 <= c < NBUF ==> !IsFor(buf[c], dev, blockno) && !Recyclable(buf[c])
      ensures b != HEAD ==> b < NBUF
      ensures b != HEAD && IsFor(old(buf[b]), dev, blockno) ==>
        buf[..] == old(buf[..])[b := old(buf[b]).(refcnt := old(buf[b]).refcnt + 1)]
      ensures b != HEAD && !IsFor(old(buf[b]), dev, blockno) ==>
        Recyclable(old(buf[b])) && buf[..] == old(buf[..])[b := Buf(dev, blockno, false, false, 1, old(buf[b]).data)]
      ensures b != HEAD && !IsFor(old(buf[b]), dev, blockno) ==> i < |order| && order[i] == b
      ensures b != HEAD && !IsFor(old(buf[b]), dev, blockno) ==>
        forall k :: i < k < |order| ==> order[k] < NBUF && !Recyclable(old(buf[..])[order[k]])
    {
      b, i := Lookup(dev, blockno);
      if b != HEAD {
        Recounted(buf[..], disk, changing, b, buf[b].refcnt + 1);
        buf[b] := buf[b].(refcnt := buf[b].refcnt + 1);
        return;
      }
      b, i := FindUnused();
      if b != HEAD {
        Recycled(buf[..], disk, changing, b, dev, blockno);
        buf[b] := Buf(dev, blockno, false, false, 1, buf[b].data);
      }
    }

    /** iderw, for the memory disk: writes a dirty buffer, or reads one that is not valid. */
    method Iderw(b: nat)
      requires Valid() && b < NBUF && (buf[b].dirty || !buf[b].valid) && buf[b].dev != 0
      modifies this`disk, this`changing, buf
      ensures Valid()
      ensures old(buf[b].dirty) ==>
        && buf[..] == old(buf[..])[b := old(buf[b]).(valid := true, dirty := false)] && changing == old(changing) - {b}
        && disk == old(disk)[(old(buf[b]).dev, old(buf[b]).blockno) := old(buf[b]).data]
      ensures !old(buf[b].dirty) ==>
        && buf[..] == old(buf[..])[b := old(buf[b]).(valid := true,
                                                     data := OnDisk(disk, old(buf[b]).dev, old(buf[b]).blockno))]
        && disk == old(disk) && changing == old(changing) && SameLatest(old(buf[..]), old(disk), buf[..], disk)
      ensures Latest(buf[..], disk, buf[b].dev, buf[b].blockno) == buf[b].data
      ensures OthersSame(old(buf[..]), old(disk), buf[..], disk, buf[b].dev, buf[b].blockno)
    {
      hide Ring;
      ghost var was, d := buf[..], disk;
      if buf[b].dirty {
        Written(was, disk, changing, b);
        disk := disk[(buf[b].dev, buf[b].blockno) := buf[b].data];
        buf[b] := buf[b].(valid := true, dirty := false);
        changing := changing - {b};
      } else {
        Filled(was, disk, changing, b);
        buf[b] := buf[b].(valid := true, data := OnDisk(disk, buf[b].dev, buf[b].blockno));
        LatestIs(buf[..], disk, b);
      }
    }

    /** bread; HEAD stands for the panic. The buffer has the block as it was last written. */
    method Bread(dev: nat, blockno: nat) returns (b: nat)
      requires Valid() && dev != 0
      modifies buf, this`disk, this`changing
      ensures Valid() && SameLatest(old(buf[..]), old(disk), buf[..], disk) && disk == old(disk)
      ensures changing == old(changing)
      ensures b == HEAD ==> forall c :: 0 <= c < NBUF ==> !IsFor(buf[c], dev, blockno) && !Recyclable(buf[c])
      ensures b != HEAD ==> b < NBUF && IsFor(buf[b], dev, blockno) && buf[b].valid && buf[b].refcnt > 0
      ensures b != HEAD ==> buf[b].data == Latest(old(buf[..]), old(disk), dev, blockno)
    {
      hide Ring;
      ghost var i;
      ghost var was := buf[..];
      b, i := Bget(dev, blockno);
      if b == HEAD {
        return;
      }
      ghost var mid := buf[..];
      if !buf[b].valid {
        Iderw(b);
      } else {
        LatestIs(mid, disk, b);
      }
      assert Latest(buf[..], disk, dev, blockno) == buf[b].data;
    }

    /** bwrite */
    method Bwrite(b: nat)
      requires Valid() && b < NBUF && buf[b].refcnt > 0 && buf[b].dev != 0 && buf[b].valid
      modifies buf, this`disk, this`changing
      ensures Valid() && buf[..] == old(buf[..])[b := old(buf[b]).(valid := true, dirty := false)]
      ensures changing == old(changing) - {b} && OnDisk(disk, buf[b].dev, buf[b].blockno) == buf[b].data
      ensures Latest(buf[..], disk, buf[b].dev, buf[b].blockno) == buf[b].data
      ensures OthersSame(old(buf[..]), old(disk), buf[..], disk, buf[b].dev, buf[b].blockno)
    {
      hide Ring;
      ghost var was := buf[..];
      Marked(was, disk, changing, b, buf[b].(dirty := true));
      buf[b] := buf[b].(dirty := true);
      ghost var mid := buf[..];
      Iderw(b);
      assert buf[..] == was[b := was[b].(valid := true, dirty := false)];
    }

    /** A holder changes the contents of a buffer it has read. */
    method Change(b: nat, data: Block)
      requires Valid() && b < NBUF && buf[b].refcnt > 0 && buf[b].dev != 0 && buf[b].valid
      modifies buf, this`changing
      ensures Valid() && buf[..] == old(buf[..])[b := old(buf[b]).(data := data)] && changing == old(changing) + {b}
      ensures Latest(buf[..], disk, buf[b].dev, buf[b].blockno) == data
      ensures OthersSame(old(buf[..]), disk, buf[..], disk, buf[b].dev, buf[b].blockno)
    {
      hide Ring;
      Rewritten(buf[..], disk, b, buf[b].(data := data), disk);
      buf[b] := buf[b].(data := data);
      changing := changing + {b};
    }

    /** log_write's mark, which keeps the buffer in the cache until the commit writes it. */
    method Pin(b: nat)
      requires Valid() && b < NBUF && buf[b].refcnt > 0 && buf[b].valid
      modifies buf, this`changing
      ensures Valid() && buf[..] == old(buf[..])[b := old(buf[b]).(dirty := true)] && changing == old(changing) - {b}
      ensures SameLatest(old(buf[..]), disk, buf[..], disk)
    {
      hide Ring;
      Marked(buf[..], disk, changing, b, buf[b].(dirty := true));
      buf[b] := buf[b].(dirty := true);
      changing := changing - {b};
    }

    /** brelse: the last release makes the buffer the most recently used. A holder that has changed it has
        written it or marked it before. */
    method Brelse(b: nat, ghost i: nat)
      requires Valid() && b < NBUF && buf[b].refcnt > 0 && i < |order| && order[i] == b
      requires buf[b].refcnt == 1 ==> b !in changing
      modifies buf, next, prev, this`order
      ensures Valid() && SameLatest(old(buf[..]), disk, buf[..], disk)
      ensures buf[..] == old(buf[..])[b := old(buf[b]).(refcnt := old(buf[b]).refcnt - 1)]
      ensures order == if old(buf[b]).refcnt == 1 then [b] + Without(old(order), i) else old(order)
    {
      hide Ring;
      Recounted(buf[..], disk, changing, b, buf[b].refcnt - 1);
      buf[b] := buf[b].(refcnt := buf[b].refcnt - 1);
      if buf[b].refcnt == 0 {
        Moved(next[..], prev[..], order, i);
        LinkOut(b, i);
        LinkIn(b);
      }
    }
  }

  ghost predicate OthersSame(bufs: seq<Buf>, disk: Disk, bufs': seq<Buf>, disk': Disk, dev: nat, blockno: nat) {
    forall d: nat, n: nat {:trigger Latest(bufs', disk', d, n)} ::
      d != 0 && (d != dev || n != blockno) ==> Latest(bufs', disk', d, n) == Latest(bufs, disk, d, n)
  }

  /** A dirty buffer goes to disk. */
  lemma Written(bufs: seq<Buf>, disk: Disk, changing: set<nat>, b: nat)
    requires Unique(bufs) && Clean(bufs, disk, changing) && b < |bufs| && bufs[b].dirty && bufs[b].dev != 0
    ensures
      var bufs' := bufs[b := bufs[b].(valid := true, dirty := false)];
      var disk' := disk[(bufs[b].dev, bufs[b].blockno) := bufs[b].data];
      && Unique(bufs') && Clean(bufs', disk', changing - {b})
      && Latest(bufs', disk', bufs[b].dev, bufs[b].blockno) == bufs[b].data
      && OthersSame(bufs, disk, bufs', disk', bufs[b].dev, bufs[b].blockno)
  {
    var bufs' := bufs[b := bufs[b].(valid := true, dirty := false)];
    var disk' := disk[(bufs[b].dev, bufs[b].blockno) := bufs[b].data];
    Rewritten(bufs, disk, b, bufs'[b], disk');
    forall c | 0 <= c < |bufs'| && bufs'[c].valid && !bufs'[c].dirty && c !in changing - {b}
      ensures bufs'[c].data == OnDisk(disk', bufs'[c].dev, bufs'[c].blockno)
    {
      if c != b { assert !IsFor(bufs[c], bufs[b].dev, bufs[b].blockno); }
    }
  }

  /** Marking a buffer dirty changes no contents. */
  lemma Marked(bufs: seq<Buf>, disk: Disk, changing: set<nat>, b: nat, buf: Buf)
    requires Unique(bufs) && Clean(bufs, disk, changing) && b < |bufs| && bufs[b].valid
    requires buf == bufs[b].(dirty := true)
    ensures Unique(bufs[b := buf]) && Clean(bufs[b := buf], disk, changing)
    ensures Clean(bufs[b := buf], disk, changing - {b})
    ensures SameLatest(bufs, disk, bufs[b := buf], disk)
  {
    var bufs' := bufs[b := buf];
    forall dev: nat, blockno: nat | dev != 0
      ensures Latest(bufs', disk, dev, blockno) == Latest(bufs, disk, dev, blockno)
    {
      SameHolders(bufs, bufs', disk, dev, blockno);
    }
  }

  // ---------- Buffers for a commit ----------

  /** The dirty buffers are those of the listed blocks, as log_write pins them. */
  ghost predicate Pinned(bufs: seq<Buf>, dev: nat, listed: seq<nat>) {
    && (forall b {:trigger bufs[b]} :: 0 <= b < |bufs| && bufs[b].dirty ==>
          bufs[b].dev == dev && bufs[b].blockno in listed)
    && (forall i {:trigger listed[i]} :: 0 <= i < |listed| ==> HasDirty(bufs, dev, listed[i]))
  }

  ghost predicate HasDirty(bufs: seq<Buf>, dev: nat, blockno: nat) {
    exists b: nat :: b < |bufs| && IsFor(bufs[b], dev, blockno) && bufs[b].dirty
  }

  /** The other buffers that somebody holds. */
  function Held(bufs: seq<Buf>): set<nat> {
    set b: nat | b < |bufs| && !bufs[b].dirty && bufs[b].refcnt > 0
  }

  function Dirty(bufs: seq<Buf>): set<nat> {
    set b: nat | b < |bufs| && bufs[b].dirty
  }

  ghost predicate Cached(bufs: seq<Buf>, dev: nat, blockno: nat) {
    exists b {:trigger bufs[b]} :: 0 <= b < |bufs| && IsFor(bufs[b], dev, blockno)
  }

  /** bget finds a buffer for the block. */
  ghost predicate Obtains(bufs: seq<Buf>, dev: nat, blockno: nat) {
    Cached(bufs, dev, blockno) || exists b {:trigger bufs[b]} :: 0 <= b < |bufs| && Recyclable(bufs[b])
  }

  /** While the blocks of a group are pinned, bget finds a buffer for a block exactly when it is cached, or the
      group and the buffers that are held leave one over. */
  lemma CommitObtains(bufs: seq<Buf>, dev: nat, listed: seq<nat>, blockno: nat)
    requires |bufs| == NBUF && Unique(bufs) && dev != 0 && Distinct(listed) && Pinned(bufs, dev, listed)
    ensures Obtains(bufs, dev, blockno) <==> Cached(bufs, dev, blockno) || |listed| + |Held(bufs)| < NBUF
  {
    hide Pinned, Unique, Distinct, Cached;
    DirtySize(bufs, dev, listed);
    var taken := Dirty(bufs) + Held(bufs);
    assert Dirty(bufs) !! Held(bufs);
    RangeSize(0, NBUF);
    if b :| 0 <= b < |bufs| && Recyclable(bufs[b]) {
      assert taken <= Range(0, NBUF) - {b};
      SubsetSize(taken, Range(0, NBUF) - {b});
    } else {
      assert taken == Range(0, NBUF) by {
        forall b: nat | b < NBUF ensures b in taken { assert !Recyclable(bufs[b]); }
      }
    }
  }

  /** There is one dirty buffer for each listed block. */
  lemma DirtySize(bufs: seq<Buf>, dev: nat, listed: seq<nat>)
    requires Unique(bufs) && dev != 0 && Distinct(listed) && Pinned(bufs, dev, listed)
    ensures |Dirty(bufs)| == |listed|
  {
    var at := seq(|listed|, i requires 0 <= i < |listed| => BufferOf(bufs, dev, listed, i));
    forall i | 0 <= i < |at| ensures at[i] in Dirty(bufs) && bufs[at[i]].blockno == listed[i] {
      assert at[i] == BufferOf(bufs, dev, listed, i);
    }
    forall b | b in Dirty(bufs) ensures b in at {
      var i :| 0 <= i < |listed| && listed[i] == bufs[b].blockno;
      SameBuffer(bufs, b, at[i]);
    }
    DistinctSize(at, Dirty(bufs));
  }

  lemma SameBuffer(bufs: seq<Buf>, b: nat, c: nat)
    requires Unique(bufs) && b < |bufs| && c < |bufs| && bufs[b].dev != 0
    requires bufs[b].dev == bufs[c].dev && bufs[b].blockno == bufs[c].blockno
    ensures b == c
  {
  }

  ghost function BufferOf(bufs: seq<Buf>, dev: nat, listed: seq<nat>, i: nat): (b: nat)
    requires Pinned(bufs, dev, listed) && i < |listed|
    ensures b < |bufs| && IsFor(bufs[b], dev, listed[i]) && bufs[b].dirty
  {
    assert HasDirty(bufs, dev, listed[i]);
    var b: nat :| b < |bufs| && IsFor(bufs[b], dev, listed[i]) && bufs[b].dirty; b
  }

  /** Moving a buffer to the front loses none. */
  lemma Moved(next: seq<nat>, prev: seq<nat>, order: seq<nat>, i: nat)
    requires Ring(next, prev, order) && i < |order|
    ensures order[i] !in Without(order, i) && order[i] < NBUF
    ensures forall c :: c in order <==> c in [order[i]] + Without(order, i)
  {
    WithoutContents(order, i);
  }

  lemma Sizes(next: seq<nat>, prev: seq<nat>, order: seq<nat>)
    requires Ring(next, prev, order)
    ensures |next| == |prev| == NBUF + 1 && forall i :: 0 <= i < |order| ==> order[i] < NBUF
  {
  }
}
