/** Files over disk blocks, as in Project1/fs.c: the block allocator, the direct and indirect block map
    of an inode, and reads and writes of byte ranges. Buffers and the log are transparent here: a
    block that the code modifies through log_write is modified at once. */
module FileBlocks {
  import opened Collections

  const BSIZE: nat := 512
  const NDIRECT: nat := 12
  const NINDIRECT: nat := 128
  const MAXFILE: nat := NDIRECT + NINDIRECT
  const BPB: nat := BSIZE * 8
  const MAXOPBLOCKS: nat := 10
  const MAXCHUNK: nat := (MAXOPBLOCKS - 1 - 1 - 2) / 2 * BSIZE
  const UINT_LIMIT: nat := 0x1_0000_0000

  type byte = x: int | 0 <= x < 256
  type Block = b: seq<byte> | |b| == BSIZE witness seq(BSIZE, _ => 0)

  function ZeroBlock(): Block { seq(BSIZE, _ => 0) }

  const IPB: nat := BSIZE / 64

  /** A disk block given to log_write: of the bitmap, of the inodes, or a block with an address. */
  datatype Logged = BitmapBlock(n: nat) | InodeBlock(n: nat) | DiskBlock(b: nat)

  /** The bitmap blocks of a disk of n blocks. */
  function Bitmap(n: nat): set<Logged> {
    set b: nat | b < n :: BitmapBlock(b / BPB)
  }

  lemma InBitmap(b: nat, n: nat)
    requires b < n
    ensures BitmapBlock(b / BPB) in Bitmap(n)
  {
  }

  lemma OneBitmapBlock(n: nat)
    requires n <= BPB
    ensures Bitmap(n) <= {BitmapBlock(0)}
  {
  }

  /** The block after the last one that holds a byte below `end`. */
  function EndBlock(end: nat): nat {
    (end + BSIZE - 1) / BSIZE
  }

  // ---------- Little-endian block addresses inside a block ----------

  function Word(b: Block, k: nat): (v: nat)
    requires k < NINDIRECT
    ensures v < UINT_LIMIT
  {
    b[4 * k] as int + 0x100 * b[4 * k + 1] as int + 0x1_0000 * b[4 * k + 2] as int + 0x100_0000 * b[4 * k + 3] as int
  }

  function SetWord(b: Block, k: nat, v: nat): Block
    requires k < NINDIRECT && v < UINT_LIMIT
  {
    b[4 * k := v % 0x100][4 * k + 1 := v / 0x100 % 0x100][4 * k + 2 := v / 0x1_0000 % 0x100]
     [4 * k + 3 := v / 0x100_0000]
  }

  lemma WordSetWord(b: Block, k: nat, v: nat, j: nat)
    requires k < NINDIRECT && v < UINT_LIMIT && j < NINDIRECT
    ensures Word(SetWord(b, k, v), j) == if j == k then v else Word(b, j)
  {
    if j == k {
      assert v / 0x1_0000 == v / 0x100 / 0x100 && v / 0x100_0000 == v / 0x1_0000 / 0x100;
    }
  }

  lemma WordZero(k: nat)
    requires k < NINDIRECT
    ensures Word(ZeroBlock(), k) == 0
  {
  }

  // ---------- Images ----------

  /** size and addrs of a dinode: NDIRECT block addresses and the address of the indirect block. */
  datatype Inode = Inode(size: nat, addrs: seq<nat>)

  /** A slot is a place that holds a block address: 0 .. NDIRECT are addrs, the rest are the entries
      of the indirect block. */
  const NSLOTS: nat := NDIRECT + 1 + NINDIRECT

  function DataSlot(bn: nat): nat { if bn < NDIRECT then bn else bn + 1 }

  /** The file block that slot k other than NDIRECT is for. */
  function BlockOf(k: nat): nat
    ensures k > NDIRECT ==> DataSlot(BlockOf(k)) == k
  {
    if k > NDIRECT then k - 1 else k
  }

  datatype Image = Image(block: seq<Block>, used: seq<bool>, inode: seq<Inode>, dataStart: nat) {

    predicate Shape() {
      && |used| == |block| < UINT_LIMIT && 0 < dataStart
      && forall i :: 0 <= i < |inode| ==> |inode[i].addrs| == NDIRECT + 1
    }

    predicate Data(b: int) { dataStart <= b < |block| }

    function Slot(i: nat, k: nat): nat
      requires Shape() && i < |inode| && k < NSLOTS
    {
      if k <= NDIRECT then inode[i].addrs[k]
      else
        var ind := inode[i].addrs[NDIRECT];
        if ind == 0 || ind >= |block| then 0 else Word(block[ind], k - NDIRECT - 1)
    }

    /** Every address held in a slot is a data block, marked used, and held in that slot only. */
    ghost predicate Owned()
      requires Shape()
    {
      && (forall i, k {:trigger Slot(i, k)} :: 0 <= i < |inode| && 0 <= k < NSLOTS && Slot(i, k) != 0 ==>
            Data(Slot(i, k)) && used[Slot(i, k)])
      && (forall i, k, j, l {:trigger Slot(i, k), Slot(j, l)} ::
            0 <= i < |inode| && 0 <= k < NSLOTS && 0 <= j < |inode| && 0 <= l < NSLOTS ==>
            Slot(i, k) != 0 && Slot(i, k) == Slot(j, l) ==> i == j && k == l)
    }

    /** Some slot holds block b. */
    ghost predicate Held(b: nat)
      requires Shape()
    {
      exists i, k {:trigger Slot(i, k)} :: 0 <= i < |inode| && 0 <= k < NSLOTS && Slot(i, k) == b
    }

    /** No data block is marked used without a slot holding it. */
    ghost predicate NoLeaks()
      requires Shape()
    {
      forall b {:trigger used[b]} :: Data(b) && used[b] ==> Held(b)
    }

    /** Blocks below the size are all mapped. */
    ghost predicate NoHoles()
      requires Shape()
    {
      forall i, bn {:trigger Slot(i, DataSlot(bn))} ::
        0 <= i < |inode| && 0 <= bn < MAXFILE && bn * BSIZE < inode[i].size ==> Slot(i, DataSlot(bn)) != 0
    }

    ghost predicate Valid() {
      && Shape() && Owned() && NoLeaks() && NoHoles()
      && (forall i :: 0 <= i < |inode| ==> inode[i].size <= MAXFILE * BSIZE)
      && (forall b :: 0 <= b < dataStart && b < |used| ==> used[b])
    }

    predicate Mapped(i: nat, bn: nat)
      requires Shape() && i < |inode| && bn < MAXFILE
    {
      0 < Slot(i, DataSlot(bn)) < |block|
    }

    /** The byte that a mapped position of inode i holds, whether or not it is below the size. */
    function Raw(i: nat, o: nat): byte
      requires Shape() && i < |inode| && o < MAXFILE * BSIZE && Mapped(i, o / BSIZE)
    {
      block[Slot(i, DataSlot(o / BSIZE))][o % BSIZE]
    }

    /** The flat byte string that inode i stands for. A hole would read as zero, but Valid images have none. */
    ghost function Bytes(i: nat): (r: seq<byte>)
      requires Shape() && i < |inode|
      ensures |r| == inode[i].size
    {
      seq(inode[i].size, o requires 0 <= o < inode[i].size => ByteAt(i, o))
    }

    ghost function ByteAt(i: nat, o: nat): byte
      requires Shape() && i < |inode|
    {
      if o < MAXFILE * BSIZE && Mapped(i, o / BSIZE) then Raw(i, o) else 0
    }

    lemma BelowSize(i: nat, o: nat)
      requires Valid() && i < |inode| && o < inode[i].size
      ensures o < MAXFILE * BSIZE && Mapped(i, o / BSIZE)
    {
      assert Slot(i, DataSlot(o / BSIZE)) != 0;
    }

    // ---------- The state changes ----------

    /** balloc: block b is marked used and zeroed. */
    function Allocated(b: nat): Image
      requires Shape() && b < |block|
    {
      this.(block := block[b := ZeroBlock()], used := used[b := true])
    }

    /** Slot k of inode i is set to a. */
    function WithSlot(i: nat, k: nat, a: nat): Image
      requires Shape() && i < |inode| && k < NSLOTS && a < UINT_LIMIT
      requires k > NDIRECT ==> 0 < inode[i].addrs[NDIRECT] < |block|
    {
      if k <= NDIRECT then
        this.(inode := inode[i := inode[i].(addrs := inode[i].addrs[k := a])])
      else
        var ind := inode[i].addrs[NDIRECT];
        this.(block := block[ind := SetWord(block[ind], k - NDIRECT - 1, a)])
    }

    /** The content of block a changes. */
    function WithBlock(a: nat, data: Block): Image
      requires a < |block|
    {
      this.(block := block[a := data])
    }

    ghost predicate SameSlots(im: Image)
      requires Shape() && im.Shape()
    {
      && |inode| == |im.inode| && |block| == |im.block| && dataStart == im.dataStart
      && forall i, k {:trigger im.Slot(i, k)} {:trigger Slot(i, k)} ::
           0 <= i < |inode| && 0 <= k < NSLOTS ==> im.Slot(i, k) == Slot(i, k)
    }

    lemma AllocatedSlots(b: nat, im: Image)
      requires Shape() && Owned() && Data(b) && !used[b] && im == Allocated(b)
      ensures im.Shape() && SameSlots(im) && im.Owned() && !im.Held(b)
    {
      forall i, k | 0 <= i < |inode| && 0 <= k < NSLOTS ensures im.Slot(i, k) == Slot(i, k) && Slot(i, k) != b {
        assert Slot(i, NDIRECT) == inode[i].addrs[NDIRECT];
        assert Slot(i, NDIRECT) != b && Slot(i, k) != b;
      }
    }

    /** Filling an empty slot with an unheld block changes that slot alone. */
    lemma WithSlotSlots(i: nat, k: nat, a: nat, im: Image)
      requires Shape() && Owned() && i < |inode| && k < NSLOTS && Slot(i, k) == 0
      requires Data(a) && used[a] && !Held(a)
      requires k > NDIRECT ==> Slot(i, NDIRECT) != 0
      requires k == NDIRECT ==> block[a] == ZeroBlock()
      requires im == WithSlot(i, k, a)
      ensures im.Shape() && |im.inode| == |inode|
      ensures forall j, l {:trigger im.Slot(j, l)} :: 0 <= j < |inode| && 0 <= l < NSLOTS ==>
        im.Slot(j, l) == if j == i && l == k then a else Slot(j, l)
    {
      forall j, l | 0 <= j < |inode| && 0 <= l < NSLOTS
        ensures im.Slot(j, l) == if j == i && l == k then a else Slot(j, l)
      {
        assert Slot(j, NDIRECT) == inode[j].addrs[NDIRECT] && Slot(i, NDIRECT) == inode[i].addrs[NDIRECT];
        if l > NDIRECT {
          var e := l - NDIRECT - 1;
          if k > NDIRECT && j == i { WordSetWord(block[Slot(i, NDIRECT)], k - NDIRECT - 1, a, e); }
          if k == NDIRECT && j == i { WordZero(e); }
        }
      }
    }

    /** Writing a block that is not an indirect block changes no slot. */
    lemma WithBlockSlots(i: nat, bn: nat, data: Block, im: Image)
      requires Shape() && Owned() && i < |inode| && bn < MAXFILE && Mapped(i, bn)
      requires im == WithBlock(Slot(i, DataSlot(bn)), data)
      ensures im.Shape() && SameSlots(im)
    {
      forall j, l | 0 <= j < |inode| && 0 <= l < NSLOTS ensures im.Slot(j, l) == Slot(j, l) {
        assert Slot(j, NDIRECT) == inode[j].addrs[NDIRECT];
      }
    }

    /** Slot k of inode i gets the newly allocated block b. */
    function MapSlot(i: nat, k: nat, b: nat): Image
      requires Shape() && i < |inode| && k < NSLOTS && b < |block|
      requires k > NDIRECT ==> 0 < inode[i].addrs[NDIRECT] < |block|
    {
      Allocated(b).WithSlot(i, k, b)
    }

    /** Same sizes, and every mapped position of im keeps its place and its byte here. */
    ghost predicate Extends(im: Image)
      requires Shape() && im.Shape()
    {
      && |inode| == |im.inode| && |block| == |im.block| && dataStart == im.dataStart
      && (forall j :: 0 <= j < |inode| ==> inode[j].size == im.inode[j].size)
      && (forall j, k {:trigger Slot(j, k)} :: 0 <= j < |inode| && 0 <= k < NSLOTS && im.Slot(j, k) != 0 ==>
            Slot(j, k) == im.Slot(j, k))
      && (forall j, bn {:trigger Slot(j, DataSlot(bn))} ::
            0 <= j < |inode| && 0 <= bn < MAXFILE && im.Mapped(j, bn) ==>
            block[Slot(j, DataSlot(bn))] == im.block[im.Slot(j, DataSlot(bn))])
      && (forall b :: 0 <= b < |used| && im.used[b] ==> used[b])
    }

    ghost predicate Blocks()
    {
      && Shape() && Owned() && NoLeaks()
      && forall b :: 0 <= b < dataStart && b < |used| ==> used[b]
    }

    lemma MapSlotSlots(i: nat, k: nat, b: nat, im: Image)
      requires Shape() && Owned() && i < |inode| && k < NSLOTS && Slot(i, k) == 0
      requires Data(b) && !used[b] && (k > NDIRECT ==> 0 < inode[i].addrs[NDIRECT] < |block|)
      requires im == MapSlot(i, k, b)
      ensures im.Shape() && |im.inode| == |inode|
      ensures forall j, l {:trigger im.Slot(j, l)} :: 0 <= j < |inode| && 0 <= l < NSLOTS ==>
        im.Slot(j, l) == if j == i && l == k then b else Slot(j, l)
      ensures forall j, l {:trigger im.Slot(j, l)} :: 0 <= j < |inode| && 0 <= l < NSLOTS ==> Slot(j, l) != b
    {
      var mid := Allocated(b);
      AllocatedSlots(b, mid);
      assert mid.Slot(i, NDIRECT) == inode[i].addrs[NDIRECT];
      mid.WithSlotSlots(i, k, b, im);
    }

    lemma MapSlotOwned(i: nat, k: nat, b: nat, im: Image)
      requires Shape() && Owned() && i < |inode| && k < NSLOTS && Slot(i, k) == 0 && 0 < b < |block| && Data(b)
      requires im.Shape() && |im.inode| == |inode| && im.used == used[b := true] && im.dataStart == dataStart
      requires forall j, l {:trigger im.Slot(j, l)} :: 0 <= j < |inode| && 0 <= l < NSLOTS ==>
        Slot(j, l) != b && im.Slot(j, l) == if j == i && l == k then b else Slot(j, l)
      ensures im.Owned()
    {
    }

    lemma MapSlotNoLeaks(i: nat, k: nat, b: nat, im: Image)
      requires Shape() && NoLeaks() && i < |inode| && k < NSLOTS && Slot(i, k) == 0 && 0 < b < |block|
      requires im.Shape() && |im.inode| == |inode| && im.used == used[b := true] && im.dataStart == dataStart
      requires forall j, l {:trigger im.Slot(j, l)} :: 0 <= j < |inode| && 0 <= l < NSLOTS ==>
        im.Slot(j, l) == if j == i && l == k then b else Slot(j, l)
      ensures im.NoLeaks()
    {
      forall c: nat | im.Data(c) && im.used[c] ensures im.Held(c) {
        if c == b {
          assert im.Slot(i, k) == b;
        } else {
          assert used[c] && Held(c);
          var j, l :| 0 <= j < |inode| && 0 <= l < NSLOTS && Slot(j, l) == c;
          assert im.Slot(j, l) == c;
        }
      }
    }

    /** Mapping an empty slot to a free block keeps ownership exact and disturbs no mapped byte. */
    lemma MapSlotOk(i: nat, k: nat, b: nat, im: Image)
      requires Blocks() && i < |inode| && k < NSLOTS && Slot(i, k) == 0
      requires Data(b) && !used[b] && (k > NDIRECT ==> 0 < inode[i].addrs[NDIRECT] < |block|)
      requires im == MapSlot(i, k, b)
      ensures im.Blocks() && im.Extends(this) && im.Slot(i, k) == b
    {
      MapSlotSlots(i, k, b, im);
      MapSlotOwned(i, k, b, im);
      MapSlotNoLeaks(i, k, b, im);
      forall j: nat, bn: nat | j < |inode| && bn < MAXFILE && Mapped(j, bn)
        ensures im.block[im.Slot(j, DataSlot(bn))] == block[Slot(j, DataSlot(bn))]
      {
        MapSlotBlock(i, k, b, im, j, bn);
      }
    }

    /** What writing blocks lo to hi of inode i may log, besides the inode: bitmap blocks, the indirect block,
        and the blocks themselves. */
    ghost function Touches(i: nat, lo: nat, hi: nat): set<Logged>
      requires Shape() && i < |inode|
    {
      Bitmap(|used|) +
      (set k: nat | k < NSLOTS && Slot(i, k) != 0 && (k == NDIRECT || lo <= BlockOf(k) < hi) :: DiskBlock(Slot(i, k)))
    }

    /** No slot in use changes. */
    ghost predicate Keeps(im: Image)
      requires Shape() && im.Shape()
    {
      && |inode| == |im.inode| && |used| == |im.used|
      && forall j, k {:trigger Slot(j, k)} :: 0 <= j < |inode| && 0 <= k < NSLOTS && im.Slot(j, k) != 0 ==>
           Slot(j, k) == im.Slot(j, k)
    }

    lemma TouchesGrow(im: Image, i: nat, lo: nat, hi: nat, lo': nat, hi': nat)
      requires Shape() && im.Shape() && Keeps(im) && i < |inode| && (lo >= hi || (lo' <= lo && hi <= hi'))
      ensures im.Touches(i, lo, hi) <= Touches(i, lo', hi')
    {
      forall k: nat | k < NSLOTS && im.Slot(i, k) != 0 && (k == NDIRECT || lo <= BlockOf(k) < hi)
        ensures DiskBlock(im.Slot(i, k)) in Touches(i, lo', hi')
      {
        assert Slot(i, k) == im.Slot(i, k);
      }
    }

    lemma InTouches(i: nat, k: nat, lo: nat, hi: nat)
      requires Shape() && Owned() && i < |inode| && k < NSLOTS && Slot(i, k) != 0
      requires k == NDIRECT || lo <= BlockOf(k) < hi
      ensures DiskBlock(Slot(i, k)) in Touches(i, lo, hi) && BitmapBlock(Slot(i, k) / BPB) in Touches(i, lo, hi)
    {
    }

    ghost function Span(i: nat, lo: nat, hi: nat): (r: set<Logged>)
      requires Shape() && i < |inode| && lo <= hi <= MAXFILE
      ensures |r| <= hi - lo && forall bn :: lo <= bn < hi ==> DiskBlock(Slot(i, DataSlot(bn))) in r
    {
      if lo == hi then {} else Span(i, lo, hi - 1) + {DiskBlock(Slot(i, DataSlot(hi - 1)))}
    }

    /** With one bitmap block, writing n blocks of an inode logs at most n + 2 blocks besides the inode. */
    lemma TouchesFew(i: nat, lo: nat, hi: nat)
      requires Shape() && i < |inode| && lo <= hi <= MAXFILE && |used| <= BPB
      ensures |Touches(i, lo, hi)| <= hi - lo + 2
    {
      var few := Span(i, lo, hi) + {BitmapBlock(0), DiskBlock(Slot(i, NDIRECT))};
      forall x | x in Touches(i, lo, hi) ensures x in few {
        if x.DiskBlock? {
          var k: nat :| k < NSLOTS && Slot(i, k) != 0 && (k == NDIRECT || lo <= BlockOf(k) < hi) &&
            x == DiskBlock(Slot(i, k));
          if k != NDIRECT { assert DataSlot(BlockOf(k)) == k; }
        }
      }
      SubsetSize(Touches(i, lo, hi), few);
    }

    /** Of a single block there are at most these. */
    lemma TouchesOne(i: nat, bn: nat)
      requires Shape() && i < |inode| && bn < MAXFILE && |used| <= BPB
      ensures Touches(i, bn, bn + 1) <=
        {BitmapBlock(0), DiskBlock(Slot(i, NDIRECT)), DiskBlock(Slot(i, DataSlot(bn)))}
    {
      forall x | x in Touches(i, bn, bn + 1) && x.DiskBlock?
        ensures x == DiskBlock(Slot(i, NDIRECT)) || x == DiskBlock(Slot(i, DataSlot(bn)))
      {
        var k: nat :| k < NSLOTS && Slot(i, k) != 0 && (k == NDIRECT || bn <= BlockOf(k) < bn + 1) &&
          x == DiskBlock(Slot(i, k));
        if k != NDIRECT { assert DataSlot(BlockOf(k)) == k; }
      }
    }

    lemma MapSlotBlock(i: nat, k: nat, b: nat, im: Image, j: nat, bn: nat)
      requires Shape() && Owned() && i < |inode| && k < NSLOTS && Slot(i, k) == 0 && b < |block|
      requires (k > NDIRECT ==> 0 < inode[i].addrs[NDIRECT] < |block|) && im == MapSlot(i, k, b)
      requires im.Shape() && j < |inode| == |im.inode| && bn < MAXFILE && Mapped(j, bn)
      requires im.Slot(j, DataSlot(bn)) == Slot(j, DataSlot(bn)) != b
      ensures im.block[im.Slot(j, DataSlot(bn))] == block[Slot(j, DataSlot(bn))]
    {
      assert Slot(i, NDIRECT) == inode[i].addrs[NDIRECT];
    }
  }

  lemma ExtendsTransitive(a: Image, b: Image, c: Image)
    requires a.Shape() && b.Shape() && c.Shape() && b.Extends(a) && c.Extends(b)
    ensures c.Extends(a)
  {
    forall j: nat, k: nat | j < |c.inode| && k < NSLOTS && a.Slot(j, k) != 0 ensures c.Slot(j, k) == a.Slot(j, k) {
      assert b.Slot(j, k) == a.Slot(j, k);
    }
    forall j: nat, bn: nat | j < |c.inode| && bn < MAXFILE && a.Mapped(j, bn)
      ensures c.block[c.Slot(j, DataSlot(bn))] == a.block[a.Slot(j, DataSlot(bn))]
    {
      assert b.Slot(j, DataSlot(bn)) == a.Slot(j, DataSlot(bn));
    }
  }

  // ---------- What has to be logged ----------

  /** Every block and every bit of the bitmap that differs between a and c has its block in `logged`, and no inode
      but i differs. */
  ghost predicate Recorded(a: Image, c: Image, i: nat, logged: set<Logged>) {
    && |c.block| == |a.block| && |c.used| == |a.used| && |c.inode| == |a.inode|
    && (forall b {:trigger c.block[b]} :: 0 <= b < |c.block| && c.block[b] != a.block[b] ==> DiskBlock(b) in logged)
    && (forall b {:trigger c.used[b]} :: 0 <= b < |c.used| && c.used[b] != a.used[b] ==> BitmapBlock(b / BPB) in logged)
    && (forall j {:trigger c.inode[j]} :: 0 <= j < |c.inode| && j != i ==> c.inode[j] == a.inode[j])
  }

  lemma NothingToRecord(a: Image, i: nat, logged: set<Logged>)
    ensures Recorded(a, a, i, logged)
  {
  }

  lemma RecordedStep(a: Image, b: Image, c: Image, i: nat, logged: set<Logged>, logged': set<Logged>)
    requires Recorded(a, b, i, logged) && Recorded(b, c, i, logged') && logged <= logged'
    ensures Recorded(a, c, i, logged')
  {
    forall x | 0 <= x < |c.block| && c.block[x] != a.block[x] ensures DiskBlock(x) in logged' {
      assert c.block[x] != b.block[x] || b.block[x] != a.block[x];
    }
    forall x | 0 <= x < |c.used| && c.used[x] != a.used[x] ensures BitmapBlock(x / BPB) in logged' {
      assert c.used[x] != b.used[x] || b.used[x] != a.used[x];
    }
    forall j | 0 <= j < |c.inode| && j != i ensures c.inode[j] == a.inode[j] {
      assert c.inode[j] == b.inode[j] && b.inode[j] == a.inode[j];
    }
  }

  lemma MapSlotRecorded(a: Image, i: nat, k: nat, b: nat, logged: set<Logged>)
    requires a.Shape() && i < |a.inode| && k < NSLOTS && b < |a.block|
    requires k > NDIRECT ==> 0 < a.inode[i].addrs[NDIRECT] < |a.block|
    requires DiskBlock(b) in logged && BitmapBlock(b / BPB) in logged
    requires k > NDIRECT ==> DiskBlock(a.inode[i].addrs[NDIRECT]) in logged
    ensures Recorded(a, a.MapSlot(i, k, b), i, logged)
  {
  }

  lemma BlockRecorded(a: Image, addr: nat, data: Block, i: nat, logged: set<Logged>)
    requires addr < |a.block| && DiskBlock(addr) in logged
    ensures Recorded(a, a.WithBlock(addr, data), i, logged)
  {
  }

  /** Where inode i alone changes, nothing else needs to be recorded. */
  lemma InodeRecorded(a: Image, i: nat, inode: Inode, logged: set<Logged>)
    requires i < |a.inode|
    ensures Recorded(a, a.(inode := a.inode[i := inode]), i, logged)
  {
  }

  lemma BitRecorded(a: Image, b: nat, i: nat, logged: set<Logged>)
    requires b < |a.used| && BitmapBlock(b / BPB) in logged
    ensures Recorded(a, a.(used := a.used[b := false]), i, logged)
  {
  }

  class FileSystem {
    var block: seq<Block>
    var used: seq<bool>
    var inode: seq<Inode>
    const dataStart: nat
    ghost var logged: set<Logged>    // the blocks given to log_write in this transaction

    function Im(): Image
      reads this
    {
      Image(block, used, inode, dataStart)
    }

    constructor (im: Image)
      requires im.Valid()
      ensures Im() == im
    {
      block, used, inode, dataStart, logged := im.block, im.used, im.inode, im.dataStart, {};
    }

    /** balloc: the first free block, zeroed; `ok` is false where the code panics. */
    method Balloc() returns (ok: bool, addr: nat)
      requires |used| == |block|
      modifies this`block, this`used, this`logged
      ensures logged == if ok then old(logged) + {BitmapBlock(addr / BPB), DiskBlock(addr)} else old(logged)
      ensures ok ==> addr < |old(block)| && !old(used)[addr] && forall b :: 0 <= b < addr ==> old(used)[b]
      ensures ok ==> block == old(block)[addr := ZeroBlock()] && used == old(used)[addr := true]
      ensures !ok ==> block == old(block) && used == old(used) && forall b :: 0 <= b < |used| ==> used[b]
    {
      var b := 0;
      while b < |block|
        invariant block == old(block) && used == old(used) && logged == old(logged)
        invariant b % BPB == 0 && forall c :: 0 <= c < b && c < |used| ==> used[c]
        decreases |block| - b
      {
        var bi := 0;
        while bi < BPB && b + bi < |block|
          invariant 0 <= bi <= BPB && block == old(block) && used == old(used) && logged == old(logged) && b % BPB == 0
          invariant forall c :: 0 <= c < b + bi && c < |used| ==> used[c]
        {
          if !used[b + bi] {
            used := used[b + bi := true];
            block := block[b + bi := ZeroBlock()];
            logged := logged + {BitmapBlock((b + bi) / BPB), DiskBlock(b + bi)};
            return true, b + bi;
          }
          bi := bi + 1;
        }
        b := b + BPB;
      }
      ok, addr := false, 0;
    }

    /** bmap: the address of block bn of inode i, allocating it and the indirect block where needed.
        `ok` is false where the code panics, for want of a free block. */
    method Bmap(i: nat, bn: nat) returns (ok: bool, addr: nat)
      requires Im().Blocks() && i < |inode| && bn < MAXFILE
      modifies this
      ensures Im().Blocks() && Im().Extends(old(Im()))
      ensures ok ==> Im().Slot(i, DataSlot(bn)) == addr != 0 && addr < |block|
      ensures old(Im().Mapped(i, bn)) ==> ok && Im() == old(Im()) && logged == old(logged)
      ensures ok ==> logged <= old(logged) + Im().Touches(i, bn, bn + 1)
      ensures !ok ==> forall b :: 0 <= b < |used| ==> used[b]
      ensures old(logged) <= logged && Recorded(old(Im()), Im(), i, logged)
    {
      hide Image.Touches, Image.NoLeaks, Image.Owned, Recorded;
      if bn < NDIRECT {
        ok, addr := AddrsEntry(i, bn);
        if ok { Im().InTouches(i, bn, bn, bn + 1); }
        return;
      }
      ok, addr := AddrsEntry(i, NDIRECT);
      if ok {
        ghost var mid, midlog := Im(), logged;
        ok, addr := BmapIndirect(i, addr, bn - NDIRECT);
        ExtendsTransitive(old(Im()), mid, Im());
        RecordedStep(old(Im()), mid, Im(), i, midlog, logged);
        if ok {
          Im().InTouches(i, NDIRECT, bn, bn + 1);
          Im().InTouches(i, DataSlot(bn), bn, bn + 1);
        }
      }
    }

    /** ip->addrs[k], allocated if it is zero. */
    method AddrsEntry(i: nat, k: nat) returns (ok: bool, addr: nat)
      requires Im().Blocks() && i < |inode| && k <= NDIRECT
      modifies this
      ensures Im().Blocks() && Im().Extends(old(Im()))
      ensures ok ==> Im().Slot(i, k) == addr != 0 && addr < |block|
      ensures old(Im().Slot(i, k)) != 0 ==> ok && Im() == old(Im()) && logged == old(logged)
      ensures ok ==> logged <= old(logged) + {BitmapBlock(addr / BPB), DiskBlock(addr)}
      ensures !ok ==> forall b :: 0 <= b < |used| ==> used[b]
      ensures old(logged) <= logged && Recorded(old(Im()), Im(), i, logged)
    {
      hide Recorded;
      addr := inode[i].addrs[k];
      ok := true;
      NothingToRecord(Im(), i, logged);
      if addr == 0 {
        ok, addr := MapNew(i, k);
      }
    }

    /** The last part of bmap, with the indirect block at ind. */
    method BmapIndirect(i: nat, ind: nat, e: nat) returns (ok: bool, addr: nat)
      requires Im().Blocks() && i < |inode| && e < NINDIRECT && Im().Slot(i, NDIRECT) == ind != 0
      modifies this
      ensures Im().Blocks() && Im().Extends(old(Im()))
      ensures ok ==> Im().Slot(i, NDIRECT + 1 + e) == addr != 0 && addr < |block|
      ensures Im().Slot(i, NDIRECT) == ind
      ensures old(Im().Slot(i, NDIRECT + 1 + e)) != 0 ==> ok && Im() == old(Im()) && logged == old(logged)
      ensures ok ==> logged <= old(logged) + {BitmapBlock(addr / BPB), DiskBlock(addr), DiskBlock(ind)}
      ensures !ok ==> forall b :: 0 <= b < |used| ==> used[b]
      ensures old(logged) <= logged && Recorded(old(Im()), Im(), i, logged)
    {
      hide Recorded;
      addr := Word(block[ind], e);
      ok := true;
      NothingToRecord(Im(), i, logged);
      if addr == 0 {
        ok, addr := MapNew(i, NDIRECT + 1 + e);
      }
    }

    /** A balloc, and its result stored in the empty slot k of inode i. */
    method MapNew(i: nat, k: nat) returns (ok: bool, addr: nat)
      requires Im().Blocks() && i < |inode| && k < NSLOTS && Im().Slot(i, k) == 0
      requires k > NDIRECT ==> inode[i].addrs[NDIRECT] != 0
      modifies this
      ensures Im().Blocks() && Im().Extends(old(Im()))
      ensures ok ==> Im().Slot(i, k) == addr != 0
      ensures !ok ==> forall b :: 0 <= b < |used| ==> used[b]
      ensures ok ==>
        var indirect := if k > NDIRECT then {DiskBlock(old(inode)[i].addrs[NDIRECT])} else {};
        logged == old(logged) + {BitmapBlock(addr / BPB), DiskBlock(addr)} + indirect
      ensures old(logged) <= logged && Recorded(old(Im()), Im(), i, logged)
    {
      hide Recorded;
      ghost var before := Im();
      assert before.Slot(i, NDIRECT) == inode[i].addrs[NDIRECT];
      ok, addr := Balloc();
      if ok {
        if k <= NDIRECT {
          inode := inode[i := inode[i].(addrs := inode[i].addrs[k := addr])];
        } else {
          var ind := inode[i].addrs[NDIRECT];
          block := block[ind := SetWord(block[ind], k - NDIRECT - 1, addr)];
          logged := logged + {DiskBlock(ind)};
        }
        assert Im() == before.MapSlot(i, k, addr);
        before.MapSlotOk(i, k, addr, Im());
        MapSlotRecorded(before, i, k, addr, logged);
      } else {
        NothingToRecord(before, i, logged);
      }
    }

    /** readi of up to n bytes of a regular file or directory, or -1. */
    method Readi(i: nat, off: nat, n: nat) returns (r: int, dst: seq<byte>)
      requires Im().Valid() && i < |inode| && off < UINT_LIMIT && n < UINT_LIMIT
      modifies this
      ensures Im() == old(Im()) && logged == old(logged)
      ensures r == -1 <==> off > inode[i].size || off + n >= UINT_LIMIT
      ensures r != -1 ==>
        r == (if off + n > inode[i].size then inode[i].size - off else n) && dst == Im().Bytes(i)[off..off + r]
    {
      dst := [];
      if off > inode[i].size || Wraps(off, n) {
        return -1, dst;
      }
      var count := if off + n > inode[i].size then inode[i].size - off else n;
      dst := CopyOut(i, off, count);
      r := count;
    }

    /** readi's loop. */
    method CopyOut(i: nat, off: nat, count: nat) returns (dst: seq<byte>)
      requires Im().Valid() && i < |inode| && off + count <= inode[i].size
      modifies this
      ensures Im() == old(Im()) && logged == old(logged) && dst == Im().Bytes(i)[off..off + count]
    {
      dst := [];
      var tot := 0;
      ghost var bytes := Im().Bytes(i);
      while tot < count
        invariant tot <= count && Im() == old(Im()) && logged == old(logged)
        invariant dst == bytes[off..off + tot]
      {
        var m, chunk := ReadChunk(i, off + tot, count - tot);
        SliceConcat(bytes, off, off + tot, off + tot + m);
        dst := dst + chunk;
        tot := tot + m;
      }
    }

    /** One round of readi's loop: as much as the block at position o holds. */
    method ReadChunk(i: nat, o: nat, left: nat) returns (m: nat, chunk: seq<byte>)
      requires Im().Valid() && i < |inode| && 0 < left && o + left <= inode[i].size
      modifies this
      ensures Im() == old(Im()) && logged == old(logged) && 0 < m <= left && chunk == Im().Bytes(i)[o..o + m]
    {
      Im().BelowSize(i, o);
      var ok, addr := Bmap(i, o / BSIZE);
      m := ChunkLength(o, left);
      ChunkRead(Im(), i, o, m);
      chunk := block[addr][o % BSIZE..o % BSIZE + m];
    }

    /** One round of writei's loop. */
    method WriteChunk(ghost old_: Image, i: nat, off: nat, src: seq<byte>, tot: nat) returns (ok: bool, m: nat)
      requires Im().Blocks() && i < |inode| && off + |src| <= MAXFILE * BSIZE && tot < |src|
      requires old_.Shape() && InProgress(old_, Im(), i, off, src, tot)
      modifies this
      ensures Im().Blocks() && (!ok ==> forall b :: 0 <= b < |used| ==> used[b])
      ensures !ok ==> off + tot >= old_.inode[i].size
      ensures ok ==> 0 < m <= |src| - tot && InProgress(old_, Im(), i, off, src, tot + m)
      ensures ok ==>
        Im().Keeps(old(Im())) && logged <= old(logged) + Im().Touches(i, (off + tot) / BSIZE, (off + tot) / BSIZE + 1)
      ensures old(logged) <= logged && Recorded(old(Im()), Im(), i, logged)
      ensures inode != old(inode) ==> off + tot >= old_.inode[i].size
    {
      hide Image.Touches, Image.Keeps, Image.NoLeaks, Image.Owned, Image.Slot, InProgress, Recorded;
      var o := off + tot;
      ghost var a := Im();
      PlaceMapped(old_, a, i, off, src, tot);
      m := 0;
      var addr;
      ok, addr := Bmap(i, o / BSIZE);
      if ok {
        ghost var b := Im();
        InProgressExtends(old_, a, b, i, off, src, tot);
        m := ChunkLength(o, |src| - tot);
        block := block[addr := Patched(block[addr], o % BSIZE, src[tot..tot + m])];
        b.WithBlockSlots(i, o / BSIZE, block[addr], Im());
        InProgressChunk(old_, b, Im(), i, off, src, tot, m);
        ChunkLogged(a, b, Im(), i, o / BSIZE, old(logged), logged);
        ghost var before := logged;
        logged := logged + {DiskBlock(addr)};
        BlockRecorded(b, addr, block[addr], i, logged);
        RecordedStep(a, b, Im(), i, before, logged);
      }
    }

    /** writei of all of src, or -1; `ok` is false where the code panics, for want of a free block. It never does
        when nothing is written past the end of the file. */
    method Writei(i: nat, off: nat, src: seq<byte>) returns (ok: bool, r: int)
      requires Im().Valid() && i < |inode| && off < UINT_LIMIT && |src| < UINT_LIMIT
      modifies this
      ensures ok && r == -1 <==> off > old(inode[i].size) || off + |src| > MAXFILE * BSIZE
      ensures ok && r == -1 ==> Im() == old(Im()) && logged == old(logged)
      ensures ok && r != -1 ==> r == |src| && Im().Valid() && Wrote(old(Im()), Im(), i, off, src)
      ensures ok && r != -1 ==>
        logged <= old(logged) + Im().Touches(i, off / BSIZE, EndBlock(off + |src|)) + {InodeBlock(i / IPB)}
      ensures old(logged) <= logged && Recorded(old(Im()), Im(), i, logged)
      ensures ok && inode != old(inode) ==> InodeBlock(i / IPB) in logged
      ensures !ok ==> Im().Blocks() && forall b :: 0 <= b < |used| ==> used[b]
      ensures !ok ==> off + |src| > old(inode[i].size)
    {
      hide Recorded, Wrote, InProgress, Image.Touches, Image.Owned, Image.NoLeaks, Image.NoHoles;
      NothingToRecord(Im(), i, logged);
      ok := true;
      if off > inode[i].size || Wraps(off, |src|) {
        return true, -1;
      }
      if off + |src| > MAXFILE * BSIZE {
        return true, -1;
      }
      ok := CopyIn(i, off, src);
      r := -1;
      if ok {
        ghost var c, before := Im(), logged;
        GrowTo(old(Im()), i, off, src);
        RecordedStep(old(Im()), c, Im(), i, before, logged);
        Im().TouchesGrow(c, i, off / BSIZE, EndBlock(off + |src|), off / BSIZE, EndBlock(off + |src|));
        r := |src|;
      }
    }

    /** writei's loop. */
    method CopyIn(i: nat, off: nat, src: seq<byte>) returns (ok: bool)
      requires Im().Valid() && i < |inode| && off + |src| <= MAXFILE * BSIZE
      modifies this
      ensures Im().Blocks() && |inode| == |old(inode)| && (!ok ==> forall b :: 0 <= b < |used| ==> used[b])
      ensures !ok ==> off + |src| > old(inode[i].size)
      ensures ok ==> InProgress(old(Im()), Im(), i, off, src, |src|)
      ensures ok ==> logged <= old(logged) + Im().Touches(i, off / BSIZE, EndBlock(off + |src|))
      ensures old(logged) <= logged && Recorded(old(Im()), Im(), i, logged)
      ensures ok && inode != old(inode) ==> off + |src| > old(inode[i].size)
    {
      hide Image.Touches, Image.NoLeaks, Image.NoHoles, Image.Owned, Image.Slot, Recorded;
      ok := true;
      var tot := 0;
      InProgressStart(Im(), i, off, src);
      NothingToRecord(Im(), i, logged);
      while tot < |src|
        invariant tot <= |src| && Im().Blocks() && ok
        invariant InProgress(old(Im()), Im(), i, off, src, tot)
        invariant logged <= old(logged) + Im().Touches(i, off / BSIZE, EndBlock(off + |src|))
        invariant old(logged) <= logged && Recorded(old(Im()), Im(), i, logged)
        invariant inode != old(inode) ==> off + tot > old(inode[i].size)
      {
        var m;
        ghost var a, before := Im(), logged;
        ok, m := WriteChunk(old(Im()), i, off, src, tot);
        RecordedStep(old(Im()), a, Im(), i, before, logged);
        if !ok { return; }
        Im().TouchesGrow(a, i, off / BSIZE, EndBlock(off + |src|), off / BSIZE, EndBlock(off + |src|));
        Im().TouchesGrow(Im(), i, (off + tot) / BSIZE, (off + tot) / BSIZE + 1, off / BSIZE, EndBlock(off + |src|));
        tot := tot + m;
      }
    }

    /** The end of writei. */
    method GrowTo(ghost old_: Image, i: nat, off: nat, src: seq<byte>)
      requires old_.Valid() && Im().Blocks() && InProgress(old_, Im(), i, off, src, |src|) && i < |inode|
      requires off <= old_.inode[i].size && off + |src| <= MAXFILE * BSIZE
      modifies this`inode, this`logged
      ensures Im().Valid() && Wrote(old_, Im(), i, off, src)
      ensures Im().Keeps(old(Im())) && logged <= old(logged) + {InodeBlock(i / IPB)}
      ensures old(logged) <= logged && Recorded(old(Im()), Im(), i, logged)
      ensures inode != old(inode) || off + |src| > old_.inode[i].size ==> InodeBlock(i / IPB) in logged
    {
      hide Image.NoLeaks, Image.NoHoles, Image.Owned, Image.Slot, Image.Touches, Wrote, Recorded;
      ghost var c := Im();
      if |src| > 0 && off + |src| > inode[i].size {
        inode := inode[i := inode[i].(size := off + |src|)];
        logged := logged + {InodeBlock(i / IPB)};
      }
      InodeRecorded(c, i, inode[i], logged);
      assert Im() == c.(inode := c.inode[i := inode[i]]);
      NewSizeSlots(c, Im(), i);
      WroteAll(old_, c, Im(), i, off, src);
    }

    /** filewrite on an inode, from file offset off: transactions of at most MAXCHUNK bytes each, stopping at
        the first that writei refuses. `off'` is the file offset afterwards: whole chunks are kept up to the first
        that the file cannot hold. */
    method Filewrite(i: nat, off: nat, src: seq<byte>) returns (ok: bool, r: int, off': nat)
      requires Im().Valid() && i < |inode| && off < UINT_LIMIT && |src| < UINT_LIMIT
      modifies this
      ensures ok ==>
        r == if src == [] || (off <= old(inode[i].size) && off + |src| <= MAXFILE * BSIZE) then |src| else -1
      ensures ok ==> off <= off' && FileProgress(old(Im()), Im(), i, off, src, off' - off)
      ensures ok && r != -1 ==> off' == off + |src|
      ensures ok && r == -1 ==> if off > old(inode[i].size) then off' == off else
        (off' - off) % 1536 == 0 && off' - off < |src| && off' + NextChunk(|src| - (off' - off)) > MAXFILE * BSIZE
      ensures !ok ==> Im().Blocks() && forall b :: 0 <= b < |used| ==> used[b]
    {
      hide Image.Owned, Image.NoLeaks, Image.NoHoles, Image.Slot, Wrote;
      var k := 0;
      if off <= inode[i].size { WroteNothing(Im(), i, off, src); }
      while k < |src|
        invariant FileProgress(old(Im()), Im(), i, off, src, k)
        invariant k == |src| || k % MAXCHUNK == 0
      {
        ok, r := FilewriteRound(old(Im()), i, off, src, k);
        if !ok || r < 0 {
          return ok, -1, off + k;
        }
        k := k + r;
      }
      ok, r, off' := true, |src|, off + k;
    }

    /** One transaction of filewrite. */
    method FilewriteRound(ghost im: Image, i: nat, off: nat, src: seq<byte>, k: nat) returns (ok: bool, r: int)
      requires im.Valid() && FileProgress(im, Im(), i, off, src, k) && k < |src|
      requires off < UINT_LIMIT && |src| < UINT_LIMIT
      modifies this
      ensures ok && r >= 0 ==> r == NextChunk(|src| - k) && FileProgress(im, Im(), i, off, src, k + r)
      ensures ok && |used| <= BPB ==> |logged| <= MAXOPBLOCKS
      ensures Recorded(old(Im()), Im(), i, logged) && (ok && inode != old(inode) ==> InodeBlock(i / IPB) in logged)
      ensures ok && r < 0 ==>
        Im() == old(Im()) && (off > im.inode[i].size || off + k + NextChunk(|src| - k) > MAXFILE * BSIZE)
      ensures !ok ==> Im().Blocks() && forall b :: 0 <= b < |used| ==> used[b]
    {
      hide Image.Owned, Image.NoLeaks, Image.NoHoles, Image.Slot, Image.Touches, Image.Bytes, Wrote, Recorded;
      var n1 := if |src| - k > MAXCHUNK then MAXCHUNK else |src| - k;
      var chunk := src[k..k + n1];
      logged := {};  // begin_op
      assert Im() == old(Im());
      FileProgressSize(im, Im(), i, off, src, k);
      ok, r := Writei(i, off + k, chunk);
      if ok && r >= 0 {
        FileProgressStep(im, old(Im()), Im(), i, off, src, k, n1);
        if |used| <= BPB { ChunkFits(Im(), i, off + k, n1, logged); }
      }
    }

    /** iupdate and the log_write of ialloc: the block of inode i is logged. */
    method Iupdate(i: nat)
      modifies this`logged
      ensures logged == old(logged) + {InodeBlock(i / IPB)}
    {
      logged := logged + {InodeBlock(i / IPB)};
    }

    /** bfree; `ok` is false where the code panics. */
    method Bfree(b: nat) returns (ok: bool)
      requires b < |used|
      modifies this`used, this`logged
      ensures logged == if ok then old(logged) + {BitmapBlock(b / BPB)} else old(logged)
      ensures ok == old(used)[b]
      ensures used == if ok then old(used)[b := false] else old(used)
    {
      ok := used[b];
      if ok {
        used := used[b := false];
        logged := logged + {BitmapBlock(b / BPB)};
      }
    }

    /** itrunc: frees exactly the blocks that inode i holds, and never meets bfree's panic. It logs bitmap blocks
        and the inode's block: with one bitmap block, at most two. */
    method Itrunc(i: nat)
      requires Im().Valid() && i < |inode|
      modifies this`used, this`inode, this`logged
      ensures Im().Valid() && |inode| == |old(inode)| && Truncated(old(Im()), Im(), i)
      ensures logged <= old(logged) + Bitmap(|used|) + {InodeBlock(i / IPB)}
      ensures |used| <= BPB ==> logged <= old(logged) + {BitmapBlock(0), InodeBlock(i / IPB)}
      ensures old(logged) <= logged && Recorded(old(Im()), Im(), i, logged)
      ensures InodeBlock(i / IPB) in logged
    {
      hide Recorded, FreedBelow, FreedAll, Truncated, Bitmap, Image.Slot, Image.Owned, Image.NoLeaks, Image.NoHoles;
      ghost var im := Im();
      DirectSlot(im, i, NDIRECT);
      if |used| <= BPB { OneBitmapBlock(|used|); }
      FreeDirect(im, i);
      ghost var mid, midlog := Im(), logged;
      FreedBelowStep(im, used, i, NDIRECT);
      NothingToRecord(mid, i, logged);
      if inode[i].addrs[NDIRECT] != 0 {
        FreeIndirect(im, i);
      } else {
        FreedNoIndirect(im, used, i);
      }
      RecordedStep(im, mid, Im(), i, midlog, logged);
      ghost var last, lastlog := Im(), logged;
      assert inode[i].addrs == seq(NDIRECT + 1, _ => 0);
      inode := inode[i := Inode(0, inode[i].addrs)];
      logged := logged + {InodeBlock(i / IPB)};
      InodeRecorded(last, i, inode[i], logged);
      RecordedStep(im, last, Im(), i, lastlog, logged);
      TruncatedOk(im, Im(), i);
    }

    /** The direct part of itrunc. */
    method FreeDirect(ghost im: Image, i: nat)
      requires Im() == im && im.Valid() && i < |inode|
      modifies this`used, this`inode, this`logged
      ensures FreedBelow(im, used, i, NDIRECT) && |used| == |im.used| && logged <= old(logged) + Bitmap(|used|)
      ensures inode == im.inode[i := Inode(im.inode[i].size, Cleared(im.inode[i].addrs, NDIRECT))]
      ensures old(logged) <= logged && Recorded(old(Im()), Im(), i, logged)
    {
      hide Recorded, FreedBelow, Bitmap, Cleared, Image.Owned, Image.NoLeaks, Image.NoHoles, Image.Slot;
      var k := 0;
      FreedNone(im, i);
      NothingToRecord(im, i, logged);
      ClearedStep(im.inode[i].addrs, 0);
      while k < NDIRECT
        invariant k <= NDIRECT && |used| == |im.used| && FreedBelow(im, used, i, k)
        invariant old(logged) <= logged <= old(logged) + Bitmap(|used|) && Recorded(im, Im(), i, logged)
        invariant inode == im.inode[i := Inode(im.inode[i].size, Cleared(im.inode[i].addrs, k))]
      {
        DirectSlot(im, i, k);
        ClearedStep(im.inode[i].addrs, k);
        FreedBelowStep(im, used, i, k);
        if inode[i].addrs[k] != 0 {
          InBitmap(inode[i].addrs[k], |used|);
          var ok := FreeBlock(im, i, inode[i].addrs[k]);
          assert ok;
          ghost var mid := Im();
          inode := inode[i := inode[i].(addrs := inode[i].addrs[k := 0])];
          InodeRecorded(mid, i, inode[i], logged);
          RecordedStep(im, mid, Im(), i, logged, logged);
        }
        k := k + 1;
      }
    }

    /** A bfree of itrunc, by which what has changed since im stays recorded. */
    method FreeBlock(ghost im: Image, ghost i: nat, b: nat) returns (ok: bool)
      requires b < |used| && Recorded(im, Im(), i, logged)
      modifies this`used, this`logged
      ensures logged == if ok then old(logged) + {BitmapBlock(b / BPB)} else old(logged)
      ensures ok == old(used)[b] && used == if ok then old(used)[b := false] else old(used)
      ensures Recorded(im, Im(), i, logged)
    {
      hide Recorded;
      ghost var before := Im();
      ok := Bfree(b);
      if ok {
        BitRecorded(before, b, i, logged);
        RecordedStep(im, before, Im(), i, old(logged), logged);
      }
    }

    /** The indirect part of itrunc. */
    method FreeIndirect(ghost im: Image, i: nat)
      requires im.Valid() && i < |inode| == |im.inode| && block == im.block && |inode[i].addrs| == NDIRECT + 1
      requires FreedBelow(im, used, i, NDIRECT + 1) && inode[i].addrs[NDIRECT] == im.Slot(i, NDIRECT) != 0
      modifies this`used, this`inode, this`logged
      ensures FreedAll(im, used, i) && |used| == |old(used)| && logged <= old(logged) + Bitmap(|used|)
      ensures inode == old(inode)[i := old(inode)[i].(addrs := old(inode)[i].addrs[NDIRECT := 0])]
      ensures old(logged) <= logged && Recorded(old(Im()), Im(), i, logged)
    {
      hide Recorded;
      NothingToRecord(Im(), i, logged);
      var a := block[inode[i].addrs[NDIRECT]];
      var j := 0;
      while j < NINDIRECT
        invariant |used| == |old(used)| && old(logged) <= logged <= old(logged) + Bitmap(|used|)
        invariant Recorded(old(Im()), Im(), i, logged)
        invariant j <= NINDIRECT && inode == old(inode) && FreedBelow(im, used, i, NDIRECT + 1 + j)
      {
        assert im.Slot(i, NDIRECT + 1 + j) == Word(a, j) by {
          assert im.Slot(i, NDIRECT) == im.inode[i].addrs[NDIRECT];
        }
        FreedBelowStep(im, used, i, NDIRECT + 1 + j);
        if Word(a, j) != 0 {
          var ok := FreeBlock(old(Im()), i, Word(a, j));
          assert ok;
        }
        j := j + 1;
      }
      FreedLast(im, used, i);
      var ok := FreeBlock(old(Im()), i, inode[i].addrs[NDIRECT]);
      assert ok;
      ghost var mid := Im();
      inode := inode[i := inode[i].(addrs := inode[i].addrs[NDIRECT := 0])];
      InodeRecorded(mid, i, inode[i], logged);
      RecordedStep(old(Im()), mid, Im(), i, logged, logged);
    }
  }

  // ---------- Truncation ----------

  /** Block b is held by one of inode i's first n slots, other than the one for the indirect block. */
  ghost predicate HeldBelow(im: Image, i: nat, n: nat, b: nat)
    requires im.Shape() && i < |im.inode| && n <= NSLOTS
  {
    b != 0 && exists k {:trigger im.Slot(i, k)} :: 0 <= k < n && k != NDIRECT && im.Slot(i, k) == b
  }

  ghost predicate HeldBy(im: Image, i: nat, b: nat)
    requires im.Shape() && i < |im.inode|
  {
    b != 0 && exists k {:trigger im.Slot(i, k)} :: 0 <= k < NSLOTS && im.Slot(i, k) == b
  }

  ghost predicate FreedBelow(im: Image, used: seq<bool>, i: nat, n: nat)
    requires im.Shape() && i < |im.inode| && n <= NSLOTS
  {
    |used| == |im.used| && forall b :: 0 <= b < |used| ==> (used[b] <==> im.used[b] && !HeldBelow(im, i, n, b))
  }

  ghost predicate FreedAll(im: Image, used: seq<bool>, i: nat)
    requires im.Shape() && i < |im.inode|
  {
    |used| == |im.used| && forall b :: 0 <= b < |used| ==> (used[b] <==> im.used[b] && !HeldBy(im, i, b))
  }

  /** Addresses with the first k cleared. */
  function Cleared(addrs: seq<nat>, k: nat): (r: seq<nat>)
    ensures |r| == |addrs|
  {
    seq(|addrs|, l requires 0 <= l < |addrs| => if l < k then 0 else addrs[l])
  }

  lemma ClearedStep(addrs: seq<nat>, k: nat)
    requires k < |addrs|
    ensures Cleared(addrs, 0) == addrs && Cleared(addrs, k)[k] == addrs[k]
    ensures Cleared(addrs, k)[k := 0] == Cleared(addrs, k + 1)
    ensures addrs[k] == 0 ==> Cleared(addrs, k) == Cleared(addrs, k + 1)
  {
  }

  lemma DirectSlot(im: Image, i: nat, k: nat)
    requires im.Shape() && i < |im.inode| && k <= NDIRECT
    ensures im.Slot(i, k) == im.inode[i].addrs[k]
  {
  }

  lemma FreedNone(im: Image, i: nat)
    requires im.Shape() && i < |im.inode|
    ensures FreedBelow(im, im.used, i, 0)
  {
  }

  /** The next slot's block is still marked used, and freeing it advances the invariant by one slot. */
  lemma FreedBelowStep(im: Image, used: seq<bool>, i: nat, n: nat)
    requires im.Valid() && i < |im.inode| && n < NSLOTS && FreedBelow(im, used, i, n)
    ensures n == NDIRECT || im.Slot(i, n) == 0 ==> FreedBelow(im, used, i, n + 1)
    ensures n != NDIRECT && im.Slot(i, n) != 0 ==>
      && im.Slot(i, n) < |used| && used[im.Slot(i, n)]
      && FreedBelow(im, used[im.Slot(i, n) := false], i, n + 1)
  {
    var a := im.Slot(i, n);
    forall b: nat | 0 < b < |used|
      ensures HeldBelow(im, i, n + 1, b) <==> HeldBelow(im, i, n, b) || (n != NDIRECT && a == b)
    {
    }
    forall k: nat | k < n && a != 0 ensures im.Slot(i, k) != a {}
  }

  lemma FreedLast(im: Image, used: seq<bool>, i: nat)
    requires im.Valid() && i < |im.inode| && FreedBelow(im, used, i, NSLOTS) && im.Slot(i, NDIRECT) != 0
    ensures im.Slot(i, NDIRECT) < |used| && used[im.Slot(i, NDIRECT)]
    ensures FreedAll(im, used[im.Slot(i, NDIRECT) := false], i)
  {
    var a := im.Slot(i, NDIRECT);
    forall b: nat | 0 < b < |used| ensures HeldBy(im, i, b) <==> HeldBelow(im, i, NSLOTS, b) || a == b {
    }
    forall k: nat | k < NSLOTS && k != NDIRECT ensures im.Slot(i, k) != a {}
  }

  /** Without an indirect block the slots past the direct ones are empty. */
  lemma FreedNoIndirect(im: Image, used: seq<bool>, i: nat)
    requires im.Valid() && i < |im.inode| && FreedBelow(im, used, i, NDIRECT + 1) && im.Slot(i, NDIRECT) == 0
    ensures FreedAll(im, used, i)
  {
    forall b: nat | 0 < b < |used| ensures HeldBy(im, i, b) <==> HeldBelow(im, i, NDIRECT + 1, b) {
      if HeldBy(im, i, b) {
        var k :| 0 <= k < NSLOTS && im.Slot(i, k) == b;
        assert im.Slot(i, NDIRECT) == im.inode[i].addrs[NDIRECT];
      }
    }
  }

  /** Inode i is empty and holds nothing; exactly its blocks became free; every other file is as it was. */
  ghost predicate Truncated(old_: Image, im: Image, i: nat)
    requires old_.Shape() && im.Shape()
  {
    && |im.inode| == |old_.inode| && im.block == old_.block && im.dataStart == old_.dataStart
    && i < |im.inode| && FreedAll(old_, im.used, i)
    && (forall k {:trigger im.Slot(i, k)} :: 0 <= k < NSLOTS ==> im.Slot(i, k) == 0)
    && (forall j :: 0 <= j < |im.inode| && j != i ==> im.inode[j] == old_.inode[j] && im.Bytes(j) == old_.Bytes(j))
  }

  lemma TruncatedOk(old_: Image, im: Image, i: nat)
    requires old_.Valid() && i < |old_.inode| && FreedAll(old_, im.used, i)
    requires im == old_.(used := im.used, inode := old_.inode[i := Inode(0, seq(NDIRECT + 1, _ => 0))])
    ensures im.Valid() && Truncated(old_, im, i)
  {
    TruncatedSlots(old_, im, i);
    forall b: nat | b < old_.dataStart && b < |im.used| ensures im.used[b] {
      assert old_.used[b] && !old_.Data(b);
    }
    forall j: nat, k: nat | j < |im.inode| && k < NSLOTS && im.Slot(j, k) != 0
      ensures im.Data(im.Slot(j, k)) && im.used[im.Slot(j, k)]
    {
      TruncatedKeeps(old_, im, i, j, k);
    }
    forall b: nat | im.Data(b) && im.used[b] ensures im.Held(b) {
      assert old_.used[b] && old_.Held(b);
      var j, k :| 0 <= j < |old_.inode| && 0 <= k < NSLOTS && old_.Slot(j, k) == b;
      assert im.Slot(j, k) == b;
    }
    forall j: nat | j < |im.inode| && j != i ensures im.Bytes(j) == old_.Bytes(j) {
      forall o: nat | o < im.inode[j].size ensures im.ByteAt(j, o) == old_.ByteAt(j, o) {
        if o < MAXFILE * BSIZE { assert im.Slot(j, DataSlot(o / BSIZE)) == old_.Slot(j, DataSlot(o / BSIZE)); }
      }
    }
  }

  lemma TruncatedSlots(old_: Image, im: Image, i: nat)
    requires old_.Valid() && i < |old_.inode| && |im.used| == |old_.used|
    requires im == old_.(used := im.used, inode := old_.inode[i := Inode(0, seq(NDIRECT + 1, _ => 0))])
    ensures im.Shape()
    ensures forall j, k {:trigger im.Slot(j, k)} {:trigger old_.Slot(j, k)} ::
      0 <= j < |im.inode| && 0 <= k < NSLOTS ==> im.Slot(j, k) == if j == i then 0 else old_.Slot(j, k)
  {
  }

  /** A slot of another inode still holds a used block. */
  lemma TruncatedKeeps(old_: Image, im: Image, i: nat, j: nat, k: nat)
    requires old_.Valid() && i < |old_.inode| && FreedAll(old_, im.used, i) && j < |old_.inode| && j != i && k < NSLOTS
    requires old_.Slot(j, k) != 0
    ensures im.used[old_.Slot(j, k)]
  {
    var b := old_.Slot(j, k);
    forall l: nat | l < NSLOTS ensures old_.Slot(i, l) != b {}
  }

  /** The test `off + n < off` in 32-bit arithmetic. */
  predicate Wraps(off: nat, n: nat)
    requires off < UINT_LIMIT && n < UINT_LIMIT
    ensures Wraps(off, n) <==> off + n >= UINT_LIMIT
  {
    (off + n) % UINT_LIMIT < off
  }

  lemma SliceConcat(s: seq<byte>, a: nat, b: nat, c: nat)
    requires a <= b <= c <= |s|
    ensures s[a..b] + s[b..c] == s[a..c]
  {
  }

  /** How far a transfer of `left` bytes at position o gets within one block. */
  function ChunkLength(o: nat, left: nat): (m: nat)
    ensures m <= left && o % BSIZE + m <= BSIZE && (left > 0 ==> m > 0)
  {
    if left < BSIZE - o % BSIZE then left else BSIZE - o % BSIZE
  }

  lemma BytesAt(im: Image, i: nat, o: nat)
    requires im.Valid() && i < |im.inode| && o < im.inode[i].size
    ensures o < MAXFILE * BSIZE && im.Mapped(i, o / BSIZE) && im.Bytes(i)[o] == im.Raw(i, o)
  {
    im.BelowSize(i, o);
  }

  /** The bytes of one block that readi copies. */
  lemma ChunkRead(im: Image, i: nat, o: nat, m: nat)
    requires im.Valid() && i < |im.inode| && o + m <= im.inode[i].size && o % BSIZE + m <= BSIZE && 0 < m
    ensures o < MAXFILE * BSIZE && im.Mapped(i, o / BSIZE)
    ensures im.block[im.Slot(i, DataSlot(o / BSIZE))][o % BSIZE..o % BSIZE + m] == im.Bytes(i)[o..o + m]
  {
    hide Image.Owned, Image.NoLeaks, Image.NoHoles, Image.Slot;
    BytesAt(im, i, o);
    var data := im.block[im.Slot(i, DataSlot(o / BSIZE))];
    var chunk, bytes := data[o % BSIZE..o % BSIZE + m], im.Bytes(i);
    forall k | 0 <= k < m ensures chunk[k] == bytes[o + k] {
      SameBlock(o, k);
      BytesAt(im, i, o + k);
    }
  }

  lemma SameBlock(o: nat, k: nat)
    requires o % BSIZE + k < BSIZE
    ensures (o + k) / BSIZE == o / BSIZE && (o + k) % BSIZE == o % BSIZE + k
  {
  }

  /** The byte string after src is written over it at off. */
  function Overwritten(b: seq<byte>, off: nat, src: seq<byte>): seq<byte>
    requires off <= |b|
  {
    b[..off] + src + if off + |src| < |b| then b[off + |src|..] else []
  }

  /** The file now holds src at off, and no other file has changed. */
  ghost predicate Wrote(old_: Image, im: Image, i: nat, off: nat, src: seq<byte>)
    requires old_.Shape() && im.Shape() && i < |old_.inode|
  {
    && |im.inode| == |old_.inode| && off <= old_.inode[i].size
    && im.Bytes(i) == Overwritten(old_.Bytes(i), off, src)
    && forall j :: 0 <= j < |im.inode| && j != i ==> im.Bytes(j) == old_.Bytes(j)
  }

  /** The length of filewrite's next chunk, with `left` bytes to go. */
  function NextChunk(left: nat): (n: nat)
    ensures n <= left && n <= 1536 && (n < left ==> n == 1536)
  {
    if left > MAXCHUNK then MAXCHUNK else left
  }

  /** filewrite after k bytes; past the end of the file nothing gets written. */
  ghost predicate FileProgress(old_: Image, im: Image, i: nat, off: nat, src: seq<byte>, k: nat) {
    && old_.Shape() && im.Valid() && i < |im.inode| == |old_.inode| && k <= |src|
    && (k > 0 ==> off <= old_.inode[i].size && off + k <= MAXFILE * BSIZE)
    && if off <= old_.inode[i].size then Wrote(old_, im, i, off, src[..k]) else im == old_
  }

  lemma FileProgressSize(a: Image, b: Image, i: nat, off: nat, src: seq<byte>, k: nat)
    requires FileProgress(a, b, i, off, src, k)
    ensures off <= a.inode[i].size ==> b.inode[i].size >= off + k
    ensures off > a.inode[i].size ==> b == a && k == 0
  {
    if off <= a.inode[i].size { assert |b.Bytes(i)| == b.inode[i].size; }
  }

  lemma FileProgressStep(a: Image, b: Image, c: Image, i: nat, off: nat, src: seq<byte>, k: nat, n: nat)
    requires FileProgress(a, b, i, off, src, k) && c.Valid() && k + n <= |src|
    requires off + k <= b.inode[i].size && off + k + n <= MAXFILE * BSIZE && Wrote(b, c, i, off + k, src[k..k + n])
    requires off <= a.inode[i].size
    ensures FileProgress(a, c, i, off, src, k + n)
  {
    WroteTwice(a, b, c, i, off, src, k, n);
  }

  lemma WroteNothing(im: Image, i: nat, off: nat, src: seq<byte>)
    requires im.Shape() && i < |im.inode| && off <= im.inode[i].size
    ensures Wrote(im, im, i, off, src[..0])
  {
    assert im.Bytes(i) == Overwritten(im.Bytes(i), off, src[..0]);
  }

  /** Two writes, the second where the first ended, are one write. */
  lemma WroteTwice(a: Image, b: Image, c: Image, i: nat, off: nat, src: seq<byte>, k: nat, n: nat)
    requires a.Shape() && b.Shape() && c.Shape() && i < |a.inode| && k + n <= |src|
    requires Wrote(a, b, i, off, src[..k]) && Wrote(b, c, i, off + k, src[k..k + n])
    ensures Wrote(a, c, i, off, src[..k + n])
  {
    OverwrittenTwice(a.Bytes(i), off, src[..k], src[k..k + n]);
    assert src[..k] + src[k..k + n] == src[..k + n];
  }

  lemma OverwrittenTwice(b: seq<byte>, off: nat, s: seq<byte>, t: seq<byte>)
    requires off <= |b|
    ensures Overwritten(Overwritten(b, off, s), off + |s|, t) == Overwritten(b, off, s + t)
  {
  }

  /** What a round of writei's loop logs. */
  lemma ChunkLogged(a: Image, b: Image, c: Image, i: nat, bn: nat, logged: set<Logged>, logged': set<Logged>)
    requires a.Shape() && b.Shape() && c.Shape() && b.Extends(a) && b.SameSlots(c) && c.Owned() && i < |c.inode|
    requires bn < MAXFILE
    requires |c.used| == |b.used| == |a.used| && logged' <= logged + b.Touches(i, bn, bn + 1)
    requires c.Slot(i, DataSlot(bn)) != 0
    ensures c.Keeps(a) && logged' + {DiskBlock(c.Slot(i, DataSlot(bn)))} <= logged + c.Touches(i, bn, bn + 1)
  {
    c.InTouches(i, DataSlot(bn), bn, bn + 1);
    c.TouchesGrow(b, i, bn, bn + 1, bn, bn + 1);
    forall j, k | 0 <= j < |c.inode| && 0 <= k < NSLOTS && a.Slot(j, k) != 0 ensures c.Slot(j, k) == a.Slot(j, k) {
      assert b.Slot(j, k) == a.Slot(j, k);
    }
  }

  /** A chunk of filewrite is within four blocks. */
  lemma ChunkBlocks(off: nat, n: nat)
    requires 0 < n <= MAXCHUNK
    ensures off / BSIZE <= EndBlock(off + n) <= off / BSIZE + 4
  {
  }

  /** When one bitmap block covers the disk, the transaction of a chunk logs at most four data blocks, the
      indirect block, the inode's block and the bitmap block, which is within what begin_op reserves. */
  lemma ChunkFits(im: Image, i: nat, off: nat, n: nat, logged: set<Logged>)
    requires im.Shape() && i < |im.inode| && 0 < n <= MAXCHUNK && off + n <= MAXFILE * BSIZE && |im.used| <= BPB
    requires logged <= im.Touches(i, off / BSIZE, EndBlock(off + n)) + {InodeBlock(i / IPB)}
    ensures |logged| <= 7 <= MAXOPBLOCKS
  {
    ChunkBlocks(off, n);
    im.TouchesFew(i, off / BSIZE, EndBlock(off + n));
    SubsetSize(logged, im.Touches(i, off / BSIZE, EndBlock(off + n)) + {InodeBlock(i / IPB)});
  }

  /** Position o of inode j part way through writei, with tot bytes of src in place. */
  ghost predicate PlaceOk(old_: Image, im: Image, i: nat, off: nat, src: seq<byte>, tot: nat, j: nat, o: nat)
    requires old_.Shape() && im.Shape() && j < |im.inode| == |old_.inode| && tot <= |src|
  {
    if j == i && off <= o < off + tot then
      o < MAXFILE * BSIZE && im.Mapped(i, o / BSIZE) && im.Raw(i, o) == src[o - off]
    else
      o < old_.inode[j].size ==> o < MAXFILE * BSIZE && im.Mapped(j, o / BSIZE) && im.Raw(j, o) == old_.ByteAt(j, o)
  }

  /** Part way through writei: tot bytes of src are in place, nothing else has changed, sizes are as before. */
  ghost predicate InProgress(old_: Image, im: Image, i: nat, off: nat, src: seq<byte>, tot: nat)
    requires old_.Shape()
  {
    && im.Shape() && |im.inode| == |old_.inode| && tot <= |src|
    && (forall j :: 0 <= j < |im.inode| ==> im.inode[j].size == old_.inode[j].size)
    && (forall j, o {:trigger PlaceOk(old_, im, i, off, src, tot, j, o)} ::
          0 <= j < |im.inode| && 0 <= o ==> PlaceOk(old_, im, i, off, src, tot, j, o))
  }

  lemma PlaceMapped(old_: Image, im: Image, i: nat, off: nat, src: seq<byte>, tot: nat)
    requires old_.Shape() && InProgress(old_, im, i, off, src, tot) && i < |im.inode|
    requires off + tot < MAXFILE * BSIZE
    ensures i < |old_.inode| && (off + tot < old_.inode[i].size ==> im.Mapped(i, (off + tot) / BSIZE))
  {
    assert PlaceOk(old_, im, i, off, src, tot, i, off + tot);
  }

  lemma InProgressStart(old_: Image, i: nat, off: nat, src: seq<byte>)
    requires old_.Valid()
    ensures InProgress(old_, old_, i, off, src, 0)
  {
    forall j: nat, o: nat | j < |old_.inode| ensures PlaceOk(old_, old_, i, off, src, 0, j, o) {
      if o < old_.inode[j].size { old_.BelowSize(j, o); }
    }
  }

  /** bmap may map more blocks. */
  lemma InProgressExtends(old_: Image, a: Image, b: Image, i: nat, off: nat, src: seq<byte>, tot: nat)
    requires old_.Shape() && InProgress(old_, a, i, off, src, tot) && b.Shape() && b.Extends(a)
    ensures InProgress(old_, b, i, off, src, tot)
  {
    forall j: nat, o: nat | j < |b.inode| ensures PlaceOk(old_, b, i, off, src, tot, j, o) {
      assert PlaceOk(old_, a, i, off, src, tot, j, o);
      if o < MAXFILE * BSIZE { assert b.Slot(j, DataSlot(o / BSIZE)) >= 0; }
    }
  }

  /** A block with m bytes replaced from position s on. */
  function Patched(b: Block, s: nat, new_: seq<byte>): Block
    requires s + |new_| <= BSIZE
  {
    b[..s] + new_ + b[s + |new_|..]
  }

  /** Image c is b with m bytes of src put into the block that holds position off + tot of inode i. */
  ghost predicate IsChunk(b: Image, c: Image, i: nat, off: nat, src: seq<byte>, tot: nat, m: nat) {
    && b.Shape() && c.Shape() && b.SameSlots(c) && i < |b.inode|
    && 0 < m && tot + m <= |src| && off + tot + m <= MAXFILE * BSIZE && (off + tot) % BSIZE + m <= BSIZE
    && b.Mapped(i, (off + tot) / BSIZE)
    && var addr := b.Slot(i, DataSlot((off + tot) / BSIZE));
       c == b.WithBlock(addr, Patched(b.block[addr], (off + tot) % BSIZE, src[tot..tot + m]))
  }

  lemma PlaceAfterChunk(old_: Image, b: Image, c: Image, i: nat, off: nat, src: seq<byte>, tot: nat, m: nat, j: nat,
                        o: nat)
    requires IsChunk(b, c, i, off, src, tot, m) && b.Owned()
    requires old_.Shape() && j < |b.inode| == |old_.inode| && PlaceOk(old_, b, i, off, src, tot, j, o)
    ensures PlaceOk(old_, c, i, off, src, tot + m, j, o)
  {
    var at := off + tot;
    if o < MAXFILE * BSIZE && b.Mapped(j, o / BSIZE) {
      ChunkByte(b, c, i, at, m, src[tot..tot + m], j, o);
    }
    if j == i && at <= o < at + m { SameBlock(at, o - at); }
  }

  /** The next chunk keeps writei's invariant. */
  lemma InProgressChunk(old_: Image, b: Image, c: Image, i: nat, off: nat, src: seq<byte>, tot: nat, m: nat)
    requires old_.Shape() && b.Blocks() && InProgress(old_, b, i, off, src, tot) && IsChunk(b, c, i, off, src, tot, m)
    ensures c.Blocks() && InProgress(old_, c, i, off, src, tot + m)
  {
    BlocksSameSlots(b, c);
    var tot' := tot + m;
    forall j: nat, o: nat | j < |c.inode| ensures PlaceOk(old_, c, i, off, src, tot', j, o) {
      PlaceAfterChunk(old_, b, c, i, off, src, tot, m, j, o);
    }
  }

  /** What one byte looks like after a chunk is written. */
  lemma ChunkByte(b: Image, c: Image, i: nat, at: nat, m: nat, data: seq<byte>, j: nat, o: nat)
    requires b.Shape() && b.Owned() && c.Shape() && b.SameSlots(c) && i < |b.inode| && j < |b.inode|
    requires at < MAXFILE * BSIZE && o < MAXFILE * BSIZE && |data| == m && at % BSIZE + m <= BSIZE
    requires b.Mapped(i, at / BSIZE) && b.Mapped(j, o / BSIZE)
    requires
      var addr := b.Slot(i, DataSlot(at / BSIZE));
      c == b.WithBlock(addr, Patched(b.block[addr], at % BSIZE, data))
    ensures c.Mapped(j, o / BSIZE)
    ensures c.Raw(j, o) == if j == i && at <= o < at + m then data[o - at] else b.Raw(j, o)
  {
    var addr := b.Slot(i, DataSlot(at / BSIZE));
    assert c.Slot(j, DataSlot(o / BSIZE)) == b.Slot(j, DataSlot(o / BSIZE));
    if j == i && at <= o < at + m { SameBlock(at, o - at); }
    if j == i && o / BSIZE == at / BSIZE {
      assert o - at == o % BSIZE - at % BSIZE;
    } else {
      assert b.Slot(j, DataSlot(o / BSIZE)) != addr;
    }
  }

  lemma BlocksSameSlots(b: Image, c: Image)
    requires b.Blocks() && c.Shape() && b.SameSlots(c) && c.used == b.used
    ensures c.Blocks()
  {
    forall a: nat | c.Data(a) && c.used[a] ensures c.Held(a) {
      assert b.used[a] && b.Held(a);
      var j, l :| 0 <= j < |b.inode| && 0 <= l < NSLOTS && b.Slot(j, l) == a;
      assert c.Slot(j, l) == a;
    }
  }

  /** The end of writei, where the size grows if the write went past it. */
  lemma WroteAll(old_: Image, c: Image, im: Image, i: nat, off: nat, src: seq<byte>)
    requires old_.Valid() && c.Blocks() && InProgress(old_, c, i, off, src, |src|) && i < |c.inode|
    requires off <= old_.inode[i].size && off + |src| <= MAXFILE * BSIZE
    requires
      var size := if off + |src| > old_.inode[i].size then off + |src| else old_.inode[i].size;
      im == c.(inode := c.inode[i := c.inode[i].(size := size)])
    ensures im.Valid() && Wrote(old_, im, i, off, src)
  {
    hide Image.Owned, Image.NoLeaks, Image.NoHoles, Image.Slot;
    NewSizeSlots(c, im, i);
    NewSizeValid(old_, c, im, i, off, src);
    forall j: nat, o: nat | j < |im.inode| && o < im.inode[j].size
      ensures im.ByteAt(j, o) == if j == i && off <= o < off + |src| then src[o - off] else old_.ByteAt(j, o)
    {
      assert PlaceOk(old_, c, i, off, src, |src|, j, o);
      assert im.Slot(j, DataSlot(o / BSIZE)) == c.Slot(j, DataSlot(o / BSIZE));
    }
    BytesOverwritten(old_.Bytes(i), im.Bytes(i), off, src);
    forall j | 0 <= j < |im.inode| && j != i ensures im.Bytes(j) == old_.Bytes(j) {
      assert im.inode[j].size == old_.inode[j].size;
    }
  }

  lemma BytesOverwritten(a: seq<byte>, b: seq<byte>, off: nat, src: seq<byte>)
    requires off <= |a| && |b| == if off + |src| > |a| then off + |src| else |a|
    requires forall o :: 0 <= o < |b| ==> b[o] == if off <= o < off + |src| then src[o - off] else a[o]
    ensures b == Overwritten(a, off, src)
  {
  }

  /** Changing a size changes no slot. */
  lemma NewSizeSlots(c: Image, im: Image, i: nat)
    requires c.Blocks() && i < |c.inode| == |im.inode|
    requires im == c.(inode := c.inode[i := c.inode[i].(size := im.inode[i].size)])
    ensures im.Blocks() && c.SameSlots(im)
  {
    forall j: nat, k: nat | j < |c.inode| && k < NSLOTS ensures im.Slot(j, k) == c.Slot(j, k) {}
    BlocksSameSlots(c, im);
  }

  lemma NewSizeValid(old_: Image, c: Image, im: Image, i: nat, off: nat, src: seq<byte>)
    requires old_.Valid() && c.Blocks() && InProgress(old_, c, i, off, src, |src|) && i < |c.inode|
    requires off <= old_.inode[i].size && off + |src| <= MAXFILE * BSIZE
    requires im.Blocks() && c.SameSlots(im)
    requires forall j :: 0 <= j < |im.inode| ==>
      im.inode[j].size == (if j == i && off + |src| > old_.inode[i].size then off + |src| else old_.inode[j].size)
    ensures im.Valid()
  {
    forall j: nat, bn: nat | j < |im.inode| && bn < MAXFILE && bn * BSIZE < im.inode[j].size
      ensures im.Slot(j, DataSlot(bn)) != 0
    {
      assert PlaceOk(old_, c, i, off, src, |src|, j, bn * BSIZE);
      assert im.Slot(j, DataSlot(bn)) == c.Slot(j, DataSlot(bn)) && bn * BSIZE / BSIZE == bn;
    }
  }
}
