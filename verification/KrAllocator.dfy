/** The K&R allocator of Project1/umalloc.c. Addresses count header-sized units of 8 bytes. A block at
    address a with size s occupies the units a .. a + s - 1, the first of which is its header. */
module KrAllocator {

  const UNIT: nat := 8
  const UINT_LIMIT: nat := 0x1_0000_0000
  const MIN_GROWTH: nat := 4096

  datatype Block = Block(addr: int, size: int) {
    function End(): int { addr + size }
    predicate Has(x: int) { addr <= x < End() }
    predicate Apart(b: Block) { End() <= b.addr || b.End() <= addr }
  }

  // ---------- Free lists as sequences of blocks ----------

  ghost predicate Covers(bs: seq<Block>, x: int) {
    exists i :: 0 <= i < |bs| && bs[i].Has(x)
  }

  ghost predicate Ordered(bs: seq<Block>) {
    && (forall i :: 0 <= i < |bs| ==> bs[i].size >= 0)
    && (forall i, j :: 0 <= i < j < |bs| ==> bs[i].addr < bs[j].addr && bs[i].End() <= bs[j].addr)
  }

  /** Address order from an empty block at `base`, nothing overlapping, nothing left to merge. */
  ghost predicate ListOk(base: int, bs: seq<Block>) {
    && |bs| > 0 && bs[0] == Block(base, 0)
    && Ordered(bs)
    && (forall i :: 1 <= i < |bs| ==> bs[i].size > 0)
    && (forall i :: 0 <= i < |bs| ==> !Touch(bs, i))
  }

  /** Block b belongs between entries i and i + 1. */
  predicate Gap(bs: seq<Block>, i: nat, b: Block)
    requires i < |bs|
  {
    bs[i].addr < b.addr && (i + 1 < |bs| ==> b.addr < bs[i + 1].addr)
  }

  function Insert(bs: seq<Block>, i: nat, b: Block): seq<Block>
    requires i < |bs|
  {
    bs[..i + 1] + [b] + bs[i + 1..]
  }

  predicate Touch(bs: seq<Block>, i: nat) {
    i + 1 < |bs| && bs[i].End() == bs[i + 1].addr
  }

  /** Entries i and i + 1 become one block, if they touch. */
  function Merge(bs: seq<Block>, i: nat): seq<Block> {
    if Touch(bs, i) then bs[..i] + [Block(bs[i].addr, bs[i].size + bs[i + 1].size)] + bs[i + 2..] else bs
  }

  /** Freeing b into gap i: insert it, merge it with what follows, then with what precedes. */
  function Freed(bs: seq<Block>, i: nat, b: Block): seq<Block>
    requires i < |bs|
  {
    Merge(Merge(Insert(bs, i, b), i + 1), i)
  }

  /** Taking n units from the end of entry i. */
  function Taken(bs: seq<Block>, i: nat, n: int): seq<Block>
    requires i < |bs|
  {
    if bs[i].size == n then bs[..i] + bs[i + 1..] else bs[i := Block(bs[i].addr, bs[i].size - n)]
  }

  lemma CoversConcat(a: seq<Block>, b: seq<Block>, x: int)
    ensures Covers(a + b, x) <==> Covers(a, x) || Covers(b, x)
  {
    if i :| 0 <= i < |a| && a[i].Has(x) { assert (a + b)[i].Has(x); }
    if i :| 0 <= i < |b| && b[i].Has(x) { assert (a + b)[|a| + i].Has(x); }
    if i :| 0 <= i < |a + b| && (a + b)[i].Has(x) {
      if i < |a| { assert a[i].Has(x); } else { assert b[i - |a|].Has(x); }
    }
  }

  /** Replacing the middle of a list by blocks covering the same units. */
  lemma CoversSplice(a: seq<Block>, m: seq<Block>, m': seq<Block>, b: seq<Block>, x: int)
    ensures Covers(a + m + b, x) <==> Covers(a, x) || Covers(m, x) || Covers(b, x)
    ensures Covers(m, x) == Covers(m', x) ==> Covers(a + m + b, x) == Covers(a + m' + b, x)
  {
    CoversConcat(a, m, x);
    CoversConcat(a + m, b, x);
    CoversConcat(a, m', x);
    CoversConcat(a + m', b, x);
  }

  lemma CoversInsert(bs: seq<Block>, i: nat, b: Block, x: int)
    requires i < |bs|
    ensures Covers(Insert(bs, i, b), x) <==> Covers(bs, x) || b.Has(x)
  {
    CoversSplice(bs[..i + 1], [b], [], bs[i + 1..], x);
    CoversSplice(bs[..i + 1], [], [], bs[i + 1..], x);
    assert bs == bs[..i + 1] + [] + bs[i + 1..];
    assert Covers([b], x) <==> b.Has(x) by { assert [b][0] == b; }
  }

  lemma CoversMerge(bs: seq<Block>, i: nat, x: int)
    requires Ordered(bs)
    ensures Covers(Merge(bs, i), x) <==> Covers(bs, x)
  {
    if Touch(bs, i) {
      var one, two := [Block(bs[i].addr, bs[i].size + bs[i + 1].size)], [bs[i], bs[i + 1]];
      assert one[0].Has(x) <==> two[0].Has(x) || two[1].Has(x);
      CoversSplice(bs[..i], one, two, bs[i + 2..], x);
      assert bs == bs[..i] + two + bs[i + 2..];
    }
  }

  /** An ordered list from base whose neighbours touch at most at entries i and i + 1. */
  ghost predicate AlmostOk(base: int, bs: seq<Block>, i: nat, width: nat) {
    && |bs| > 0 && bs[0] == Block(base, 0)
    && Ordered(bs)
    && (forall j :: 1 <= j < |bs| ==> bs[j].size > 0)
    && (forall j :: 0 <= j < |bs| && Touch(bs, j) ==> 1 <= j && i <= j < i + width)
  }

  lemma OrderedConcat(a: seq<Block>, b: seq<Block>)
    requires Ordered(a) && Ordered(b)
    requires forall i, j :: 0 <= i < |a| && 0 <= j < |b| ==> a[i].addr < b[j].addr && a[i].End() <= b[j].addr
    ensures Ordered(a + b)
  {
  }

  lemma InsertOrdered(base: int, bs: seq<Block>, i: nat, b: Block)
    requires ListOk(base, bs) && i < |bs| && Gap(bs, i, b) && b.size > 0
    requires forall j :: 0 <= j < |bs| ==> bs[j].Apart(b)
    ensures Ordered(Insert(bs, i, b))
  {
    var head, tail := bs[..i + 1], bs[i + 1..];
    assert bs[i].End() <= b.addr;
    forall j | 0 <= j < |head| ensures head[j].addr < b.addr && head[j].End() <= b.addr {
      assert head[j] == bs[j];
    }
    forall j | 0 <= j < |tail| ensures b.addr < tail[j].addr && b.End() <= tail[j].addr {
      assert tail[j] == bs[i + 1 + j] && bs[i + 1].addr <= tail[j].addr;
    }
    OrderedConcat(head, [b]);
    OrderedConcat(head + [b], tail);
  }

  lemma InsertOk(base: int, bs: seq<Block>, i: nat, b: Block)
    requires ListOk(base, bs) && i < |bs| && Gap(bs, i, b) && b.size > 0
    requires forall j :: 0 <= j < |bs| ==> bs[j].Apart(b)
    ensures AlmostOk(base, Insert(bs, i, b), i, 2)
  {
    var r := Insert(bs, i, b);
    InsertOrdered(base, bs, i, b);
    forall j | 0 <= j < |r| && !(1 <= j && i <= j < i + 2) ensures !Touch(r, j) {
      if j < i { assert !Touch(bs, j); } else if j > i { assert !Touch(bs, j - 1); }
    }
  }

  lemma OrderedMerge(bs: seq<Block>, i: nat)
    requires Ordered(bs)
    ensures Ordered(Merge(bs, i))
  {
    if Touch(bs, i) {
      var one := [Block(bs[i].addr, bs[i].size + bs[i + 1].size)];
      var head, tail := bs[..i], bs[i + 2..];
      forall j | 0 <= j < |tail| ensures one[0].addr < tail[j].addr && one[0].End() <= tail[j].addr {
        assert tail[j] == bs[i + 2 + j] && bs[i + 1].End() <= bs[i + 2 + j].addr;
      }
      OrderedConcat(head, one);
      OrderedConcat(head + one, tail);
    }
  }

  lemma MergeAt(bs: seq<Block>, i: nat, j: nat)
    requires Touch(bs, i) && j < |bs| - 1
    ensures |Merge(bs, i)| == |bs| - 1
    ensures Merge(bs, i)[j] ==
      if j == i then Block(bs[i].addr, bs[i].size + bs[i + 1].size) else bs[if j < i then j else j + 1]
  {
  }

  lemma MergeOk(base: int, bs: seq<Block>, i: nat, at: nat)
    requires i <= at && AlmostOk(base, bs, i, at - i + 1)
    ensures AlmostOk(base, Merge(bs, at), i, at - i)
  {
    if Touch(bs, at) {
      MergeTouching(base, bs, i, at);
    }
  }

  lemma MergeTouching(base: int, bs: seq<Block>, i: nat, at: nat)
    requires i <= at && AlmostOk(base, bs, i, at - i + 1) && Touch(bs, at)
    ensures AlmostOk(base, Merge(bs, at), i, at - i)
  {
    hide Merge, Ordered;
    var r := Merge(bs, at);
    OrderedMerge(bs, at);
    MergeAt(bs, at, 0);
    forall j | 1 <= j < |r| ensures r[j].size > 0 {
      MergeAt(bs, at, j);
    }
    forall j | 0 <= j < |r| && Touch(r, j) ensures 1 <= j && i <= j < at {
      MergeAt(bs, at, j);
      MergeAt(bs, at, j + 1);
      assert Touch(bs, if j < at then j else j + 1);
    }
  }

  /** Freeing keeps the list in order, leaves nothing touching, and adds exactly the block's units. */
  lemma FreedOk(base: int, bs: seq<Block>, i: nat, b: Block)
    requires ListOk(base, bs) && i < |bs| && Gap(bs, i, b) && b.size > 0
    requires forall j :: 0 <= j < |bs| ==> bs[j].Apart(b)
    ensures ListOk(base, Freed(bs, i, b))
    ensures forall x :: Covers(Freed(bs, i, b), x) <==> Covers(bs, x) || b.Has(x)
  {
    var one := Insert(bs, i, b);
    InsertOk(base, bs, i, b);
    MergeOk(base, one, i, i + 1);
    MergeOk(base, Merge(one, i + 1), i, i);
    forall x ensures Covers(Freed(bs, i, b), x) <==> Covers(bs, x) || b.Has(x) {
      CoversInsert(bs, i, b, x);
      CoversMerge(one, i + 1, x);
      CoversMerge(Merge(one, i + 1), i, x);
    }
  }

  lemma TakenOrdered(bs: seq<Block>, i: nat, n: int)
    requires Ordered(bs) && i < |bs| && 0 < n <= bs[i].size
    ensures Ordered(Taken(bs, i, n))
  {
    var head, tail := bs[..i], bs[i + 1..];
    forall j, k | 0 <= j < |head| && 0 <= k < |tail|
      ensures head[j].addr < tail[k].addr && head[j].End() <= tail[k].addr
    {
      assert tail[k] == bs[i + 1 + k];
    }
    OrderedConcat(head, tail);
  }

  lemma TakenListOk(base: int, bs: seq<Block>, i: nat, n: int)
    requires ListOk(base, bs) && 1 <= i < |bs| && 0 < n <= bs[i].size
    ensures ListOk(base, Taken(bs, i, n))
  {
    var r := Taken(bs, i, n);
    TakenOrdered(bs, i, n);
    forall j | 0 <= j < |r| ensures !Touch(r, j) {
      if |r| == |bs| || j < i - 1 {
        assert !Touch(bs, j);
      } else if j >= i {
        assert !Touch(bs, j + 1);
      } else if j + 1 < |r| {
        assert bs[i - 1].End() <= bs[i].addr < bs[i].End() && bs[i].End() <= bs[i + 1].addr;
      }
    }
  }

  lemma TakenCovers(bs: seq<Block>, i: nat, n: int, x: int)
    requires Ordered(bs) && i < |bs| && 0 < n <= bs[i].size
    ensures Covers(Taken(bs, i, n), x) <==> Covers(bs, x) && !Block(bs[i].End() - n, n).Has(x)
  {
    var all, left := [bs[i]], if bs[i].size == n then [] else [Block(bs[i].addr, bs[i].size - n)];
    assert bs == bs[..i] + all + bs[i + 1..];
    assert Taken(bs, i, n) == bs[..i] + left + bs[i + 1..];
    CoversSplice(bs[..i], all, left, bs[i + 1..], x);
    CoversSplice(bs[..i], left, left, bs[i + 1..], x);
    CoversOne(bs[i], x);
    CoversOne(Block(bs[i].addr, bs[i].size - n), x);
    if bs[i].Has(x) { OnlyCover(bs, i, x); }
  }

  lemma CoversOne(b: Block, x: int)
    ensures Covers([b], x) <==> b.Has(x)
  {
    assert [b][0] == b;
  }

  /** In an ordered list no other entry has a unit of entry i. */
  lemma OnlyCover(bs: seq<Block>, i: nat, x: int)
    requires Ordered(bs) && i < |bs| && bs[i].Has(x)
    ensures !Covers(bs[..i], x) && !Covers(bs[i + 1..], x)
  {
    var head, tail := bs[..i], bs[i + 1..];
    forall j | 0 <= j < |head| ensures !head[j].Has(x) { assert head[j] == bs[j]; }
    forall j | 0 <= j < |tail| ensures !tail[j].Has(x) { assert tail[j] == bs[i + 1 + j]; }
  }

  /** Taking n units keeps the list in order and removes exactly the last n units of that entry. */
  lemma TakenOk(base: int, bs: seq<Block>, i: nat, n: int)
    requires ListOk(base, bs) && 1 <= i < |bs| && 0 < n <= bs[i].size
    ensures ListOk(base, Taken(bs, i, n))
    ensures forall x :: Covers(Taken(bs, i, n), x) <==> Covers(bs, x) && !Block(bs[i].End() - n, n).Has(x)
  {
    TakenListOk(base, bs, i, n);
    forall x ensures Covers(Taken(bs, i, n), x) <==> Covers(bs, x) && !Block(bs[i].End() - n, n).Has(x) {
      TakenCovers(bs, i, n, x);
    }
  }

  // ---------- The ring in memory ----------

  function Next(n: nat, i: nat): nat
    requires i < n
  {
    if i + 1 < n then i + 1 else 0
  }

  /** Steps along a ring of n entries from i to target. */
  function Distance(n: nat, i: nat, target: nat): nat
    requires i < n && target < n
  {
    if i <= target then target - i else n - i + target
  }

  lemma DistanceStep(n: nat, i: nat, j: nat, target: nat)
    requires i < n && j < n && target < n && i != target
    requires Distance(n, Next(n, i), target) < Distance(n, j, target)
    ensures i == j || Distance(n, i, target) < Distance(n, j, target)
  {
  }

  /** The header of the list's i-th block, as s.ptr and s.size hold it. */
  predicate LinkedAt(bs: seq<Block>, ptr: map<int, int>, size: map<int, int>, i: nat)
    requires i < |bs|
  {
    var a := bs[i].addr;
    a in ptr && ptr[a] == bs[Next(|bs|, i)].addr && a in size && size[a] == bs[i].size
  }

  ghost predicate Linked(bs: seq<Block>, ptr: map<int, int>, size: map<int, int>) {
    forall i {:trigger LinkedAt(bs, ptr, size, i)} :: 0 <= i < |bs| ==> LinkedAt(bs, ptr, size, i)
  }

  lemma Distinct(bs: seq<Block>, i: nat, j: nat)
    requires Ordered(bs) && i < |bs| && j < |bs| && i != j
    ensures bs[i].addr != bs[j].addr
  {
    if i < j { assert bs[i].addr < bs[j].addr; } else { assert bs[j].addr < bs[i].addr; }
  }

  lemma InsertAt(bs: seq<Block>, i: nat, b: Block, j: nat)
    requires i < |bs| && j <= |bs|
    ensures Insert(bs, i, b)[j] == if j == i + 1 then b else bs[if j <= i then j else j - 1]
  {
  }

  /** Splicing b in after entry i, as two pointer writes and a size. */
  lemma InsertLinked(bs: seq<Block>, ptr: map<int, int>, size: map<int, int>, i: nat, b: Block)
    requires Linked(bs, ptr, size) && Ordered(bs) && i < |bs| && LinkedAt(bs, ptr, size, i)
    requires forall j :: 0 <= j < |bs| ==> bs[j].addr != b.addr
    ensures Linked(Insert(bs, i, b), ptr[b.addr := ptr[bs[i].addr]][bs[i].addr := b.addr], size[b.addr := b.size])
  {
    var r := Insert(bs, i, b);
    var ptr', size' := ptr[b.addr := ptr[bs[i].addr]][bs[i].addr := b.addr], size[b.addr := b.size];
    forall j | 0 <= j < |r| ensures LinkedAt(r, ptr', size', j) {
      if j != i + 1 {
        var k := if j <= i then j else j - 1;
        InsertAt(bs, i, b, j);
        assert LinkedAt(bs, ptr, size, k);
        if k != i {
          Distinct(bs, k, i);
          assert r[Next(|r|, j)] == bs[Next(|bs|, k)];
        }
      }
    }
  }

  /** Absorbing entry i + 1 into entry i, as one pointer write and a size. */
  lemma MergeLinked(bs: seq<Block>, ptr: map<int, int>, size: map<int, int>, i: nat)
    requires Linked(bs, ptr, size) && Ordered(bs) && Touch(bs, i)
    requires LinkedAt(bs, ptr, size, i) && LinkedAt(bs, ptr, size, i + 1)
    ensures Linked(Merge(bs, i), ptr[bs[i].addr := ptr[bs[i + 1].addr]],
                   size[bs[i].addr := size[bs[i].addr] + size[bs[i + 1].addr]])
  {
    hide Merge, Ordered;
    var r := Merge(bs, i);
    var a := bs[i].addr;
    var ptr', size' := ptr[a := ptr[bs[i + 1].addr]], size[a := size[a] + size[bs[i + 1].addr]];
    MergeAt(bs, i, 0);
    forall j | 0 <= j < |r| ensures LinkedAt(r, ptr', size', j) {
      MergeAt(bs, i, j);
      MergeAt(bs, i, Next(|r|, j));
      if j != i {
        var k := if j < i then j else j + 1;
        assert r[j] == bs[k] && LinkedAt(bs, ptr, size, k);
        Distinct(bs, k, i);
        assert r[Next(|r|, j)].addr == bs[Next(|bs|, k)].addr;
      } else {
        assert r[Next(|r|, i)].addr == bs[Next(|bs|, i + 1)].addr;
      }
    }
  }

  /** The headers after free's first if, were the entry at i already to point to the freed block. */
  lemma JoinNextLinked(base: int, bs: seq<Block>, ptr: map<int, int>, size: map<int, int>, i: nat, b: Block)
    requires ListOk(base, bs) && Linked(bs, ptr, size) && i < |bs| && Gap(bs, i, b) && b.size > 0
    requires LinkedAt(bs, ptr, size, i) && b.addr in size && size[b.addr] == b.size
    requires forall j :: 0 <= j < |bs| ==> bs[j].Apart(b) && bs[j].addr != b.addr
    ensures
      var p, q := bs[i].addr, ptr[bs[i].addr];
      var joined := Merge(Insert(bs, i, b), i + 1);
      if b.End() == q then
        && q in ptr && q in size
        && Linked(joined, ptr[b.addr := ptr[q]][p := b.addr], size[b.addr := b.size + size[q]])
      else Linked(joined, ptr[b.addr := q][p := b.addr], size)
  {
    var p, q := bs[i].addr, ptr[bs[i].addr];
    var one := Insert(bs, i, b);
    var ptr1 := ptr[b.addr := q][p := b.addr];
    InsertOrdered(base, bs, i, b);
    InsertLinked(bs, ptr, size, i, b);
    assert size[b.addr := b.size] == size;
    InsertAt(bs, i, b, i + 1);
    assert LinkedAt(one, ptr1, size, i + 1) && bs[0].addr <= p;
    if b.End() == q {
      InsertAt(bs, i, b, i + 2);
      assert LinkedAt(bs, ptr, size, i + 1) && LinkedAt(one, ptr1, size, i + 2);
      Distinct(bs, i, i + 1);
      MergeLinked(one, ptr1, size, i + 1);
      assert ptr1[b.addr := ptr1[q]] == ptr[b.addr := ptr[q]][p := b.addr];
    } else if i + 1 < |bs| {
      InsertAt(bs, i, b, i + 2);
    }
  }

  /** Blocks handed out by malloc, by header address, with their headers intact. */
  ghost predicate LiveOk(base: int, live: map<int, int>, size: map<int, int>) {
    && (forall a :: a in live ==> base < a && live[a] > 0 && a in size && size[a] == live[a])
    && (forall a, b :: a in live && b in live && a < b ==> a + live[a] <= b)
  }

  ghost predicate LiveApart(bs: seq<Block>, live: map<int, int>) {
    forall i, a :: 0 <= i < |bs| && a in live ==> bs[i].Apart(Block(a, live[a]))
  }

  ghost predicate LiveCovers(live: map<int, int>, x: int) {
    exists a :: a in live && Block(a, live[a]).Has(x)
  }

  /** Every unit obtained from sbrk is free or live (and, by LiveApart, not both), and no other unit is. */
  ghost predicate Conserved(bs: seq<Block>, live: map<int, int>, arena: set<int>) {
    forall x :: x in arena <==> Covers(bs, x) || LiveCovers(live, x)
  }

  lemma LiveCoversRemove(live: map<int, int>, a: int, x: int)
    requires a in live
    ensures LiveCovers(live, x) <==> LiveCovers(live - {a}, x) || Block(a, live[a]).Has(x)
  {
    if c :| c in live && Block(c, live[c]).Has(x) {
      assert c == a || (c in live - {a} && Block(c, (live - {a})[c]).Has(x));
    }
    if c :| c in live - {a} && Block(c, (live - {a})[c]).Has(x) {
      assert c in live && Block(c, live[c]).Has(x);
    }
  }

  /** Blocks of a list that covers no unit of a live block are apart from it. */
  lemma ApartByUnits(base: int, bs: seq<Block>, b: Block)
    requires ListOk(base, bs) && base < b.addr && b.size > 0
    requires forall x :: Covers(bs, x) ==> !b.Has(x)
    ensures forall i :: 0 <= i < |bs| ==> bs[i].Apart(b)
  {
    forall i | 0 <= i < |bs| ensures bs[i].Apart(b) {
      var x := if bs[i].addr < b.addr then b.addr else bs[i].addr;
      assert bs[i].Has(x) ==> Covers(bs, x);
    }
  }

  lemma UnitsByApart(bs: seq<Block>, b: Block, x: int)
    requires (forall i :: 0 <= i < |bs| ==> bs[i].Apart(b)) && b.Has(x)
    ensures !Covers(bs, x)
  {
  }

  /** Moving a live block to the free list keeps live blocks apart from free ones and conserves units. */
  lemma LiveAfterFree(base: int, bs: seq<Block>, bs': seq<Block>, live: map<int, int>, size: map<int, int>,
                      arena: set<int>, a: int)
    requires ListOk(base, bs') && LiveOk(base, live, size) && LiveApart(bs, live) && Conserved(bs, live, arena)
    requires a in live && forall x :: Covers(bs', x) <==> Covers(bs, x) || Block(a, live[a]).Has(x)
    ensures LiveApart(bs', live - {a}) && Conserved(bs', live - {a}, arena)
  {
    forall c | c in live - {a} ensures forall i :: 0 <= i < |bs'| ==> bs'[i].Apart(Block(c, live[c])) {
      forall x | Covers(bs', x) ensures !Block(c, live[c]).Has(x) {
        if Block(c, live[c]).Has(x) { UnitsByApart(bs, Block(c, live[c]), x); }
      }
      ApartByUnits(base, bs', Block(c, live[c]));
    }
    forall x ensures x in arena <==> Covers(bs', x) || LiveCovers(live - {a}, x) {
      LiveCoversRemove(live, a, x);
    }
  }

  lemma LiveCoversAdd(live: map<int, int>, b: Block, x: int)
    requires b.addr !in live
    ensures LiveCovers(live[b.addr := b.size], x) <==> LiveCovers(live, x) || b.Has(x)
  {
    LiveCoversRemove(live[b.addr := b.size], b.addr, x);
    assert live[b.addr := b.size] - {b.addr} == live;
  }

  /** A new live block none of whose units was live before. */
  lemma LiveOkAdd(base: int, live: map<int, int>, size: map<int, int>, b: Block)
    requires LiveOk(base, live, size) && base < b.addr && b.size > 0
    requires forall x :: b.Has(x) ==> !LiveCovers(live, x)
    ensures b.addr !in live && LiveOk(base, live[b.addr := b.size], size[b.addr := b.size])
  {
    assert b.Has(b.addr);
    assert b.addr in live ==> Block(b.addr, live[b.addr]).Has(b.addr);
    forall c | c in live ensures Block(c, live[c]).Apart(b) {
      var x := if c < b.addr then b.addr else c;
      assert Block(c, live[c]).Has(x) ==> LiveCovers(live, x);
    }
  }

  /** Moving units from the free list to a new live block keeps live blocks apart and conserves units. */
  lemma LiveAfterTake(base: int, bs: seq<Block>, bs': seq<Block>, live: map<int, int>, size: map<int, int>,
                      arena: set<int>, b: Block)
    requires ListOk(base, bs') && LiveOk(base, live, size) && LiveApart(bs, live) && Conserved(bs, live, arena)
    requires base < b.addr && b.size > 0 && forall x :: b.Has(x) ==> Covers(bs, x)
    requires forall x :: Covers(bs', x) <==> Covers(bs, x) && !b.Has(x)
    ensures b.addr !in live && LiveOk(base, live[b.addr := b.size], size[b.addr := b.size])
    ensures LiveApart(bs', live[b.addr := b.size]) && Conserved(bs', live[b.addr := b.size], arena)
  {
    forall x | b.Has(x) ensures !LiveCovers(live, x) {
      forall c | c in live ensures !Block(c, live[c]).Has(x) {
        if Block(c, live[c]).Has(x) { UnitsByApart(bs, Block(c, live[c]), x); }
      }
    }
    LiveOkAdd(base, live, size, b);
    forall c | c in live ensures forall i :: 0 <= i < |bs'| ==> bs'[i].Apart(Block(c, live[c])) {
      forall x | Covers(bs', x) ensures !Block(c, live[c]).Has(x) {
        if Block(c, live[c]).Has(x) { UnitsByApart(bs, Block(c, live[c]), x); }
      }
      ApartByUnits(base, bs', Block(c, live[c]));
    }
    ApartByUnits(base, bs', b);
    forall x ensures x in arena <==> Covers(bs', x) || LiveCovers(live[b.addr := b.size], x) {
      LiveCoversAdd(live, b, x);
    }
  }

  /** malloc's writes when entry i has exactly the units asked for: its predecessor skips it. */
  lemma TakenWholeLinked(base: int, bs: seq<Block>, ptr: map<int, int>, size: map<int, int>, i: nat)
    requires ListOk(base, bs) && Linked(bs, ptr, size) && 1 <= i < |bs|
    requires LinkedAt(bs, ptr, size, i - 1) && LinkedAt(bs, ptr, size, i)
    ensures Linked(Taken(bs, i, bs[i].size), ptr[bs[i - 1].addr := ptr[bs[i].addr]], size)
  {
    var r := Taken(bs, i, bs[i].size);
    var ptr' := ptr[bs[i - 1].addr := ptr[bs[i].addr]];
    forall j | 0 <= j < |r| ensures LinkedAt(r, ptr', size, j) {
      var k := if j < i then j else j + 1;
      assert LinkedAt(bs, ptr, size, k) && r[j] == bs[k];
      if k != i - 1 { Distinct(bs, k, i - 1); }
      assert r[Next(|r|, j)] == bs[if j == i - 1 then Next(|bs|, i) else Next(|bs|, k)];
    }
  }

  /** malloc's writes when entry i is larger: the entry shrinks and the header of its tail is written. */
  lemma TakenTailLinked(base: int, bs: seq<Block>, ptr: map<int, int>, size: map<int, int>, i: nat, n: int)
    requires ListOk(base, bs) && Linked(bs, ptr, size) && 1 <= i < |bs| && 0 < n < bs[i].size
    ensures Linked(Taken(bs, i, n), ptr, size[bs[i].addr := bs[i].size - n][bs[i].End() - n := n])
  {
    var r := Taken(bs, i, n);
    var size' := size[bs[i].addr := bs[i].size - n][bs[i].End() - n := n];
    forall j | 0 <= j < |r| ensures LinkedAt(r, ptr, size', j) {
      assert LinkedAt(bs, ptr, size, j);
      assert r[Next(|r|, j)].addr == bs[Next(|bs|, j)].addr;
      if j != i {
        Distinct(bs, j, i);
        if j < i { assert bs[j].addr < bs[i].addr; } else { assert bs[i].End() <= bs[j].addr; }
      }
    }
  }

  /** Treating fresh memory past everything obtained so far as a live block keeps the invariant. */
  lemma ArenaGrows(base: int, bs: seq<Block>, ptr: map<int, int>, size: map<int, int>, live: map<int, int>,
                   arena: set<int>, b: Block)
    requires ListOk(base, bs) && Linked(bs, ptr, size) && LiveOk(base, live, size)
    requires LiveApart(bs, live) && Conserved(bs, live, arena)
    requires base < b.addr && b.size > 0 && forall x :: x in arena ==> x < b.addr
    ensures b.addr !in live && LiveOk(base, live[b.addr := b.size], size[b.addr := b.size])
    ensures LiveApart(bs, live[b.addr := b.size])
    ensures Conserved(bs, live[b.addr := b.size], arena + Units(b))
    ensures Linked(bs, ptr, size[b.addr := b.size])
  {
    forall x | b.Has(x) ensures !LiveCovers(live, x) && !Covers(bs, x) { assert x !in arena; }
    LiveOkAdd(base, live, size, b);
    ApartByUnits(base, bs, b);
    forall x ensures x in arena + Units(b) <==> Covers(bs, x) || LiveCovers(live[b.addr := b.size], x) {
      LiveCoversAdd(live, b, x);
    }
    var size' := size[b.addr := b.size];
    forall j | 0 <= j < |bs| ensures LinkedAt(bs, ptr, size', j) {
      assert LinkedAt(bs, ptr, size, j);
      assert bs[j].addr != b.addr by {
        assert bs[0] == Block(base, 0) && bs[j].Apart(b);
      }
    }
  }

  lemma AddRemove(m: map<int, int>, k: int, v: int)
    requires k !in m
    ensures m[k := v] - {k} == m
  {
  }

  /** malloc's conversion from bytes to units, header included, in 32-bit arithmetic. */
  function NUnits(nbytes: nat): nat {
    (nbytes + UNIT - 1) % UINT_LIMIT / UNIT + 1
  }

  /** The block has room for the bytes asked for exactly when the sum in that conversion does not wrap. */
  lemma NUnitsCoversRequest(nbytes: nat)
    requires nbytes < UINT_LIMIT
    ensures (NUnits(nbytes) - 1) * UNIT >= nbytes <==> nbytes <= UINT_LIMIT - UNIT
  {
    var sum := nbytes + UNIT - 1;
    if nbytes <= UINT_LIMIT - UNIT {
      assert sum % UINT_LIMIT == sum;
      assert sum / UNIT * UNIT > sum - UNIT;
    } else {
      assert sum % UINT_LIMIT == sum - UINT_LIMIT < UNIT;
    }
  }

  /** What sbrk gets as its signed 32-bit argument when morecore asks for nu units. */
  function SbrkArg(nu: nat): int {
    var v := nu * UNIT % UINT_LIMIT;
    if v < 0x8000_0000 then v else v - UINT_LIMIT
  }

  /** For which requests morecore asks sbrk for the memory it goes on to use; for the others it asks for none,
      or to give memory back. */
  lemma SbrkAsksEnough(nbytes: nat)
    requires nbytes < UINT_LIMIT
    ensures SbrkArg(Growth(NUnits(nbytes))) == Growth(NUnits(nbytes)) * UNIT <==>
      nbytes <= 0x7FFF_FFF0 || nbytes > UINT_LIMIT - UNIT
    ensures 0x7FFF_FFF0 < nbytes <= UINT_LIMIT - UNIT <==> SbrkArg(Growth(NUnits(nbytes))) <= 0
  {
    var sum := nbytes + UNIT - 1;
    var nu := NUnits(nbytes);
    if nbytes > UINT_LIMIT - UNIT {
      assert sum % UINT_LIMIT == sum - UINT_LIMIT < UNIT;
    } else {
      assert sum % UINT_LIMIT == sum && nu * UNIT <= sum + UNIT < nu * UNIT + UNIT;
      if nu * UNIT == UINT_LIMIT { assert SbrkArg(nu) == 0; }
    }
  }

  class Allocator {
    const base: int
    var ptr: map<int, int>
    var size: map<int, int>
    var freep: int                  // 0 until the first malloc
    var brk: int                    // end of the memory sbrk has given out
    ghost var bs: seq<Block>
    ghost var live: map<int, int>
    ghost var arena: set<int>
    ghost var asks: nat              // calls of morecore

    ghost predicate OnRing(p: int)
      reads this`bs
    {
      exists i :: 0 <= i < |bs| && bs[i].addr == p
    }

    ghost predicate Valid()
      reads this
    {
      && 0 < base < brk
      && (freep == 0 ==> bs == [] && live == map[])
      && (freep != 0 ==> ListOk(base, bs) && Linked(bs, ptr, size) && OnRing(freep))
      && LiveOk(base, live, size) && LiveApart(bs, live)
      && Conserved(bs, live, arena)
      && (forall x :: x in arena ==> base < x < brk)
    }

    constructor (base: int, brk: int)
      requires 0 < base < brk
      ensures Valid() && live == map[] && arena == {}
    {
      this.base, this.brk, freep := base, brk, 0;
      ptr, size, bs, live, arena := map[], map[], [], map[], {};
    }

    /** The search loop of free: the ring entry whose gap holds bp. */
    method FindGap(bp: int) returns (p: int, ghost i: nat)
      requires |bs| > 0 && bs[0].addr == base && Ordered(bs) && Linked(bs, ptr, size) && OnRing(freep)
      requires base < bp && forall j :: 0 <= j < |bs| ==> bs[j].addr != bp
      ensures i < |bs| && bs[i].addr == p && Gap(bs, i, Block(bp, 0))
    {
      p := freep;
      ghost var start: nat :| start < |bs| && bs[start].addr == p;
      i := start;
      assert LinkedAt(bs, ptr, size, i);
      ghost var target := GapIndex(bs, bp);
      while !(bp > p && bp < ptr[p])
        invariant i < |bs| && bs[i].addr == p
        invariant p in ptr && ptr[p] == bs[Next(|bs|, i)].addr
        decreases Distance(|bs|, i, target)
      {
        if p >= ptr[p] && (bp > p || bp < ptr[p]) {
          break;
        }
        assert i != target by {
          assert bs[0].addr <= bs[i].addr;
        }
        p := ptr[p];
        i := Next(|bs|, i);
        assert LinkedAt(bs, ptr, size, i);
      }
    }

    /** Block bp as its header describes it. */
    function Header(bp: int): Block
      reads this`size
      requires bp in size
    {
      Block(bp, size[bp])
    }

    /** free, first if: bp takes over the block after entry i if they touch, and points past it. */
    method JoinNext(p: int, bp: int, ghost i: nat)
      requires ListOk(base, bs) && Linked(bs, ptr, size) && i < |bs| && p == bs[i].addr
      requires bp in size && size[bp] > 0 && Gap(bs, i, Header(bp)) && LinkedAt(bs, ptr, size, i)
      requires forall j :: 0 <= j < |bs| ==> bs[j].Apart(Header(bp)) && bs[j].addr != bp
      modifies this`ptr, this`size
      ensures bp in ptr && bp in size
      ensures forall a :: a in old(size) && a != bp ==> a in size && size[a] == old(size[a])
      ensures Linked(Merge(Insert(bs, i, old(Header(bp))), i + 1), ptr[p := bp], size)
    {
      JoinNextLinked(base, bs, ptr, size, i, Header(bp));
      if bp + size[bp] == ptr[p] {
        size := size[bp := size[bp] + size[ptr[p]]];
        ptr := ptr[bp := ptr[ptr[p]]];
      } else {
        ptr := ptr[bp := ptr[p]];
      }
    }

    /** free, second if: the entry at p takes over bp if they touch, and otherwise points to it. */
    method JoinPrevious(p: int, bp: int, ghost two: seq<Block>, ghost i: nat)
      requires Ordered(two) && i + 1 < |two| && two[i].addr == p && two[i + 1].addr == bp
      requires p in size && bp in size && bp in ptr && Linked(two, ptr[p := bp], size)
      modifies this`ptr, this`size, this`freep
      ensures forall a :: a in old(size) && a != p ==> a in size && size[a] == old(size[a])
      ensures Linked(Merge(two, i), ptr, size) && freep == p
    {
      ghost var ptr2 := ptr[p := bp];
      assert LinkedAt(two, ptr2, size, i) && LinkedAt(two, ptr2, size, i + 1);
      if p + size[p] == bp {
        MergeLinked(two, ptr2, size, i);
        size := size[p := size[p] + size[bp]];
        ptr := ptr[p := ptr[bp]];
        assert ptr == ptr2[p := ptr2[bp]];
      } else {
        ptr := ptr[p := bp];
      }
      freep := p;
    }

    /** free: ap points past the header of a live block. */
    method Free(ap: int)
      requires Valid() && ap - 1 in live
      modifies this`ptr, this`size, this`freep, this`bs, this`live
      ensures Valid() && live == old(live) - {ap - 1}
      ensures freep != 0 && exists i: nat ::
        i < |old(bs)| && Gap(old(bs), i, Block(ap - 1, 0)) && freep == old(bs)[i].addr
        && bs == Freed(old(bs), i, Block(ap - 1, old(live)[ap - 1]))
    {
      hide Conserved, Freed, Touch;
      var bp := ap - 1;
      ghost var b := Block(bp, live[bp]);
      forall j | 0 <= j < |bs| ensures bs[j].Apart(b) && bs[j].addr != bp {
        assert bs[0].addr == base && (j > 0 ==> bs[j].size > 0);
      }
      var p;
      ghost var i: nat;
      p, i := FindGap(bp);
      assert LinkedAt(bs, ptr, size, i);
      LinkFreed(p, bp, i);
      LiveAfterFree(base, old(bs), bs, live, old(size), arena, bp);
      live := live - {bp};
    }

    /** free after its search loop. */
    method LinkFreed(p: int, bp: int, ghost i: nat)
      requires ListOk(base, bs) && Linked(bs, ptr, size) && i < |bs| && p == bs[i].addr
      requires bp in size && size[bp] > 0 && Gap(bs, i, Header(bp)) && LinkedAt(bs, ptr, size, i)
      requires forall j :: 0 <= j < |bs| ==> bs[j].Apart(Header(bp)) && bs[j].addr != bp
      modifies this`ptr, this`size, this`freep, this`bs
      ensures bs == Freed(old(bs), i, old(Header(bp))) && freep == p
      ensures ListOk(base, bs) && Linked(bs, ptr, size) && OnRing(freep)
      ensures forall x :: Covers(bs, x) <==> Covers(old(bs), x) || old(Header(bp)).Has(x)
      ensures forall a :: a in old(size) && a != bp && a != p ==> a in size && size[a] == old(size[a])
    {
      hide Covers, Linked, Touch;
      ghost var b := Header(bp);
      ghost var two := Merge(Insert(bs, i, b), i + 1);
      FreedOk(base, bs, i, b);
      InsertOrdered(base, bs, i, b);
      OrderedMerge(Insert(bs, i, b), i + 1);
      JoinNext(p, bp, i);
      assert two[i] == bs[i] && two[i + 1].addr == bp;
      JoinPrevious(p, bp, two, i);
      bs := Freed(bs, i, b);
      assert bs[i].addr == p;
    }

    /** Takes n units from entry i, whose predecessor on the ring is prevp: the success branch of malloc. */
    method Take(prevp: int, n: int, ghost i: nat) returns (ap: int)
      requires Valid() && freep != 0 && 1 <= i < |bs| && prevp == bs[i - 1].addr && 0 < n <= bs[i].size
      modifies this`ptr, this`size, this`freep, this`bs, this`live
      ensures Valid() && freep == prevp
      ensures ap - 1 == old(bs)[i].End() - n
      ensures ap - 1 !in old(live) && live == old(live)[ap - 1 := n]
      ensures bs == Taken(old(bs), i, n)
    {
      hide Covers, Conserved, LiveApart, Taken, Linked, LiveOk;
      ghost var b, size0 := Block(bs[i].End() - n, n), size;
      TakeOk(base, bs, live, size, arena, i, n);
      ap := Unlink(prevp, n, i);
      SizesAgree(base, live[b.addr := n], size0[b.addr := n], size);
      live := live[b.addr := n];
    }

    method Unlink(prevp: int, n: int, ghost i: nat) returns (ap: int)
      requires ListOk(base, bs) && Linked(bs, ptr, size)
      requires 1 <= i < |bs| && prevp == bs[i - 1].addr && 0 < n <= bs[i].size
      modifies this`ptr, this`size, this`freep, this`bs
      ensures bs == Taken(old(bs), i, n) && Linked(bs, ptr, size)
      ensures ap - 1 == old(bs)[i].End() - n && freep == prevp
      ensures ap - 1 in size && size[ap - 1] == n
      ensures forall a :: a in old(size) && a != old(bs)[i].addr && a != ap - 1 ==> a in size && size[a] == old(size[a])
    {
      assert LinkedAt(bs, ptr, size, i - 1) && LinkedAt(bs, ptr, size, i);
      var p := ptr[prevp];
      if size[p] == n {
        TakenWholeLinked(base, bs, ptr, size, i);
        ptr := ptr[prevp := ptr[p]];
      } else {
        TakenTailLinked(base, bs, ptr, size, i, n);
        size := size[p := size[p] - n];
        p := p + size[p];
        size := size[p := n];
      }
      freep := prevp;
      bs := Taken(bs, i, n);
      ap := p + 1;
    }

    /** sbrk for nu units: fails, or returns memory at or past the old break. Which of the two is not up to the
        allocator: `gap` is how far past it, or negative where sbrk fails. */
    method Sbrk(nu: int, gap: int) returns (p: int)
      requires nu > 0 && 0 < brk
      modifies this`brk
      ensures if gap < 0 then p == -1 && brk == old(brk) else p == old(brk) + gap && brk == p + nu
    {
      p := -1;
      if gap >= 0 {
        p := brk + gap;
        brk := p + nu;
      }
    }

    /** morecore: asks for at least 4096 units and frees them onto the list. `overrun` is true where sbrk is called
        for no memory, or to give some back: the source then goes on to use memory past the break, which is not
        followed here. */
    method Morecore(nunits: int, gap: int) returns (p: int, ghost got: set<int>, overrun: bool)
      requires Valid() && freep != 0 && nunits > 0
      modifies this`ptr, this`size, this`freep, this`brk, this`bs, this`live, this`arena, this`asks
      ensures Valid() && live == old(live) && freep != 0
      ensures arena == old(arena) + got && (overrun <==> SbrkArg(Growth(nunits)) <= 0)
      ensures p != 0 <==> !overrun && gap >= 0
      ensures if p != 0 then p == freep && HasRoom(nunits) && IsGrowth(got, nunits, old(brk) + gap, brk)
              else got == {} && brk == old(brk)
      ensures asks == old(asks) + 1
    {
      asks := asks + 1;
      var nu := nunits;
      if nu < MIN_GROWTH {
        nu := MIN_GROWTH;
      }
      overrun := SbrkArg(nu) <= 0;
      if overrun {
        return 0, {}, overrun;
      }
      var q := Sbrk(nu, gap);
      if q == -1 {
        return 0, {}, overrun;
      }
      Grow(q, nu);
      p, got := freep, Units(Block(q, nu));
      assert got == Units(Block(q, Growth(nunits)));
    }

    /** Writes the header of nu fresh units at q, which makes them a live block. */
    method Adopt(q: int, nu: int)
      requires freep != 0 && 0 < base < q && nu > 0 && brk == q + nu
      requires ListOk(base, bs) && Linked(bs, ptr, size) && OnRing(freep)
      requires LiveOk(base, live, size) && LiveApart(bs, live) && Conserved(bs, live, arena)
      requires forall x :: x in arena ==> base < x < q
      modifies this`size, this`live, this`arena
      ensures Valid() && q !in old(live) && live == old(live)[q := nu] && arena == old(arena) + Units(Block(q, nu))
    {
      ArenaGrows(base, bs, ptr, size, live, arena, Block(q, nu));
      size := size[q := nu];
      live := live[q := nu];
      arena := arena + Units(Block(q, nu));
    }

    /** Puts nu fresh units at q on the free list. */
    method Grow(q: int, nu: int)
      requires freep != 0 && 0 < base < q && nu > 0 && brk == q + nu
      requires ListOk(base, bs) && Linked(bs, ptr, size) && OnRing(freep)
      requires LiveOk(base, live, size) && LiveApart(bs, live) && Conserved(bs, live, arena)
      requires forall x :: x in arena ==> base < x < q
      modifies this`ptr, this`size, this`freep, this`bs, this`live, this`arena
      ensures Valid() && live == old(live) && freep != 0 && HasRoom(nu)
      ensures arena == old(arena) + Units(Block(q, nu))
    {
      ghost var b := Block(q, nu);
      Adopt(q, nu);
      ghost var before := bs;
      Free(q + 1);
      ghost var i: nat :| i < |before| && Gap(before, i, Block(q, 0)) && bs == Freed(before, i, b);
      FreedHolds(before, i, b);
      AddRemove(old(live), q, nu);
    }

    /** Some free block has at least n units. */
    ghost predicate HasRoom(n: int)
      reads this`bs
    {
      exists j :: 0 <= j < |bs| && bs[j].size >= n
    }

    /** One round of malloc's loop: from the entry after freep until a block is large enough or p is freep again. */
    method Search(nunits: int) returns (found: bool, prevp: int, ghost k: nat)
      requires Ordered(bs) && Linked(bs, ptr, size) && OnRing(freep)
      ensures found <==> HasRoom(nunits)
      ensures found ==> k < |bs| && prevp == bs[k].addr && bs[Next(|bs|, k)].size >= nunits
      ensures found ==> IsFirst(bs, freep, nunits, k)
    {
      hide Ordered;
      prevp := freep;
      k :| 0 <= k < |bs| && bs[k].addr == freep;
      ghost var from: nat := k;
      assert LinkedAt(bs, ptr, size, k);
      var p := ptr[prevp];
      ghost var i := Next(|bs|, k);
      while true
        invariant k < |bs| && bs[k].addr == prevp && i == Next(|bs|, k) && bs[i].addr == p
        invariant forall j :: 0 <= j < |bs| && Distance(|bs|, i, from) < Distance(|bs|, j, from) ==> bs[j].size < nunits
        decreases Distance(|bs|, i, from)
      {
        assert LinkedAt(bs, ptr, size, i);
        if size[p] >= nunits {
          return true, prevp, k;
        }
        if p == freep {
          assert i == from by { if i != from { Distinct(bs, i, from); } }
          return false, prevp, k;
        }
        forall j | 0 <= j < |bs| && Distance(|bs|, Next(|bs|, i), from) < Distance(|bs|, j, from)
          ensures bs[j].size < nunits
        {
          DistanceStep(|bs|, i, j, from);
        }
        prevp := p;
        k := i;
        p := ptr[p];
        i := Next(|bs|, i);
      }
    }

    /** malloc: `got` is the memory that a call of morecore obtained; `gap` and `overrun` are as for morecore. It
        fails only where sbrk does, or may not be called; where it asks for no memory, it takes the end of the
        first block that is large enough, going round from the one after freep. */
    method Malloc(nbytes: nat, gap: int) returns (ap: int, ghost got: set<int>, overrun: bool)
      requires Valid() && nbytes < UINT_LIMIT
      modifies this
      ensures Valid() && asks == if old(HasRoom(NUnits(nbytes))) then old(asks) else old(asks) + 1
      ensures overrun <==> asks > old(asks) && 0x7FFF_FFF0 < nbytes <= UINT_LIMIT - UNIT
      ensures ap == 0 <==> asks > old(asks) && (overrun || gap < 0)
      ensures ap == 0 ==> brk == old(brk)
      ensures asks == old(asks) ==> brk == old(brk) && FirstFit(old(bs), old(freep), NUnits(nbytes), freep, ap - 1)
      ensures if ap != 0 then ap - 1 !in old(live) && live == old(live)[ap - 1 := NUnits(nbytes)]
              else live == old(live) && asks > old(asks) && got == {}
      ensures arena == old(arena) + got
      ensures if ap != 0 && asks > old(asks) then IsGrowth(got, NUnits(nbytes), old(brk) + gap, brk) else got == {}
    {
      hide Linked, LiveApart, Conserved, Taken, IsGrowth;
      var nunits := (nbytes + UNIT - 1) % UINT_LIMIT / UNIT + 1;
      SbrkAsksEnough(nbytes);
      if freep == 0 {
        InitRing();
      }
      var found, prevp;
      ghost var k: nat;
      found, prevp, k, got, overrun := Locate(nunits, gap);
      if !found {
        return 0, got, overrun;
      }
      assert bs[0].size == 0;
      ap := Take(prevp, nunits, k + 1);
    }

    /** The search of malloc, with the call of morecore when it comes around to freep. */
    method Locate(nunits: int, gap: int)
      returns (found: bool, prevp: int, ghost k: nat, ghost got: set<int>, overrun: bool)
      requires Valid() && freep != 0 && nunits > 0
      modifies this`ptr, this`size, this`freep, this`brk, this`bs, this`live, this`arena, this`asks
      ensures Valid() && freep != 0 && live == old(live) && arena == old(arena) + got
      ensures asks == if old(HasRoom(nunits)) then old(asks) else old(asks) + 1
      ensures overrun <==> asks > old(asks) && SbrkArg(Growth(nunits)) <= 0
      ensures found <==> asks == old(asks) || (!overrun && gap >= 0)
      ensures !found ==> brk == old(brk)
      ensures asks == old(asks) ==> brk == old(brk) && bs == old(bs) && freep == old(freep)
      ensures asks == old(asks) ==> k < |bs| && IsFirst(bs, freep, nunits, k)
      ensures if found && asks > old(asks) then IsGrowth(got, nunits, old(brk) + gap, brk) else got == {}
      ensures found ==> k < |bs| && prevp == bs[k].addr && bs[Next(|bs|, k)].size >= nunits
    {
      hide Linked, LiveApart, Conserved, Ordered, LiveOk, IsGrowth, IsFirst;
      got, overrun := {}, false;
      found, prevp, k := Search(nunits);
      if !found {
        var p;
        p, got, overrun := Morecore(nunits, gap);
        if p == 0 {
          return;
        }
        // p is freep, so the loop goes on as it started
        found, prevp, k := Search(nunits);
      }
    }

    /** The first call of malloc: a ring of just the empty block at base. */
    method InitRing()
      requires Valid() && freep == 0
      modifies this`ptr, this`size, this`freep, this`bs
      ensures Valid() && freep == base && bs == [Block(base, 0)]
    {
      ptr := ptr[base := base];
      freep := base;
      size := size[base := 0];
      bs := [Block(base, 0)];
    }
  }

  /** malloc's bookkeeping: a tail of entry i moves from the free list to the live blocks. */
  lemma TakeOk(base: int, bs: seq<Block>, live: map<int, int>, size: map<int, int>, arena: set<int>, i: nat, n: int)
    requires ListOk(base, bs) && 1 <= i < |bs| && 0 < n <= bs[i].size
    requires LiveOk(base, live, size) && LiveApart(bs, live) && Conserved(bs, live, arena)
    ensures
      var a, bs' := bs[i].End() - n, Taken(bs, i, n);
      && ListOk(base, bs') && a !in live && LiveOk(base, live[a := n], size[a := n])
      && LiveApart(bs', live[a := n]) && Conserved(bs', live[a := n], arena)
      && |bs'| >= i && bs'[i - 1] == bs[i - 1]
    ensures forall a :: a in live ==> a != bs[i].addr && a in size
  {
    hide Conserved, LiveOk;
    var b := Block(bs[i].End() - n, n);
    TakenOk(base, bs, i, n);
    forall x | b.Has(x) ensures Covers(bs, x) { assert bs[i].Has(x); }
    assert bs[0].addr < bs[i].addr;
    LiveAfterTake(base, bs, Taken(bs, i, n), live, size, arena, b);
    forall a | a in live ensures a != bs[i].addr && a in size {
      LiveSize(base, live, size, a);
      assert bs[i].Apart(Block(a, live[a]));
    }
  }

  lemma LiveSize(base: int, live: map<int, int>, size: map<int, int>, a: int)
    requires LiveOk(base, live, size) && a in live
    ensures live[a] > 0 && a in size && base < a
  {
  }

  lemma SizesAgree(base: int, live: map<int, int>, size: map<int, int>, size': map<int, int>)
    requires LiveOk(base, live, size) && forall a :: a in live ==> a in size && a in size' && size'[a] == size[a]
    ensures LiveOk(base, live, size')
  {
  }

  ghost function Units(b: Block): set<int> {
    set x | b.addr <= x < b.End() && b.Has(x)
  }

  /** The units that morecore adds for a request: a block at or past the old break, of at least 4096 units. */
  /** The new memory is from start to brk, and of at least 4096 units. */
  ghost predicate IsGrowth(got: set<int>, nunits: int, start: int, brk: int) {
    got == Units(Block(start, Growth(nunits))) && brk - start == if nunits > 4096 then nunits else 4096
  }

  /** No entry after the one at freep, and up to entry k, has n units. */
  ghost predicate IsFirst(bs: seq<Block>, freep: int, n: int, k: nat)
    requires k < |bs|
  {
    exists f :: 0 <= f < |bs| && bs[f].addr == freep && ComesFirst(bs, f, n, k)
  }

  predicate ComesFirst(bs: seq<Block>, f: nat, n: int, k: nat)
    requires f < |bs| && k < |bs|
  {
    forall j :: 0 <= j < |bs| && Distance(|bs|, Next(|bs|, k), f) < Distance(|bs|, j, f) ==> bs[j].size < n
  }

  /** The n units at a are the end of the first block of at least n units after freep, and `prev` is the entry
      before it. */
  ghost predicate FirstFit(bs: seq<Block>, freep: int, n: int, prev: int, a: int) {
    exists k: nat :: k < |bs| && IsFirst(bs, freep, n, k) && bs[k].addr == prev && bs[Next(|bs|, k)].size >= n
      && a == bs[Next(|bs|, k)].End() - n
  }

  function Growth(nunits: int): int {
    if nunits < MIN_GROWTH then MIN_GROWTH else nunits
  }

  /** After freeing b some entry holds all of it. */
  lemma FreedHolds(bs: seq<Block>, i: nat, b: Block)
    requires i < |bs| && forall j :: 0 <= j < |bs| ==> bs[j].size >= 0
    ensures exists j :: 0 <= j < |Freed(bs, i, b)| && Freed(bs, i, b)[j].size >= b.size
  {
    var one := Insert(bs, i, b);
    var two := Merge(one, i + 1);
    assert one[i + 1] == b && two[i + 1].size >= b.size && two[i] == bs[i];
    assert Freed(bs, i, b)[if Touch(two, i) then i else i + 1].size >= b.size;
  }

  /** Where an address above base falls in the list. */
  lemma {:induction false} GapIndex(bs: seq<Block>, a: int) returns (i: nat)
    requires |bs| > 0 && Ordered(bs) && bs[0].addr < a && forall j :: 0 <= j < |bs| ==> bs[j].addr != a
    ensures i < |bs| && Gap(bs, i, Block(a, 0))
  {
    i := 0;
    while i + 1 < |bs| && bs[i + 1].addr < a
      invariant i < |bs| && bs[i].addr < a
    {
      i := i + 1;
    }
  }
}