/** Page tables over the page allocator: Project1/vm.c and Project1/kalloc.c. Physical memory is a sequence
    of pages of 1024 words. A pointer to a page is the number of the page; no page 0 is handed out, so 0 is
    the null pointer. A virtual address is taken by the page: its number is the address over 4096. */
module VirtualMemory {
  import opened Collections

  const NENTRIES: nat := 1024            // NPDENTRIES, NPTENTRIES
  const NFRAMES: nat := 0xE000           // PHYSTOP / PGSIZE
  const NPAGES: nat := 0x100000          // virtual pages
  const USERPAGES: nat := 0x80000        // KERNBASE / PGSIZE
  const PGSIZE: nat := 4096
  const KERNBASE: nat := 0x80000000
  const PTE_P: nat := 1
  const PTE_W: nat := 2
  const PTE_U: nat := 4
  const JUNK: nat := 0x01010101

  type Page = seq<nat>
  type Memory = seq<Page>

  /** Who holds a physical page: the kernel image, the free list, some caller of kalloc, or the address space
      with a given page directory, as the directory itself, as the table for entry i, or as user page v. */
  datatype Owner = Kernel | Free | Loose | Dir | Table(dir: nat, i: nat) | User(dir: nat, v: nat)

  predicate Present(e: nat) {
    e % 2 == 1
  }

  /** PTE_ADDR, as a page number. */
  function FrameOf(e: nat): nat {
    e / PGSIZE
  }

  /** PTE_FLAGS */
  function FlagsOf(e: nat): nat {
    e % PGSIZE
  }

  function Pdx(v: nat): nat {
    v / NENTRIES
  }

  function Ptx(v: nat): nat {
    v % NENTRIES
  }

  /** The word pa | perm | PTE_P for an aligned pa. */
  function Pte(frame: nat, perm: nat): (e: nat)
    requires perm < PGSIZE
    ensures Present(e) && FrameOf(e) == frame && FlagsOf(e) == if perm % 2 == 1 then perm else perm + 1
  {
    PteParts(frame, if perm % 2 == 1 then perm else perm + 1);
    frame * PGSIZE + if perm % 2 == 1 then perm else perm + 1
  }

  lemma PteParts(frame: nat, flags: nat)
    requires flags < PGSIZE
    ensures FrameOf(frame * PGSIZE + flags) == frame && FlagsOf(frame * PGSIZE + flags) == flags
    ensures (frame * PGSIZE + flags) % 2 == flags % 2
  {
    EvenPlus(2048 * frame, flags);
  }

  lemma EvenPlus(half: nat, x: nat)
    ensures (2 * half + x) % 2 == x % 2
  {
  }

  function Word(mem: Memory, f: nat, k: nat): nat {
    if f < |mem| && k < |mem[f]| then mem[f][k] else 0
  }

  function Store(mem: Memory, f: nat, k: nat, w: nat): (r: Memory)
    requires f < |mem| && k < |mem[f]|
    ensures |r| == |mem| && |r[f]| == |mem[f]|
  {
    var page: Page := mem[f][k := w];
    mem[f := page]
  }

  /** Entry i of the page directory in page d. */
  function Pde(mem: Memory, d: nat, i: nat): nat {
    Word(mem, d, i)
  }

  /** The flat map that directory d stands for: the entry of virtual page v through both levels, or 0 if
      the page is not mapped. */
  function Entry(mem: Memory, d: nat, v: nat): (e: nat)
    ensures e != 0 ==> Present(e)
  {
    var table := Pde(mem, d, Pdx(v));
    if Present(table) && Present(Word(mem, FrameOf(table), Ptx(v))) then Word(mem, FrameOf(table), Ptx(v)) else 0
  }

  // ---------- What the hardware allows ----------

  /** A page fault, or an access to a frame, by the user or by the kernel alone, with or without writing. */
  datatype Access = Fault | To(frame: nat, user: bool, write: bool)

  predicate UserBit(e: nat) { FlagsOf(e) / PTE_U % 2 == 1 }

  predicate WriteBit(e: nat) { FlagsOf(e) / PTE_W % 2 == 1 }

  /** How virtual page v may be used: both entries on the way to it must allow it. */
  function AccessOf(mem: Memory, d: nat, v: nat): Access {
    var pde := Pde(mem, d, Pdx(v));
    var pte := Word(mem, FrameOf(pde), Ptx(v));
    if Present(pde) && Present(pte) then
      To(FrameOf(pte), UserBit(pde) && UserBit(pte), WriteBit(pde) && WriteBit(pte))
    else Fault
  }

  /** The flags in the flat map say what is allowed. */
  lemma AccessByFlags(mem: Memory, owner: seq<Owner>, d: nat, v: nat)
    requires Owned(mem, owner) && d < NFRAMES && owner[d] == Dir && v < NPAGES
    ensures AccessOf(mem, d, v) ==
      var e := Entry(mem, d, v);
      if e == 0 then Fault else To(FrameOf(e), UserBit(e), WriteBit(e))
  {
    assert Pdx(v) < NENTRIES;
    var _ := Pde(mem, d, Pdx(v));
  }

  lemma PteBits(frame: nat, perm: nat)
    requires perm < PGSIZE
    ensures UserBit(Pte(frame, perm)) == (perm / 4 % 2 == 1) && WriteBit(Pte(frame, perm)) == (perm / 2 % 2 == 1)
  {
  }

  // ---------- Ownership ----------

  ghost predicate Sized(mem: Memory, owner: seq<Owner>) {
    |mem| == NFRAMES == |owner| && forall f :: 0 <= f < NFRAMES ==> |mem[f]| == NENTRIES
  }

  /** The tables of every directory, and the user pages in them, are owned by it. A directory's entries restrict
      nothing, which is left to those of the tables. */
  ghost predicate TablesOwned(mem: Memory, owner: seq<Owner>) {
    forall d: nat, i: nat {:trigger Pde(mem, d, i)} ::
      d < |owner| && owner[d] == Dir && i < NENTRIES && Present(Pde(mem, d, i)) ==>
        && FrameOf(Pde(mem, d, i)) < |owner| && owner[FrameOf(Pde(mem, d, i))] == Table(d, i)
        && FlagsOf(Pde(mem, d, i)) == PTE_P + PTE_W + PTE_U
  }

  ghost predicate UsersOwned(mem: Memory, owner: seq<Owner>) {
    forall d: nat, v: nat {:trigger Entry(mem, d, v)} ::
      d < |owner| && owner[d] == Dir && v < USERPAGES && Present(Entry(mem, d, v)) ==>
        FrameOf(Entry(mem, d, v)) < |owner| && owner[FrameOf(Entry(mem, d, v))] == User(d, v)
  }

  /** Nothing is owned by a directory that does not refer to it. */
  ghost predicate NoneLost(mem: Memory, owner: seq<Owner>) {
    && (forall f {:trigger owner[f]} :: 0 <= f < |owner| && owner[f].Table? ==>
          && owner[f].dir < |owner| && owner[owner[f].dir] == Dir && owner[f].i < NENTRIES
          && Present(Pde(mem, owner[f].dir, owner[f].i)) && FrameOf(Pde(mem, owner[f].dir, owner[f].i)) == f)
    && (forall f {:trigger owner[f]} :: 0 <= f < |owner| && owner[f].User? ==>
          && owner[f].dir < |owner| && owner[owner[f].dir] == Dir && owner[f].v < USERPAGES
          && Present(Entry(mem, owner[f].dir, owner[f].v)) && FrameOf(Entry(mem, owner[f].dir, owner[f].v)) == f)
  }

  ghost predicate Owned(mem: Memory, owner: seq<Owner>) {
    Sized(mem, owner) && TablesOwned(mem, owner) && UsersOwned(mem, owner) && NoneLost(mem, owner)
  }

  /** No directory's flat map differs, except for directory xd at page xv. */
  ghost predicate SameMapsBut(mem: Memory, mem': Memory, owner: seq<Owner>, xd: nat, xv: nat) {
    forall d: nat, v: nat {:trigger Entry(mem', d, v)} ::
      d < |owner| && owner[d] == Dir && v < NPAGES && (d != xd || v != xv) ==> Entry(mem', d, v) == Entry(mem, d, v)
  }

  ghost predicate SameMaps(mem: Memory, mem': Memory, owner: seq<Owner>) {
    SameMapsBut(mem, mem', owner, NFRAMES, 0)
  }

  predicate Held(o: Owner) {
    o.Free? || o.Loose?
  }

  /** A page that no directory refers to may change hands and contents. */
  lemma ChangeHeld(mem: Memory, owner: seq<Owner>, f: nat, page: Page, o: Owner)
    requires Owned(mem, owner) && f < NFRAMES && Held(owner[f]) && Held(o) && |page| == NENTRIES
    ensures Owned(mem[f := page], owner[f := o]) && SameMaps(mem, mem[f := page], owner)
  {
    var mem', owner' := mem[f := page], owner[f := o];
    forall d: nat, i: nat | d < NFRAMES && owner[d] == Dir ensures Pde(mem', d, i) == Pde(mem, d, i) {}
    forall d: nat, v: nat | d < NFRAMES && owner[d] == Dir && v < NPAGES ensures Entry(mem', d, v) == Entry(mem, d, v) {
      var i := Pdx(v);
      assert i < NENTRIES && Pde(mem', d, i) == Pde(mem, d, i);
    }
    assert NoneLost(mem', owner');
  }

  /** A zeroed page becomes the table for an absent entry of a directory. */
  lemma NewTable(mem: Memory, owner: seq<Owner>, d: nat, i: nat, t: nat, e: nat, mem': Memory)
    requires Owned(mem, owner) && d < NFRAMES && owner[d] == Dir && i < NENTRIES && !Present(Pde(mem, d, i))
    requires t < NFRAMES && owner[t] == Loose && (forall k :: 0 <= k < NENTRIES ==> mem[t][k] == 0)
    requires Present(e) && FrameOf(e) == t && FlagsOf(e) == PTE_P + PTE_W + PTE_U && mem' == Store(mem, d, i, e)
    ensures Owned(mem', owner[t := Table(d, i)]) && SameMaps(mem, mem', owner)
  {
    var owner' := owner[t := Table(d, i)];
    forall d': nat, k: nat | d' < NFRAMES && owner[d'] == Dir
      ensures Pde(mem', d', k) == if d' == d && k == i then e else Pde(mem, d', k)
    {
    }
    forall d': nat, v: nat | d' < NFRAMES && owner[d'] == Dir && v < NPAGES
      ensures Entry(mem', d', v) == Entry(mem, d', v)
    {
      var k := Pdx(v);
      assert k < NENTRIES && Pde(mem', d', k) == if d' == d && k == i then e else Pde(mem, d', k);
      if d' != d || k != i {
        assert Present(Pde(mem, d', k)) ==> owner[FrameOf(Pde(mem, d', k))] == Table(d', k);
      }
    }
    assert NoneLost(mem', owner');
  }

  /** The table for an entry of a directory belongs to it. */
  lemma TableAt(mem: Memory, owner: seq<Owner>, d: nat, v: nat) returns (t: nat)
    requires Owned(mem, owner) && d < NFRAMES && owner[d] == Dir && v < NPAGES && Present(Pde(mem, d, Pdx(v)))
    ensures t == FrameOf(Pde(mem, d, Pdx(v))) && t < NFRAMES && owner[t] == Table(d, Pdx(v))
  {
    t := FrameOf(Pde(mem, d, Pdx(v)));
    assert Pdx(v) < NENTRIES;
  }

  /** Writing the entry of page v of directory d, whose table is t. */
  lemma EntryWritten(mem: Memory, owner: seq<Owner>, d: nat, v: nat, t: nat, e: nat, mem': Memory)
    requires Owned(mem, owner) && d < NFRAMES && owner[d] == Dir && v < NPAGES
    requires Present(Pde(mem, d, Pdx(v))) && FrameOf(Pde(mem, d, Pdx(v))) == t && t < NFRAMES
    requires owner[t] == Table(d, Pdx(v))
    requires mem' == Store(mem, t, Ptx(v), e)
    ensures Entry(mem', d, v) == (if Present(e) then e else 0) && SameMapsBut(mem, mem', owner, d, v)
    ensures forall d': nat, i: nat {:trigger Pde(mem', d', i)} ::
      d' < NFRAMES && owner[d'] == Dir ==> Pde(mem', d', i) == Pde(mem, d', i)
  {
    var i := Pdx(v);
    assert i < NENTRIES && Present(Pde(mem, d, i));
    forall d': nat, k: nat | d' < NFRAMES && owner[d'] == Dir ensures Pde(mem', d', k) == Pde(mem, d', k) {}
    forall d': nat, v': nat | d' < NFRAMES && owner[d'] == Dir && v' < NPAGES && (d' != d || v' != v)
      ensures Entry(mem', d', v') == Entry(mem, d', v')
    {
      var k := Pdx(v');
      assert k < NENTRIES && Pde(mem', d', k) == Pde(mem, d', k);
      if Present(Pde(mem, d', k)) && FrameOf(Pde(mem, d', k)) == t {
        assert d' == d && k == i;
        SameTable(v, v');
      }
    }
  }

  lemma SameTable(v: nat, v': nat)
    requires Pdx(v) == Pdx(v') && v != v'
    ensures Ptx(v) != Ptx(v')
  {
  }

  /** Mapping virtual page v to the frame of e; a frame mapped in the user part must be in the caller's hands. */
  lemma Mapped(mem: Memory, owner: seq<Owner>, d: nat, v: nat, t: nat, e: nat,
               mem': Memory) returns (owner': seq<Owner>)
    requires Owned(mem, owner) && d < NFRAMES && owner[d] == Dir && v < NPAGES
    requires Present(Pde(mem, d, Pdx(v))) && FrameOf(Pde(mem, d, Pdx(v))) == t && t < NFRAMES
    requires owner[t] == Table(d, Pdx(v))
    requires Entry(mem, d, v) == 0 && Present(e) && mem' == Store(mem, t, Ptx(v), e)
    requires v < USERPAGES ==> FrameOf(e) < NFRAMES && owner[FrameOf(e)] == Loose
    ensures owner' == if v < USERPAGES then owner[FrameOf(e) := User(d, v)] else owner
    ensures Owned(mem', owner') && Entry(mem', d, v) == e && SameMapsBut(mem, mem', owner, d, v)
  {
    EntryWritten(mem, owner, d, v, t, e, mem');
    owner' := if v < USERPAGES then owner[FrameOf(e) := User(d, v)] else owner;
    assert UsersOwned(mem', owner') by {
      forall d': nat, v': nat | d' < NFRAMES && owner'[d'] == Dir && v' < USERPAGES && Present(Entry(mem', d', v'))
        ensures FrameOf(Entry(mem', d', v')) < NFRAMES && owner'[FrameOf(Entry(mem', d', v'))] == User(d', v')
      {
        if d' != d || v' != v { assert Entry(mem', d', v') == Entry(mem, d', v'); }
      }
    }
    assert NoneLost(mem', owner');
  }

  /** Unmapping user page v of d: its frame comes into the caller's hands. */
  lemma Unmapped(mem: Memory, owner: seq<Owner>, d: nat, v: nat, t: nat, mem': Memory)
    requires Owned(mem, owner) && d < NFRAMES && owner[d] == Dir && v < USERPAGES
    requires Present(Pde(mem, d, Pdx(v))) && FrameOf(Pde(mem, d, Pdx(v))) == t && t < NFRAMES
    requires owner[t] == Table(d, Pdx(v))
    requires Present(Entry(mem, d, v)) && mem' == Store(mem, t, Ptx(v), 0)
    ensures FrameOf(Entry(mem, d, v)) < NFRAMES && owner[FrameOf(Entry(mem, d, v))] == User(d, v)
    ensures Owned(mem', owner[FrameOf(Entry(mem, d, v)) := Loose])
    ensures Entry(mem', d, v) == 0 && SameMapsBut(mem, mem', owner, d, v)
  {
    EntryWritten(mem, owner, d, v, t, 0, mem');
    var owner' := owner[FrameOf(Entry(mem, d, v)) := Loose];
    assert UsersOwned(mem', owner') by {
      forall d': nat, v': nat | d' < NFRAMES && owner'[d'] == Dir && v' < USERPAGES && Present(Entry(mem', d', v'))
        ensures FrameOf(Entry(mem', d', v')) < NFRAMES && owner'[FrameOf(Entry(mem', d', v'))] == User(d', v')
      {
        if d' != d || v' != v { assert Entry(mem', d', v') == Entry(mem, d', v'); }
      }
    }
    assert NoneLost(mem', owner');
  }

  /** A zeroed page becomes a page directory that maps nothing. */
  lemma NewDir(mem: Memory, owner: seq<Owner>, d: nat)
    requires Owned(mem, owner) && d < NFRAMES && owner[d] == Loose && forall k :: 0 <= k < NENTRIES ==> mem[d][k] == 0
    ensures Owned(mem, owner[d := Dir]) && forall v :: 0 <= v < NPAGES ==> Entry(mem, d, v) == 0
  {
    var owner' := owner[d := Dir];
    forall i: nat ensures Pde(mem, d, i) == 0 {}
    assert NoneLost(mem, owner');
  }

  /** The directory d and its tables come into the caller's hands. */
  function Dismantled(owner: seq<Owner>, d: nat): (r: seq<Owner>)
    ensures |r| == |owner|
  {
    seq(|owner|, f requires 0 <= f < |owner| =>
      if f == d || (owner[f].Table? && owner[f].dir == d) then Loose else owner[f])
  }

  lemma DirDismantled(mem: Memory, owner: seq<Owner>, d: nat)
    requires Owned(mem, owner) && d < NFRAMES && owner[d] == Dir
    requires forall v :: 0 <= v < USERPAGES ==> Entry(mem, d, v) == 0
    ensures Owned(mem, Dismantled(owner, d))
  {
    var owner' := Dismantled(owner, d);
    forall f | 0 <= f < NFRAMES && owner[f].User? ensures owner[f].dir != d {
    }
    assert NoneLost(mem, owner');
  }

  // ---------- The free list ----------

  /** The run of free pages that starts at p and is linked through word 0 of each. */
  ghost predicate Linked(mem: Memory, p: nat, free: seq<nat>)
    decreases |free|
  {
    if free == [] then p == 0 else 0 < p < |mem| && p == free[0] && Linked(mem, Word(mem, p, 0), free[1..])
  }

  ghost predicate FreeOk(mem: Memory, owner: seq<Owner>, freelist: nat, free: seq<nat>) {
    && Linked(mem, freelist, free) && Distinct(free)
    && forall f: nat {:trigger owner[f]} :: f < |owner| ==> (owner[f] == Free <==> f in free)
  }

  /** Writes outside the free pages leave the free list alone. */
  lemma {:induction false} LinkedElsewhere(mem: Memory, mem': Memory, p: nat, free: seq<nat>)
    requires Linked(mem, p, free) && |mem'| == |mem|
    requires forall f: nat :: f in free && f < |mem| ==> mem'[f] == mem[f]
    ensures Linked(mem', p, free)
    decreases |free|
  {
    if free != [] {
      assert free[0] in free;
      LinkedElsewhere(mem, mem', Word(mem, p, 0), free[1..]);
    }
  }

  lemma FreeElsewhere(mem: Memory, mem': Memory, owner: seq<Owner>, owner': seq<Owner>, freelist: nat, free: seq<nat>)
    requires FreeOk(mem, owner, freelist, free) && |mem| == |mem'| == |owner| == |owner'|
    requires forall f {:trigger owner'[f]} :: 0 <= f < |owner| ==> (owner'[f] == Free <==> owner[f] == Free)
    requires forall f {:trigger mem'[f]} :: 0 <= f < |mem| && owner[f] == Free ==> mem'[f] == mem[f]
    ensures FreeOk(mem', owner', freelist, free)
  {
    forall f: nat | f in free && f < |mem| ensures mem'[f] == mem[f] { assert owner[f] == Free; }
    LinkedElsewhere(mem, mem', freelist, free);
  }

  /** kfree's push. */
  lemma Pushed(mem: Memory, owner: seq<Owner>, freelist: nat, free: seq<nat>, f: nat, page: Page)
    requires FreeOk(mem, owner, freelist, free) && 0 < f < |mem| == |owner| && owner[f] != Free
    requires |page| > 0 && page[0] == freelist
    ensures FreeOk(mem[f := page], owner[f := Free], f, [f] + free)
  {
    LinkedElsewhere(mem, mem[f := page], freelist, free);
    assert ([f] + free)[1..] == free;
  }

  /** kalloc's pop. */
  lemma Popped(mem: Memory, owner: seq<Owner>, freelist: nat, free: seq<nat>)
    requires FreeOk(mem, owner, freelist, free) && freelist != 0 && freelist < |owner|
    ensures free != [] && owner[freelist] == Free
    ensures FreeOk(mem, owner[freelist := Loose], Word(mem, freelist, 0), free[1..])
  {
    assert freelist == free[0] && free[0] in free;
    assert free == [free[0]] + free[1..];
    forall f: nat | f in free[1..] ensures f != freelist {
      var k :| 0 <= k < |free[1..]| && free[1..][k] == f;
      assert free[k + 1] == f;
    }
  }

  // ---------- The allocator and the page tables ----------

  function Zeros(): (page: Page)
    ensures |page| == NENTRIES && forall k :: 0 <= k < NENTRIES ==> page[k] == 0
  {
    seq(NENTRIES, _ => 0)
  }

  /** A freed page: filled with 1s, with the link in its first word. */
  function Junk(next: nat): (page: Page)
    ensures |page| == NENTRIES && page[0] == next && forall k :: 0 < k < NENTRIES ==> page[k] == JUNK
  {
    seq(NENTRIES, k => if k == 0 then next else JUNK)
  }

  /** A page table entry's pointer, or null. */
  datatype Slot = Null | At(table: nat, k: nat)

  /** Only page tables of directory d were taken from the free list; nothing else changed hands. */
  ghost predicate Grown(owner: seq<Owner>, owner': seq<Owner>, d: nat) {
    && |owner'| == |owner|
    && forall f {:trigger owner'[f]} :: 0 <= f < |owner| ==>
         owner'[f] == owner[f] || (owner[f] == Free && owner'[f].Table? && owner'[f].dir == d)
  }

  /** Pages in use other than directory d and its tables keep their contents. */
  ghost predicate Aside(mem: Memory, owner: seq<Owner>, mem': Memory, d: nat) {
    && |mem'| == |mem| == |owner|
    && forall f {:trigger mem'[f]} ::
         0 <= f < |mem| && owner[f] != Free && f != d && !(owner[f].Table? && owner[f].dir == d) ==>
         mem'[f] == mem[f]
  }

  /** Pages still in use, other than tables of directory d, keep their contents. */
  ghost predicate KeptBy(mem: Memory, mem': Memory, owner': seq<Owner>, d: nat) {
    && |mem'| == |mem| == |owner'|
    && forall f {:trigger mem'[f]} ::
         0 <= f < |mem| && owner'[f] != Free && !(owner'[f].Table? && owner'[f].dir == d) ==>
         mem'[f] == mem[f]
  }

  function Min(a: nat, b: nat): nat {
    if a < b then a else b
  }

  /** PGROUNDUP, as a page number. */
  function Up(sz: nat): (v: nat)
    ensures forall u: nat {:trigger PGSIZE * u} :: PGSIZE * u < sz <==> u < v
  {
    (sz + PGSIZE - 1) / PGSIZE
  }

  lemma UpMonotone(a: nat, b: nat)
    requires a <= b
    ensures Up(a) <= Up(b) && Up(KERNBASE) == USERPAGES && Up(0) == 0
  {
  }

  /** No directory's flat map differs, except for directory d at pages lo to hi. */
  ghost predicate SameMapsOutside(mem: Memory, mem': Memory, owner: seq<Owner>, d: nat, lo: nat, hi: nat) {
    forall e: nat, v: nat {:trigger Entry(mem', e, v)} ::
      e < |owner| && owner[e] == Dir && v < NPAGES && (e != d || v < lo || hi <= v) ==>
        Entry(mem', e, v) == Entry(mem, e, v)
  }

  /** The user pages lo to hi of directory d have gone back to the free list. */
  function Released(owner: seq<Owner>, d: nat, lo: nat, hi: nat): (r: seq<Owner>)
    ensures |r| == |owner|
  {
    seq(|owner|, f requires 0 <= f < |owner| =>
      if owner[f].User? && owner[f].dir == d && lo <= owner[f].v < hi then Free else owner[f])
  }

  /** Only the frame that page v is mapped to belongs to page v. */
  lemma ReleasedOne(mem: Memory, owner: seq<Owner>, owner0: seq<Owner>, d: nat, lo: nat, v: nat)
    requires Owned(mem, owner) && owner == Released(owner0, d, lo, v) && d < NFRAMES && owner[d] == Dir
    requires lo <= v < USERPAGES
    ensures Entry(mem, d, v) == 0 ==> owner == Released(owner0, d, lo, v + 1)
    ensures Entry(mem, d, v) != 0 ==>
      FrameOf(Entry(mem, d, v)) < NFRAMES && owner[FrameOf(Entry(mem, d, v)) := Free] == Released(owner0, d, lo, v + 1)
  {
    hide Entry, Pde;
    forall f | 0 <= f < NFRAMES && owner[f] == User(d, v)
      ensures Entry(mem, d, v) != 0 && FrameOf(Entry(mem, d, v)) == f
    {
    }
  }

  lemma ReleasedAbsent(mem: Memory, owner: seq<Owner>, owner0: seq<Owner>, d: nat, lo: nat, v: nat, w: nat)
    requires Owned(mem, owner) && owner == Released(owner0, d, lo, v) && d < NFRAMES && owner[d] == Dir
    requires lo <= v <= w <= USERPAGES
    requires forall u :: v <= u < w ==> Entry(mem, d, u) == 0
    ensures owner == Released(owner0, d, lo, w)
  {
    hide Entry, Pde;
    forall f | 0 <= f < NFRAMES && owner[f].User? && owner[f].dir == d ensures !(v <= owner[f].v < w) {}
  }

  /** deallocuvm's skip: without a table, none of the pages up to the next table is mapped. */
  lemma NoTable(mem: Memory, d: nat, v: nat)
    requires !Present(Pde(mem, d, Pdx(v)))
    ensures forall u {:trigger Entry(mem, d, u)} :: v <= u < NENTRIES * (Pdx(v) + 1) ==> Entry(mem, d, u) == 0
    ensures v < NENTRIES * (Pdx(v) + 1)
  {
    forall u | v <= u < NENTRIES * (Pdx(v) + 1) ensures Pdx(u) == Pdx(v) {}
  }

  lemma EntryThere(mem: Memory, d: nat, v: nat)
    requires Present(Pde(mem, d, Pdx(v)))
    ensures Entry(mem, d, v) != 0 <==> Present(Word(mem, FrameOf(Pde(mem, d, Pdx(v))), Ptx(v)))
  {
  }

  lemma SameMapsTwice(mem0: Memory, mem1: Memory, mem2: Memory, owner0: seq<Owner>, owner1: seq<Owner>, d: nat, v: nat)
    requires |owner0| == |owner1| && SameMapsBut(mem0, mem1, owner0, d, v) && SameMaps(mem1, mem2, owner1)
    requires |owner0| <= NFRAMES
    requires forall f {:trigger owner1[f]} :: 0 <= f < |owner0| && owner0[f] == Dir ==> owner1[f] == Dir
    ensures SameMapsBut(mem0, mem2, owner0, d, v)
    ensures d < |owner0| && owner0[d] == Dir && v < NPAGES ==> Entry(mem2, d, v) == Entry(mem1, d, v)
  {
    hide Entry, Pde;
    forall e: nat, u: nat | e < |owner0| && owner0[e] == Dir && u < NPAGES && (e != d || u != v)
      ensures Entry(mem2, e, u) == Entry(mem0, e, u)
    {
      assert Entry(mem1, e, u) == Entry(mem0, e, u) && owner1[e] == Dir;
    }
    assert d < |owner0| && owner0[d] == Dir ==> owner1[d] == Dir;
  }

  /** User pages lo to hi of directory d are unmapped and back on the free list; nothing else has changed. */
  ghost predicate Unmaps(mem0: Memory, owner0: seq<Owner>, mem: Memory, owner: seq<Owner>, d: nat, lo: nat, hi: nat) {
    && owner == Released(owner0, d, lo, hi) && KeptBy(mem0, mem, owner, d)
    && SameMapsOutside(mem0, mem, owner0, d, lo, hi)
    && forall v {:trigger Entry(mem, d, v)} :: lo <= v < hi ==> Entry(mem, d, v) == 0
  }

  lemma UnmapsNothing(mem: Memory, owner: seq<Owner>, d: nat, lo: nat, hi: nat)
    requires |mem| == |owner| && hi <= lo
    ensures Unmaps(mem, owner, mem, owner, d, lo, hi)
  {
    assert Released(owner, d, lo, hi) == owner;
  }

  /** Passing over pages that are not mapped. */
  lemma UnmapsAbsent(mem0: Memory, owner0: seq<Owner>, mem: Memory, owner: seq<Owner>, d: nat, lo: nat, v: nat, w: nat)
    requires Unmaps(mem0, owner0, mem, owner, d, lo, v) && Owned(mem, owner) && d < NFRAMES && owner[d] == Dir
    requires lo <= v <= w <= USERPAGES && forall u {:trigger Entry(mem, d, u)} :: v <= u < w ==> Entry(mem, d, u) == 0
    ensures Unmaps(mem0, owner0, mem, owner, d, lo, w)
  {
    hide Entry, Pde;
    ReleasedAbsent(mem, owner, owner0, d, lo, v, w);
  }

  /** One more page unmapped. */
  lemma UnmapsOne(mem0: Memory, owner0: seq<Owner>, mem1: Memory, owner1: seq<Owner>, mem2: Memory, owner2: seq<Owner>,
                  d: nat, lo: nat, v: nat)
    requires Unmaps(mem0, owner0, mem1, owner1, d, lo, v) && Owned(mem1, owner1) && d < NFRAMES && owner1[d] == Dir
    requires lo <= v < USERPAGES && Entry(mem1, d, v) != 0 && FrameOf(Entry(mem1, d, v)) < NFRAMES
    requires owner2 == owner1[FrameOf(Entry(mem1, d, v)) := Free]
    requires Entry(mem2, d, v) == 0 && SameMapsBut(mem1, mem2, owner1, d, v) && KeptBy(mem1, mem2, owner2, d)
    ensures Unmaps(mem0, owner0, mem2, owner2, d, lo, v + 1)
  {
    hide Entry, Pde;
    ReleasedOne(mem1, owner1, owner0, d, lo, v);
    forall e: nat, u: nat | e < |owner0| && owner0[e] == Dir && u < NPAGES && (e != d || u < lo || v + 1 <= u)
      ensures Entry(mem2, e, u) == Entry(mem0, e, u)
    {
      assert Entry(mem1, e, u) == Entry(mem0, e, u) && owner1[e] == Dir;
    }
    forall u | lo <= u < v + 1 ensures Entry(mem2, d, u) == 0 { assert u < v ==> Entry(mem1, d, u) == 0; }
    forall f | 0 <= f < |mem0| && owner2[f] != Free && !(owner2[f].Table? && owner2[f].dir == d)
      ensures mem2[f] == mem0[f]
    {
      assert mem1[f] == mem0[f];
    }
  }

  /** The frames from f on that m pages from v are mapped to, as far as those are user pages of directory d. */
  function WithUsers(owner: seq<Owner>, d: nat, v: nat, f: nat, m: nat): (r: seq<Owner>)
    ensures |r| == |owner|
  {
    seq(|owner|, g requires 0 <= g < |owner| =>
      if f <= g < f + m && v + (g - f) < USERPAGES then User(d, v + (g - f)) else owner[g])
  }

  /** The first m pages of a mappages are mapped. */
  ghost predicate MappedRun(mem0: Memory, owner0: seq<Owner>, mem: Memory, owner: seq<Owner>,
                            d: nat, v: nat, f: nat, perm: nat, m: nat) {
    && perm < PGSIZE
    && (forall g {:trigger owner0[g]} :: f <= g < f + m && g < |owner0| && v + (g - f) < USERPAGES ==>
          owner0[g] == Loose)
    && (forall u {:trigger Entry(mem, d, u)} :: v <= u < v + m ==> Entry(mem, d, u) == Pte(f + (u - v), perm))
    && SameMapsOutside(mem0, mem, owner0, d, v, v + m) && Aside(mem0, owner0, mem, d)
    && Grown(WithUsers(owner0, d, v, f, m), owner, d)
  }

  lemma RunStarts(mem: Memory, owner: seq<Owner>, d: nat, v: nat, f: nat, perm: nat)
    requires |mem| == |owner| && perm < PGSIZE
    ensures MappedRun(mem, owner, mem, owner, d, v, f, perm, 0)
  {
    assert WithUsers(owner, d, v, f, 0) == owner;
  }

  /** Page m of the run is still to be mapped. */
  lemma RunFits(mem0: Memory, owner0: seq<Owner>, mem: Memory, owner: seq<Owner>,
                d: nat, v: nat, f: nat, perm: nat, m: nat)
    requires MappedRun(mem0, owner0, mem, owner, d, v, f, perm, m)
    requires d < |owner0| && owner0[d] == Dir && v + m < NPAGES && Entry(mem0, d, v + m) == 0
    requires v + m < USERPAGES ==> f + m < |owner0| && owner0[f + m] == Loose
    ensures Entry(mem, d, v + m) == 0 && |owner| == |owner0|
    ensures v + m < USERPAGES ==> owner[f + m] == Loose
  {
    hide Entry, Pte;
  }

  lemma RunGrows(mem0: Memory, owner0: seq<Owner>, mem1: Memory, owner1: seq<Owner>, mem2: Memory, owner2: seq<Owner>,
                 d: nat, v: nat, f: nat, perm: nat, m: nat)
    requires MappedRun(mem0, owner0, mem1, owner1, d, v, f, perm, m) && d < |owner0| && owner0[d] == Dir
    requires owner1[d] == Dir
    requires v + m < NPAGES && (v + m < USERPAGES ==> f + m < |owner0| && owner0[f + m] == Loose)
    requires Entry(mem2, d, v + m) == Pte(f + m, perm) && SameMapsBut(mem1, mem2, owner1, d, v + m)
    requires Aside(mem1, owner1, mem2, d)
    requires Grown(if v + m < USERPAGES then owner1[f + m := User(d, v + m)] else owner1, owner2, d)
    ensures MappedRun(mem0, owner0, mem2, owner2, d, v, f, perm, m + 1)
  {
    hide Entry, Pte;
    var w1, w2 := WithUsers(owner0, d, v, f, m), WithUsers(owner0, d, v, f, m + 1);
    assert w2 == if v + m < USERPAGES then w1[f + m := User(d, v + m)] else w1;
    forall g | 0 <= g < |owner0|
      ensures owner2[g] == w2[g] || (w2[g] == Free && owner2[g].Table? && owner2[g].dir == d)
    {
      assert owner1[g] == w1[g] || (w1[g] == Free && owner1[g].Table? && owner1[g].dir == d);
    }
    forall e: nat, u: nat | e < |owner0| && owner0[e] == Dir && u < NPAGES && (e != d || u < v || v + m + 1 <= u)
      ensures Entry(mem2, e, u) == Entry(mem0, e, u)
    {
      assert Entry(mem1, e, u) == Entry(mem0, e, u);
      assert w1[e] == Dir && owner1[e] == Dir;
    }
    forall u | v <= u < v + m + 1 ensures Entry(mem2, d, u) == Pte(f + (u - v), perm) {
      if u < v + m { assert Entry(mem1, d, u) == Pte(f + (u - v), perm); }
    }
    forall g | 0 <= g < |mem0| && owner0[g] != Free && g != d && !(owner0[g].Table? && owner0[g].dir == d)
      ensures mem2[g] == mem0[g]
    {
      assert mem1[g] == mem0[g];
      assert owner1[g] == w1[g];
    }
  }

  /** Virtual page v of d is mapped to frame f, which was free and now holds `page`; more tables may be in use. */
  ghost predicate PageNew(mem0: Memory, owner0: seq<Owner>, mem: Memory, owner: seq<Owner>,
                          d: nat, v: nat, f: nat, perm: nat, page: Page) {
    && |mem| == |owner| == |owner0| && f < |owner| && perm < PGSIZE && owner0[f] == Free && mem[f] == page
    && Entry(mem, d, v) == Pte(f, perm) && SameMapsBut(mem0, mem, owner0, d, v) && Aside(mem0, owner0, mem, d)
    && Grown(owner0[f := User(d, v)], owner, d)
  }

  /** There was no page, or page f was taken but could not be mapped. */
  ghost predicate PageRefused(mem0: Memory, owner0: seq<Owner>, mem: Memory, owner: seq<Owner>, d: nat, f: nat) {
    && |mem| == |owner| == |owner0| && SameMaps(mem0, mem, owner0) && Aside(mem0, owner0, mem, d)
    && if f == 0 then Grown(owner0, owner, d)
       else f < |owner| && owner0[f] == Free && owner[f] == Loose && Grown(owner0[f := Loose], owner, d)
  }

  lemma NothingRefused(mem: Memory, owner: seq<Owner>, d: nat)
    requires |mem| == |owner|
    ensures PageRefused(mem, owner, mem, owner, d, 0)
  {
  }

  lemma RunOfOne(mem0: Memory, owner0: seq<Owner>, mem1: Memory, owner1: seq<Owner>, mem2: Memory, owner2: seq<Owner>,
                 d: nat, v: nat, f: nat, perm: nat, m: nat, page: Page)
    requires |mem0| == |owner0| == NFRAMES && f < NFRAMES && owner0[f] == Free && SameMaps(mem0, mem1, owner0)
    requires v < USERPAGES
    requires mem1 == mem0[f := page] && owner1 == owner0[f := Loose] && f != 0
    requires MappedRun(mem1, owner1, mem2, owner2, d, v, f, perm, m) && m <= 1 && d < NFRAMES && owner0[d] == Dir
    ensures m == 1 ==> PageNew(mem0, owner0, mem2, owner2, d, v, f, perm, page)
    ensures m == 0 ==> PageRefused(mem0, owner0, mem2, owner2, d, f)
  {
    hide Entry, Pte;
    var w := WithUsers(owner1, d, v, f, m);
    assert w == if m == 1 then owner0[f := User(d, v)] else owner1;
    forall e: nat, u: nat | e < |owner0| && owner0[e] == Dir && u < NPAGES && (e != d || u < v || v + m <= u)
      ensures Entry(mem2, e, u) == Entry(mem0, e, u)
    {
      assert Entry(mem1, e, u) == Entry(mem0, e, u) && owner1[e] == Dir;
    }
    forall g | 0 <= g < NFRAMES && owner0[g] != Free && g != d && !(owner0[g].Table? && owner0[g].dir == d)
      ensures mem2[g] == mem0[g]
    {
      assert owner1[g] == owner0[g];
    }
    assert owner1[f] == Loose && mem2[f] == mem1[f];
    assert owner2[f] == w[f];
  }

  /** How memory differs while directory d is given pages lo to hi: those are new, x is a page in hand (0 for
      none), and the rest of the pages taken from the free list are tables of d. */
  ghost predicate Grows(mem0: Memory, owner0: seq<Owner>, mem: Memory, owner: seq<Owner>, d: nat, lo: nat, hi: nat,
                        x: nat) {
    && |owner| == |owner0| && Aside(mem0, owner0, mem, d) && SameMapsOutside(mem0, mem, owner0, d, lo, hi)
    && forall f {:trigger owner[f]} :: 0 <= f < |owner0| ==>
         || owner[f] == owner0[f]
         || (owner0[f] == Free && owner[f].Table? && owner[f].dir == d)
         || (owner0[f] == Free && owner[f].User? && owner[f].dir == d && lo <= owner[f].v < hi)
         || (owner0[f] == Free && owner[f] == Loose && f == x != 0)
  }

  lemma GrowsNot(mem: Memory, owner: seq<Owner>, d: nat, lo: nat)
    requires |mem| == |owner|
    ensures Grows(mem, owner, mem, owner, d, lo, lo, 0) && Zeroed(mem, d, lo, lo)
  {
  }

  lemma GrowsRoom(mem0: Memory, owner0: seq<Owner>, mem: Memory, owner: seq<Owner>, d: nat, lo: nat, v: nat)
    requires Grows(mem0, owner0, mem, owner, d, lo, v, 0) && d < |owner0| && owner0[d] == Dir && v < NPAGES
    ensures Entry(mem, d, v) == Entry(mem0, d, v)
  {
  }

  lemma GrowsOne(mem0: Memory, owner0: seq<Owner>, mem1: Memory, owner1: seq<Owner>, mem2: Memory, owner2: seq<Owner>,
                 d: nat, lo: nat, v: nat, f: nat, perm: nat, page: Page)
    requires Grows(mem0, owner0, mem1, owner1, d, lo, v, 0) && lo <= v
    requires PageNew(mem1, owner1, mem2, owner2, d, v, f, perm, page)
    requires d < |owner0| && owner0[d] == Dir
    ensures Grows(mem0, owner0, mem2, owner2, d, lo, v + 1, 0)
  {
    hide Entry, Pte;
    forall e: nat, u: nat | e < |owner0| && owner0[e] == Dir && u < NPAGES && (e != d || u < lo || v + 1 <= u)
      ensures Entry(mem2, e, u) == Entry(mem0, e, u)
    {
      assert Entry(mem1, e, u) == Entry(mem0, e, u) && owner1[e] == Dir;
    }
    AsideTwice(mem0, owner0, mem1, owner1, mem2, d, lo, v, 0);
    assert owner1[f] == Free && owner0[f] == Free;
    forall g | 0 <= g < |owner0| ensures
      || owner2[g] == owner0[g]
      || (owner0[g] == Free && owner2[g].Table? && owner2[g].dir == d)
      || (owner0[g] == Free && owner2[g].User? && owner2[g].dir == d && lo <= owner2[g].v < v + 1)
    {
      var _ := owner1[g];
    }
  }

  lemma AsideTwice(mem0: Memory, owner0: seq<Owner>, mem1: Memory, owner1: seq<Owner>, mem2: Memory,
                   d: nat, lo: nat, hi: nat, x: nat)
    requires Grows(mem0, owner0, mem1, owner1, d, lo, hi, x) && Aside(mem1, owner1, mem2, d)
    ensures Aside(mem0, owner0, mem2, d)
  {
    forall g | 0 <= g < |mem0| && owner0[g] != Free && g != d && !(owner0[g].Table? && owner0[g].dir == d)
      ensures mem2[g] == mem0[g]
    {
      assert owner1[g] == owner0[g] && mem1[g] == mem0[g];
    }
  }

  lemma GrowsRefused(mem0: Memory, owner0: seq<Owner>, mem1: Memory, owner1: seq<Owner>, mem2: Memory,
                     owner2: seq<Owner>,
                     d: nat, lo: nat, v: nat, f: nat)
    requires Grows(mem0, owner0, mem1, owner1, d, lo, v, 0) && PageRefused(mem1, owner1, mem2, owner2, d, f)
    requires d < |owner0| <= NFRAMES && owner0[d] == Dir
    ensures Grows(mem0, owner0, mem2, owner2, d, lo, v, f)
    ensures f != 0 ==> f < |owner0| && owner2[f] == Loose && owner0[f] == Free
  {
    hide Entry;
    forall e: nat, u: nat | e < |owner0| && owner0[e] == Dir && u < NPAGES && (e != d || u < lo || v <= u)
      ensures Entry(mem2, e, u) == Entry(mem0, e, u)
    {
      assert Entry(mem1, e, u) == Entry(mem0, e, u) && owner1[e] == Dir;
    }
    AsideTwice(mem0, owner0, mem1, owner1, mem2, d, lo, v, 0);
    if f != 0 { assert owner1[f] == Free && owner0[f] == Free; }
    forall g | 0 <= g < |owner0| ensures
      || owner2[g] == owner0[g]
      || (owner0[g] == Free && owner2[g].Table? && owner2[g].dir == d)
      || (owner0[g] == Free && owner2[g].User? && owner2[g].dir == d && lo <= owner2[g].v < v)
      || (owner0[g] == Free && owner2[g] == Loose && g == f != 0)
    {
      var _ := owner1[g];
    }
  }

  /** deallocuvm undoes what has been mapped so far. */
  lemma GrowsBack(mem0: Memory, owner0: seq<Owner>, mem1: Memory, owner1: seq<Owner>, mem2: Memory, owner2: seq<Owner>,
                  d: nat, lo: nat, v: nat, hi: nat, f: nat)
    requires Grows(mem0, owner0, mem1, owner1, d, lo, v, f) && Unmaps(mem1, owner1, mem2, owner2, d, lo, hi)
    requires lo <= v <= hi
    requires Owned(mem0, owner0) && d < NFRAMES && owner0[d] == Dir && hi <= USERPAGES
    requires forall u {:trigger Entry(mem0, d, u)} :: lo <= u < hi ==> Entry(mem0, d, u) == 0
    ensures Grows(mem0, owner0, mem2, owner2, d, 0, 0, f) && |owner1| == |owner2| == |owner0|
    ensures f < |owner0| && owner1[f] == Loose ==> owner2[f] == Loose
  {
    hide Entry, Pde, TablesOwned, UsersOwned;
    forall e: nat, u: nat | e < |owner0| && owner0[e] == Dir && u < NPAGES
      ensures Entry(mem2, e, u) == Entry(mem0, e, u)
    {
      if e != d || u < lo || hi <= u { assert Entry(mem1, e, u) == Entry(mem0, e, u) && owner1[e] == Dir; }
    }
    forall g | 0 <= g < NFRAMES && owner0[g].User? && owner0[g].dir == d ensures !(lo <= owner0[g].v < hi) {}
    forall g | 0 <= g < NFRAMES ensures
      || owner2[g] == owner0[g]
      || (owner0[g] == Free && owner2[g].Table? && owner2[g].dir == d)
      || (owner0[g] == Free && owner2[g] == Loose && g == f != 0)
    {
      var _ := owner1[g];
    }
    forall g | 0 <= g < NFRAMES && owner0[g] != Free && g != d && !(owner0[g].Table? && owner0[g].dir == d)
      ensures mem2[g] == mem0[g]
    {
      assert owner1[g] == owner0[g] == owner2[g] && mem1[g] == mem0[g];
    }
  }

  lemma GrowsReturn(mem0: Memory, owner0: seq<Owner>, mem1: Memory, owner1: seq<Owner>, mem2: Memory,
                    owner2: seq<Owner>,
                    d: nat, f: nat)
    requires Grows(mem0, owner0, mem1, owner1, d, 0, 0, f) && 0 < f < |owner0| <= NFRAMES && owner0[f] == Free
    requires owner2 == owner1[f := Free] && SameMaps(mem1, mem2, owner1)
    requires |mem2| == |mem1| && forall g {:trigger mem2[g]} :: 0 <= g < |mem1| && g != f ==> mem2[g] == mem1[g]
    ensures Grows(mem0, owner0, mem2, owner2, d, 0, 0, 0)
  {
    hide Entry;
    forall e: nat, u: nat | e < |owner0| && owner0[e] == Dir && u < NPAGES
      ensures Entry(mem2, e, u) == Entry(mem0, e, u)
    {
      assert Entry(mem1, e, u) == Entry(mem0, e, u) && owner1[e] == Dir;
    }
  }

  /** Pages lo to hi of directory d are mapped, writable by the user, to pages of zeros. */
  ghost predicate Zeroed(mem: Memory, d: nat, lo: nat, hi: nat) {
    forall u {:trigger Entry(mem, d, u)} :: lo <= u < hi ==>
      && Entry(mem, d, u) != 0 && FlagsOf(Entry(mem, d, u)) == PTE_P + PTE_W + PTE_U
      && FrameOf(Entry(mem, d, u)) < |mem| && mem[FrameOf(Entry(mem, d, u))] == Zeros()
  }

  lemma ZeroedOne(mem1: Memory, owner1: seq<Owner>, mem2: Memory, owner2: seq<Owner>, d: nat, lo: nat, v: nat, f: nat)
    requires Owned(mem1, owner1) && d < NFRAMES && owner1[d] == Dir && v < USERPAGES && Zeroed(mem1, d, lo, v)
    requires PageNew(mem1, owner1, mem2, owner2, d, v, f, PTE_W + PTE_U, Zeros())
    ensures Zeroed(mem2, d, lo, v + 1)
  {
    hide Entry, Zeros, NoneLost, TablesOwned;
    forall u | lo <= u < v
      ensures Entry(mem2, d, u) == Entry(mem1, d, u) && mem2[FrameOf(Entry(mem1, d, u))] == Zeros()
    {
      assert Entry(mem1, d, u) != 0;
    }
  }

  /** After deallocuvm, freevm has freed the tables of directory d below entry i. */
  function Dying(owner: seq<Owner>, d: nat, i: nat): (r: seq<Owner>)
    ensures |r| == |owner|
  {
    seq(|owner|, f requires 0 <= f < |owner| =>
      if f == d then Loose
      else if owner[f].Table? && owner[f].dir == d then (if owner[f].i < i then Free else Loose)
      else owner[f])
  }

  /** Everything that belongs to directory d has gone back to the free list. */
  function Disowned(owner: seq<Owner>, d: nat): (r: seq<Owner>)
    ensures |r| == |owner|
  {
    seq(|owner|, f requires 0 <= f < |owner| =>
      if f == d || (owner[f].Table? && owner[f].dir == d) || (owner[f].User? && owner[f].dir == d) then Free
      else owner[f])
  }

  /** Entry i of the directory refers to the only table that belongs to entry i. */
  lemma DyingStep(mem1: Memory, owner1: seq<Owner>, mem: Memory, d: nat, i: nat)
    requires Owned(mem1, owner1) && d < NFRAMES && owner1[d] == Dir && i < NENTRIES && d < |mem| && mem[d] == mem1[d]
    ensures |mem[d]| == NENTRIES && !Present(mem[d][i]) ==> Dying(owner1, d, i + 1) == Dying(owner1, d, i)
    ensures |mem[d]| == NENTRIES && Present(mem[d][i]) ==>
      var t := FrameOf(mem[d][i]);
      && t < NFRAMES && t != d && Dying(owner1, d, i)[t] == Loose
      && Dying(owner1, d, i + 1) == Dying(owner1, d, i)[t := Free]
    ensures |mem[d]| == NENTRIES
  {
    hide Entry;
    assert Pde(mem1, d, i) == mem[d][i];
    forall f | 0 <= f < NFRAMES && owner1[f] == Table(d, i) ensures Present(mem[d][i]) && FrameOf(mem[d][i]) == f {}
  }

  lemma DyingDone(mem0: Memory, owner0: seq<Owner>, mem1: Memory, owner1: seq<Owner>, mem2: Memory, owner2: seq<Owner>,
                  d: nat)
    requires Unmaps(mem0, owner0, mem1, owner1, d, 0, USERPAGES) && Owned(mem0, owner0) && Owned(mem1, owner1)
    requires d < NFRAMES && owner0[d] == Dir && owner2 == Dying(owner1, d, NENTRIES)[d := Free]
    requires |mem2| == NFRAMES
    requires forall f {:trigger mem2[f]} :: 0 <= f < NFRAMES && owner2[f] != Free ==> mem2[f] == mem1[f]
    ensures owner2 == Disowned(owner0, d)
    ensures forall f {:trigger mem2[f]} :: 0 <= f < NFRAMES && owner2[f] != Free ==> mem2[f] == mem0[f]
  {
    hide Entry, Pde, TablesOwned, UsersOwned;
    forall f | 0 <= f < NFRAMES ensures owner2[f] == Disowned(owner0, d)[f] {
      assert owner1[f] == Released(owner0, d, 0, USERPAGES)[f];
    }
  }

  // ---------- Copies ----------

  const EXTMEM: nat := 0x100             // in pages
  const DEVSPACE: nat := 0xFE000         // in pages

  /** A row of kmap, in pages. */
  datatype Row = Row(virt: nat, n: nat, phys: nat, perm: nat)

  function Kmap(data: nat, i: nat): (r: Row)
    requires EXTMEM < data < NFRAMES && i < 4
    ensures r.n > 0 && USERPAGES <= r.virt && r.virt + r.n <= NPAGES && r.perm < PGSIZE
    ensures Limit(data, i) <= r.virt && r.virt + r.n == Limit(data, i + 1)
    ensures forall u :: Limit(data, i) <= u < Limit(data, i + 1) ==>
      KernelEntry(data, u) == if u < r.virt then 0 else Pte(r.phys + (u - r.virt), r.perm)
  {
    if i == 0 then Row(USERPAGES, EXTMEM, 0, PTE_W)
    else if i == 1 then Row(USERPAGES + EXTMEM, data - EXTMEM, EXTMEM, 0)
    else if i == 2 then Row(USERPAGES + data, NFRAMES - data, data, PTE_W)
    else Row(DEVSPACE, NPAGES - DEVSPACE, DEVSPACE, PTE_W)
  }

  /** Where the first i rows of kmap end. */
  function Limit(data: nat, i: nat): nat {
    if i == 0 then USERPAGES
    else if i == 1 then USERPAGES + EXTMEM
    else if i == 2 then USERPAGES + data
    else if i == 3 then USERPAGES + NFRAMES
    else NPAGES
  }

  /** The kernel's mapping of page u: all physical memory from KERNBASE on, its text read-only, and the devices. */
  function KernelEntry(data: nat, u: nat): nat {
    if u < USERPAGES then 0
    else if u < USERPAGES + NFRAMES then
      Pte(u - USERPAGES, if EXTMEM <= u - USERPAGES < data then 0 else PTE_W)
    else if u < DEVSPACE then 0
    else Pte(u, PTE_W)
  }

  /** Directory d has the kernel's mappings for the pages below limit, and none above. */
  ghost predicate KernelBelow(mem: Memory, d: nat, data: nat, limit: nat) {
    forall u {:trigger Entry(mem, d, u)} :: USERPAGES <= u < NPAGES ==>
      Entry(mem, d, u) == if u < limit then KernelEntry(data, u) else 0
  }

  /** What was in use still is, by the same owner and with the same contents. */
  ghost predicate Untouched(mem0: Memory, owner0: seq<Owner>, mem: Memory, owner: seq<Owner>) {
    && |mem| == |mem0| == |owner| == |owner0|
    && (forall f {:trigger owner[f]} :: 0 <= f < |owner0| && owner0[f] != Free ==> owner[f] == owner0[f])
    && (forall f {:trigger mem[f]} :: 0 <= f < |owner0| && owner0[f] != Free ==> mem[f] == mem0[f])
  }

  /** What was in use is untouched; the pages taken since belong to directory d, whose user pages are below hi,
      but for page x, which is in hand (0 for none). User pages of d from hi on are not mapped. */
  ghost predicate Clones(mem0: Memory, owner0: seq<Owner>, mem: Memory, owner: seq<Owner>, d: nat, hi: nat, x: nat) {
    && Untouched(mem0, owner0, mem, owner) && d < |owner0| && owner0[d] == Free && owner[d] == Dir
    && (forall f {:trigger owner[f]} :: 0 <= f < |owner0| && owner0[f] == Free ==>
          || owner[f] == Free || f == d || (owner[f].Table? && owner[f].dir == d)
          || (owner[f].User? && owner[f].dir == d && owner[f].v < hi) || (owner[f] == Loose && f == x != 0))
    && (forall u {:trigger Entry(mem, d, u)} :: hi <= u < USERPAGES ==> Entry(mem, d, u) == 0)
  }

  /** The first hi pages of d hold what those of s held in mem0, with the same flags. */
  ghost predicate Copied(mem0: Memory, s: nat, mem: Memory, d: nat, hi: nat) {
    forall u {:trigger Entry(mem, d, u)} :: 0 <= u < hi ==>
      && Entry(mem, d, u) != 0 && FlagsOf(Entry(mem, d, u)) == FlagsOf(Entry(mem0, s, u))
      && FrameOf(Entry(mem, d, u)) < |mem| && FrameOf(Entry(mem0, s, u)) < |mem0|
      && mem[FrameOf(Entry(mem, d, u))] == mem0[FrameOf(Entry(mem0, s, u))]
  }

  lemma UntouchedNot(mem: Memory, owner: seq<Owner>)
    requires |mem| == |owner|
    ensures Untouched(mem, owner, mem, owner)
  {
  }

  lemma ClonesStart(mem0: Memory, owner0: seq<Owner>, mem: Memory, owner: seq<Owner>, d: nat, data: nat)
    requires |mem0| == |owner0| == NFRAMES && 0 < d < NFRAMES && owner0[d] == Free
    requires mem == mem0[d := Zeros()] && owner == owner0[d := Loose][d := Dir]
    requires forall v {:trigger Entry(mem, d, v)} :: 0 <= v < NPAGES ==> Entry(mem, d, v) == 0
    ensures Clones(mem0, owner0, mem, owner, d, 0, 0) && KernelBelow(mem, d, data, Limit(data, 0))
  {
  }

  lemma RowFree(mem: Memory, d: nat, data: nat, i: nat)
    requires EXTMEM < data < NFRAMES && i < 4 && KernelBelow(mem, d, data, Limit(data, i))
    ensures forall u {:trigger Entry(mem, d, u)} :: Kmap(data, i).virt <= u < Kmap(data, i).virt + Kmap(data, i).n ==>
      Entry(mem, d, u) == 0
  {
    hide Entry, KernelEntry;
  }

  lemma RowMapped(mem1: Memory, owner1: seq<Owner>, mem2: Memory, owner2: seq<Owner>, d: nat, data: nat, i: nat)
    requires EXTMEM < data < NFRAMES && i < 4 && KernelBelow(mem1, d, data, Limit(data, i)) && d < |owner1|
    requires owner1[d] == Dir
    requires var row := Kmap(data, i); MappedRun(mem1, owner1, mem2, owner2, d, row.virt, row.phys, row.perm, row.n)
    ensures KernelBelow(mem2, d, data, Limit(data, i + 1))
  {
    hide Entry, KernelEntry, Pte;
    var row := Kmap(data, i);
    forall u | USERPAGES <= u < NPAGES
      ensures Entry(mem2, d, u) == if u < Limit(data, i + 1) then KernelEntry(data, u) else 0
    {
      if u < row.virt || row.virt + row.n <= u { assert Entry(mem2, d, u) == Entry(mem1, d, u); }
    }
  }

  /** Kernel pages leave user pages, and everything that was in use, alone. */
  lemma ClonesRun(mem0: Memory, owner0: seq<Owner>, mem1: Memory, owner1: seq<Owner>, mem2: Memory, owner2: seq<Owner>,
                  d: nat, hi: nat, row: Row, m: nat)
    requires Clones(mem0, owner0, mem1, owner1, d, hi, 0) && USERPAGES <= row.virt && Owned(mem0, owner0)
    requires MappedRun(mem1, owner1, mem2, owner2, d, row.virt, row.phys, row.perm, m) && |owner2| == |owner0|
    requires owner2[d] == Dir
    ensures Clones(mem0, owner0, mem2, owner2, d, hi, 0)
  {
    hide Entry, Pte, Pde, TablesOwned, UsersOwned;
    assert WithUsers(owner1, d, row.virt, row.phys, m) == owner1;
    ClonesMore(mem0, owner0, mem1, owner1, mem2, d);
    forall u | hi <= u < USERPAGES ensures Entry(mem2, d, u) == 0 {
      assert Entry(mem1, d, u) == 0 && owner1[d] == Dir;
    }
  }

  /** Changes aside from directory d leave everything untouched that was in use before d. */
  lemma ClonesMore(mem0: Memory, owner0: seq<Owner>, mem1: Memory, owner1: seq<Owner>, mem2: Memory, d: nat)
    requires Untouched(mem0, owner0, mem1, owner1) && Owned(mem0, owner0) && d < NFRAMES && owner0[d] == Free
    requires Aside(mem1, owner1, mem2, d)
    ensures forall f {:trigger mem2[f]} :: 0 <= f < NFRAMES && owner0[f] != Free ==> mem2[f] == mem0[f]
  {
    hide Entry, Pde, TablesOwned, UsersOwned;
    forall f | 0 <= f < NFRAMES && owner0[f] != Free ensures mem2[f] == mem0[f] {
      assert owner1[f] == owner0[f] && mem1[f] == mem0[f];
    }
  }

  lemma ClonesUndone(mem0: Memory, owner0: seq<Owner>, mem1: Memory, owner1: seq<Owner>, mem2: Memory,
                     owner2: seq<Owner>,
                     d: nat, hi: nat)
    requires Clones(mem0, owner0, mem1, owner1, d, hi, 0) && Owned(mem0, owner0) && owner2 == Disowned(owner1, d)
    requires |mem2| == NFRAMES
    requires forall f {:trigger mem2[f]} :: 0 <= f < NFRAMES && owner2[f] != Free ==> mem2[f] == mem1[f]
    ensures owner2 == owner0 && Untouched(mem0, owner0, mem2, owner2)
  {
    hide Entry, Pde, TablesOwned, UsersOwned;
    forall f | 0 <= f < NFRAMES ensures owner2[f] == owner0[f] { var _ := owner1[f]; }
    forall f | 0 <= f < NFRAMES && owner0[f] != Free ensures mem2[f] == mem0[f] { assert mem1[f] == mem0[f]; }
  }

  lemma CopiedNothing(mem0: Memory, s: nat, mem: Memory, d: nat)
    ensures Copied(mem0, s, mem, d, 0)
  {
  }

  /** While d is being built, the maps of the other directories, and so the parent's, stand. */
  lemma ClonesParent(mem0: Memory, owner0: seq<Owner>, mem: Memory, owner: seq<Owner>, s: nat, d: nat, hi: nat)
    requires Clones(mem0, owner0, mem, owner, d, hi, 0) && Owned(mem0, owner0) && s < NFRAMES && owner0[s] == Dir
    ensures s != d && owner[s] == Dir
    ensures forall v {:trigger Entry(mem, s, v)} :: 0 <= v < NPAGES ==> Entry(mem, s, v) == Entry(mem0, s, v)
    ensures hi < USERPAGES ==> Entry(mem, d, hi) == 0
    ensures hi < USERPAGES && Entry(mem0, s, hi) != 0 ==>
      && FrameOf(Entry(mem0, s, hi)) < NFRAMES == |mem|
      && mem[FrameOf(Entry(mem0, s, hi))] == mem0[FrameOf(Entry(mem0, s, hi))]
  {
    hide NoneLost;
    forall v | 0 <= v < NPAGES ensures Entry(mem, s, v) == Entry(mem0, s, v) {
      var i := Pdx(v);
      assert i < NENTRIES && mem[s] == mem0[s] && Pde(mem, s, i) == Pde(mem0, s, i);
      if Present(Pde(mem0, s, i)) { assert mem[FrameOf(Pde(mem0, s, i))] == mem0[FrameOf(Pde(mem0, s, i))]; }
    }
  }

  lemma ClonesRefused(mem0: Memory, owner0: seq<Owner>, mem1: Memory, owner1: seq<Owner>, mem2: Memory,
                      owner2: seq<Owner>,
                      d: nat, v: nat, f: nat)
    requires Clones(mem0, owner0, mem1, owner1, d, v, 0) && Owned(mem0, owner0)
    requires PageRefused(mem1, owner1, mem2, owner2, d, f)
    requires owner2[d] == Dir
    ensures Clones(mem0, owner0, mem2, owner2, d, v, f)
    ensures f != 0 ==> f < NFRAMES && owner2[f] == Loose && owner0[f] == Free
  {
    hide Entry, Pde, TablesOwned, UsersOwned;
    ClonesMore(mem0, owner0, mem1, owner1, mem2, d);
    if f != 0 { assert owner1[f] == Free; }
    forall u | v <= u < USERPAGES ensures Entry(mem2, d, u) == 0 { assert Entry(mem1, d, u) == 0 && owner1[d] == Dir; }
    forall g | 0 <= g < NFRAMES && owner0[g] != Free ensures owner2[g] == owner0[g] { assert owner1[g] == owner0[g]; }
    forall g | 0 <= g < NFRAMES && owner0[g] == Free ensures
      || owner2[g] == Free || g == d || (owner2[g].Table? && owner2[g].dir == d)
      || (owner2[g].User? && owner2[g].dir == d && owner2[g].v < v) || (owner2[g] == Loose && g == f != 0)
    {
      var _ := owner1[g];
    }
  }

  lemma ClonesReturn(mem0: Memory, owner0: seq<Owner>, mem1: Memory, owner1: seq<Owner>, mem2: Memory,
                     owner2: seq<Owner>,
                     d: nat, v: nat, f: nat)
    requires Clones(mem0, owner0, mem1, owner1, d, v, f) && 0 < f < |owner0| <= NFRAMES && owner0[f] == Free && f != d
    requires owner2 == owner1[f := Free] && SameMaps(mem1, mem2, owner1) && |mem2| == |mem1|
    requires forall g {:trigger mem2[g]} :: 0 <= g < |mem1| && g != f ==> mem2[g] == mem1[g]
    ensures Clones(mem0, owner0, mem2, owner2, d, v, 0)
  {
    hide Entry;
    forall u | v <= u < USERPAGES ensures Entry(mem2, d, u) == 0 { assert Entry(mem1, d, u) == 0 && owner1[d] == Dir; }
  }

  lemma ClonesOne(mem0: Memory, owner0: seq<Owner>, mem1: Memory, owner1: seq<Owner>, mem2: Memory, owner2: seq<Owner>,
                  d: nat, data: nat, v: nat, f: nat, perm: nat, page: Page)
    requires Clones(mem0, owner0, mem1, owner1, d, v, 0) && Owned(mem0, owner0) && v < USERPAGES
    requires PageNew(mem1, owner1, mem2, owner2, d, v, f, perm, page) && KernelBelow(mem1, d, data, NPAGES)
    requires owner2[d] == Dir
    ensures Clones(mem0, owner0, mem2, owner2, d, v + 1, 0) && KernelBelow(mem2, d, data, NPAGES)
  {
    hide Entry, Pte, Pde, TablesOwned, UsersOwned, KernelEntry;
    ClonesMore(mem0, owner0, mem1, owner1, mem2, d);
    assert owner1[f] == Free;
    forall u | v + 1 <= u < NPAGES ensures Entry(mem2, d, u) == Entry(mem1, d, u) { assert owner1[d] == Dir; }
    forall g | 0 <= g < NFRAMES && owner0[g] != Free ensures owner2[g] == owner0[g] { assert owner1[g] == owner0[g]; }
    forall g | 0 <= g < NFRAMES && owner0[g] == Free ensures
      || owner2[g] == Free || g == d || (owner2[g].Table? && owner2[g].dir == d)
      || (owner2[g].User? && owner2[g].dir == d && owner2[g].v < v + 1)
    {
      var _ := owner1[g];
    }
  }

  lemma CopiedOne(mem0: Memory, owner0: seq<Owner>, mem1: Memory, owner1: seq<Owner>, mem2: Memory, owner2: seq<Owner>,
                  s: nat, d: nat, v: nat, f: nat, page: Page)
    requires Copied(mem0, s, mem1, d, v) && Owned(mem1, owner1) && d < NFRAMES && owner1[d] == Dir && v < USERPAGES
    requires FrameOf(Entry(mem0, s, v)) < |mem0| && page == mem0[FrameOf(Entry(mem0, s, v))] && Entry(mem0, s, v) != 0
    requires PageNew(mem1, owner1, mem2, owner2, d, v, f, FlagsOf(Entry(mem0, s, v)), page)
    ensures Copied(mem0, s, mem2, d, v + 1)
  {
    hide Entry, NoneLost, TablesOwned;
    assert Present(Entry(mem0, s, v));
    PresentFlags(Entry(mem0, s, v));
    assert Entry(mem2, d, v) == Pte(f, FlagsOf(Entry(mem0, s, v))) && mem2[f] == page;
    forall u | 0 <= u < v + 1
      ensures Entry(mem2, d, u) != 0 && FlagsOf(Entry(mem2, d, u)) == FlagsOf(Entry(mem0, s, u))
      ensures FrameOf(Entry(mem2, d, u)) < |mem2| && FrameOf(Entry(mem0, s, u)) < |mem0|
      ensures mem2[FrameOf(Entry(mem2, d, u))] == mem0[FrameOf(Entry(mem0, s, u))]
    {
      if u < v {
        assert Entry(mem1, d, u) != 0 && Entry(mem2, d, u) == Entry(mem1, d, u);
        assert owner1[FrameOf(Entry(mem1, d, u))] == User(d, u);
        assert mem2[FrameOf(Entry(mem1, d, u))] == mem1[FrameOf(Entry(mem1, d, u))];
      }
    }
  }

  lemma PresentFlags(e: nat)
    ensures Present(e) <==> FlagsOf(e) % 2 == 1
  {
    EvenPlus(2048 * FrameOf(e), FlagsOf(e));
  }

  /** The table entry behind a mapped page. */
  lemma MappedThere(mem: Memory, s: nat, v: nat)
    requires Entry(mem, s, v) != 0
    ensures Present(Pde(mem, s, Pdx(v))) && Entry(mem, s, v) == Word(mem, FrameOf(Pde(mem, s, Pdx(v))), Ptx(v))
  {
  }

  // ---------- How many pages an operation needs ----------

  /** The entries of a page directory that the pages lo to hi fall under. */
  function Tables(lo: nat, hi: nat): set<nat> {
    if lo < hi then Range(Pdx(lo), Pdx(hi - 1) + 1) else {}
  }

  /** Those entries among `tables` for which directory d has no page table yet. */
  function Lack(mem: Memory, d: nat, tables: set<nat>): set<nat> {
    set i | i in tables && !Present(Pde(mem, d, i))
  }

  /** Directory d has got the page tables for the entries `tables`, and no others. */
  ghost predicate Gains(mem0: Memory, mem: Memory, d: nat, tables: set<nat>) {
    forall i: nat {:trigger Pde(mem, d, i)} ::
      Present(Pde(mem, d, i)) <==> Present(Pde(mem0, d, i)) || i in tables
  }

  /** For this, and for `pages` pages besides, pages have been taken from the free list. */
  ghost predicate Takes(free0: seq<nat>, mem0: Memory, free: seq<nat>, mem: Memory, d: nat, tables: set<nat>,
                        pages: nat) {
    Gains(mem0, mem, d, tables) && |free| == |free0| - pages - |Lack(mem0, d, tables)|
  }

  lemma LackSplit(mem0: Memory, mem: Memory, d: nat, t: set<nat>, u: set<nat>)
    requires Gains(mem0, mem, d, t)
    ensures |Lack(mem0, d, t + u)| == |Lack(mem0, d, t)| + |Lack(mem, d, u)|
  {
    hide Pde;
    var first, rest := Lack(mem0, d, t), Lack(mem, d, u);
    forall i ensures i in Lack(mem0, d, t + u) <==> i in first + rest {
      if i >= 0 { var _ := Pde(mem, d, i); }
    }
    forall i | i in rest ensures i !in first { var _ := Pde(mem, d, i); }
    assert Lack(mem0, d, t + u) == first + rest && first !! rest;
  }

  lemma TakesNothing(free: seq<nat>, mem: Memory, d: nat)
    ensures Takes(free, mem, free, mem, d, {}, 0)
  {
    assert Lack(mem, d, {}) == {};
  }

  lemma TakesMore(free0: seq<nat>, mem0: Memory, free1: seq<nat>, mem1: Memory, free2: seq<nat>, mem2: Memory,
                  d: nat, t: set<nat>, u: set<nat>, p: nat, q: nat)
    requires Takes(free0, mem0, free1, mem1, d, t, p) && Takes(free1, mem1, free2, mem2, d, u, q)
    ensures Takes(free0, mem0, free2, mem2, d, t + u, p + q)
  {
    hide Pde, Lack;
    LackSplit(mem0, mem1, d, t, u);
    forall i: nat
      ensures Present(Pde(mem2, d, i)) <==> Present(Pde(mem0, d, i)) || i in t + u
    {
      var _ := Pde(mem1, d, i);
    }
  }

  /** Too few pages for a part, after what came before it, are too few for the whole. */
  lemma TakesRefused(free0: seq<nat>, mem0: Memory, free: seq<nat>, mem: Memory, d: nat,
                     t: set<nat>, p: nat, u: set<nat>, q: nat, all: set<nat>, r: nat)
    requires Takes(free0, mem0, free, mem, d, t, p) && |free| < q + |Lack(mem, d, u)|
    requires t + u <= all && p + q <= r
    ensures |free0| < r + |Lack(mem0, d, all)|
  {
    hide Pde;
    LackSplit(mem0, mem, d, t, u);
    SubsetSize(Lack(mem0, d, t + u), Lack(mem0, d, all));
  }

  /** What suffices is not negative. */
  lemma TakesEnough(free0: seq<nat>, mem0: Memory, free: seq<nat>, mem: Memory, d: nat, t: set<nat>, p: nat)
    requires Takes(free0, mem0, free, mem, d, t, p)
    ensures |free0| >= p + |Lack(mem0, d, t)| && |free| == |free0| - p - |Lack(mem0, d, t)|
  {
  }

  lemma TablesNext(lo: nat, v: nat, hi: nat)
    requires lo <= v < hi
    ensures Tables(lo, lo) == {} && Tables(lo, v) + {Pdx(v)} == Tables(lo, v + 1) <= Tables(lo, hi)
    ensures Tables(v, v + 1) == {Pdx(v)}
  {
    forall i: nat ensures i in Tables(lo, v) + {Pdx(v)} <==> i in Tables(lo, v + 1) {
      if lo < v { PdxNext(v - 1); }
    }
    PdxMonotone(v, hi - 1);
  }

  lemma PdxNext(v: nat)
    ensures Pdx(v) <= Pdx(v + 1) <= Pdx(v) + 1
  {
  }

  lemma PdxMonotone(v: nat, w: nat)
    requires v <= w
    ensures Pdx(v) <= Pdx(w)
  {
  }

  lemma SameTables(mem0: Memory, mem1: Memory, mem2: Memory, d: nat, t: set<nat>)
    requires d < |mem1| == |mem2| && mem1[d] == mem2[d]
    ensures Gains(mem0, mem1, d, t) ==> Gains(mem0, mem2, d, t)
    ensures Lack(mem1, d, t) == Lack(mem2, d, t)
  {
    forall i: nat ensures Pde(mem2, d, i) == Pde(mem1, d, i) {}
  }

  /** A page was taken that is no part of directory d. */
  lemma PageTaken(free0: seq<nat>, mem0: Memory, free: seq<nat>, mem: Memory, d: nat, t: set<nat>)
    requires d < |mem| == |mem0| && mem[d] == mem0[d] && |free| == |free0| - 1
    ensures Takes(free0, mem0, free, mem, d, {}, 1) && Lack(mem, d, t) == Lack(mem0, d, t)
  {
    SameTables(mem0, mem0, mem, d, {});
    SameTables(mem0, mem0, mem, d, t);
    assert Lack(mem0, d, {}) == {};
  }

  lemma OneLack(mem: Memory, d: nat, i: nat)
    ensures |Lack(mem, d, {i})| == if Present(Pde(mem, d, i)) then 0 else 1
  {
    assert Lack(mem, d, {i}) == if Present(Pde(mem, d, i)) then {} else {i};
  }

  /** The entries that the kernel's mappings fall under: physical memory from KERNBASE on, and the devices. */
  function KernelTables(): set<nat> {
    Range(512, 568) + Range(1016, NENTRIES)
  }

  /** setupkvm takes a directory and 64 page tables. */
  const KERNELPAGES: nat := 65

  /** The entries that the first i rows of kmap fall under. */
  function RowTables(data: nat, i: nat): set<nat>
    requires EXTMEM < data < NFRAMES && i <= 4
  {
    if i == 0 then {}
    else
      var row := Kmap(data, i - 1);
      RowTables(data, i - 1) + Tables(row.virt, row.virt + row.n)
  }

  lemma RowTablesWithin(data: nat, i: nat)
    requires EXTMEM < data < NFRAMES && i <= 4
    ensures RowTables(data, i) <= KernelTables()
  {
    if i > 0 { RowTablesWithin(data, i - 1); }
  }

  lemma RowTablesAll(data: nat)
    requires EXTMEM < data < NFRAMES
    ensures RowTables(data, 4) == KernelTables()
  {
    RowTablesWithin(data, 4);
    forall i | i in KernelTables() ensures i in RowTables(data, 4) {
      var r0, r1, r2, r3 := Kmap(data, 0), Kmap(data, 1), Kmap(data, 2), Kmap(data, 3);
      assert RowTables(data, 1) == Tables(r0.virt, r0.virt + r0.n) <= RowTables(data, 2);
      assert Tables(r1.virt, r1.virt + r1.n) <= RowTables(data, 2) <= RowTables(data, 3);
      assert Tables(r2.virt, r2.virt + r2.n) <= RowTables(data, 3) <= RowTables(data, 4);
      assert Tables(r3.virt, r3.virt + r3.n) <= RowTables(data, 4);
    }
  }

  lemma KernelTablesSize()
    ensures |KernelTables()| == KERNELPAGES - 1
  {
    RangeSize(512, 568);
    RangeSize(1016, NENTRIES);
    assert Range(512, 568) !! Range(1016, NENTRIES);
  }

  lemma KernelLack(mem: Memory, d: nat, data: nat)
    requires forall i: nat {:trigger Pde(mem, d, i)} :: Pde(mem, d, i) == 0
    ensures |Lack(mem, d, KernelTables())| == KERNELPAGES - 1
  {
    KernelTablesSize();
    assert Lack(mem, d, KernelTables()) == KernelTables();
  }

  lemma KernelTaken(free0: seq<nat>, mem0: Memory, free: seq<nat>, mem: Memory, d: nat, data: nat)
    requires EXTMEM < data < NFRAMES && Takes(free0, mem0, free, mem, d, RowTables(data, 4), 0)
    requires forall i: nat {:trigger Pde(mem0, d, i)} :: Pde(mem0, d, i) == 0
    ensures |free| == |free0| - (KERNELPAGES - 1)
    ensures forall i: nat {:trigger Pde(mem, d, i)} :: Present(Pde(mem, d, i)) <==> i in KernelTables()
  {
    RowTablesAll(data);
    KernelLack(mem0, d, data);
  }

  /** A copy of n user pages needs a table for every NENTRIES of them. */
  lemma UserLack(mem: Memory, d: nat, n: nat)
    requires n <= USERPAGES
    requires forall i: nat {:trigger Pde(mem, d, i)} :: Present(Pde(mem, d, i)) <==> i in KernelTables()
    ensures |Lack(mem, d, Tables(0, n))| == (n + NENTRIES - 1) / NENTRIES
  {
    var hi := (n + NENTRIES - 1) / NENTRIES;
    RangeSize(0, hi);
    forall i: nat ensures i in Lack(mem, d, Tables(0, n)) <==> i in Range(0, hi) {
      var _ := Pde(mem, d, i);
    }
    assert Lack(mem, d, Tables(0, n)) == Range(0, hi);
  }

  // ---------- What the mapped pages may be used for ----------

  /** Pages v to v + m may be used as perm says, and are the frames from f on. */
  ghost predicate Usable(mem: Memory, d: nat, v: nat, f: nat, perm: nat, m: nat) {
    forall u {:trigger AccessOf(mem, d, u)} :: v <= u < v + m ==>
      AccessOf(mem, d, u) == To(f + (u - v), perm / 4 % 2 == 1, perm / 2 % 2 == 1)
  }

  lemma RunUsable(mem0: Memory, owner0: seq<Owner>, mem: Memory, owner: seq<Owner>, d: nat, v: nat, f: nat, perm: nat,
                  m: nat)
    requires MappedRun(mem0, owner0, mem, owner, d, v, f, perm, m) && v + m <= NPAGES
    requires Owned(mem, owner) && d < NFRAMES && owner[d] == Dir
    ensures Usable(mem, d, v, f, perm, m)
  {
    hide Entry, AccessOf, Pte;
    forall u | v <= u < v + m
      ensures AccessOf(mem, d, u) == To(f + (u - v), perm / 4 % 2 == 1, perm / 2 % 2 == 1)
    {
      AccessByFlags(mem, owner, d, u);
      assert Entry(mem, d, u) == Pte(f + (u - v), perm);
      PteBits(f + (u - v), perm);
    }
  }

  /** Pages lo to hi may be read and written by the user, and are zero. */
  ghost predicate ZeroPages(mem: Memory, d: nat, lo: nat, hi: nat) {
    forall u {:trigger AccessOf(mem, d, u)} :: lo <= u < hi ==>
      var a := AccessOf(mem, d, u);
      a.To? && a.user && a.write && a.frame < |mem| && mem[a.frame] == Zeros()
  }

  lemma ZeroedUsable(mem: Memory, owner: seq<Owner>, d: nat, lo: nat, hi: nat)
    requires Zeroed(mem, d, lo, hi) && hi <= NPAGES && Owned(mem, owner) && d < NFRAMES && owner[d] == Dir
    ensures ZeroPages(mem, d, lo, hi)
  {
    hide Entry, AccessOf, Zeros;
    forall u | lo <= u < hi
      ensures
        var a := AccessOf(mem, d, u);
        a.To? && a.user && a.write && a.frame < |mem| && mem[a.frame] == Zeros()
    {
      AccessByFlags(mem, owner, d, u);
    }
  }

  /** The kernel alone may use the pages above KERNBASE: all of physical memory, of which it may not write its own
      text, and the devices. */
  ghost predicate KernelAccess(mem: Memory, d: nat, data: nat) {
    forall u {:trigger AccessOf(mem, d, u)} :: USERPAGES <= u < NPAGES ==>
      AccessOf(mem, d, u) ==
        if u < USERPAGES + NFRAMES then To(u - USERPAGES, false, !(EXTMEM <= u - USERPAGES < data))
        else if u < DEVSPACE then Fault
        else To(u, false, true)
  }

  lemma KernelUsable(mem: Memory, owner: seq<Owner>, d: nat, data: nat)
    requires KernelBelow(mem, d, data, NPAGES) && Owned(mem, owner) && d < NFRAMES && owner[d] == Dir
    ensures KernelAccess(mem, d, data)
  {
    hide Entry, AccessOf, Pte, UserBit, WriteBit;
    forall u | USERPAGES <= u < NPAGES
      ensures AccessOf(mem, d, u) ==
        if u < USERPAGES + NFRAMES then To(u - USERPAGES, false, !(EXTMEM <= u - USERPAGES < data))
        else if u < DEVSPACE then Fault
        else To(u, false, true)
    {
      AccessByFlags(mem, owner, d, u);
      assert Entry(mem, d, u) == KernelEntry(data, u);
      PteBits(u, PTE_W);
      if u < USERPAGES + NFRAMES {
        PteBits(u - USERPAGES, PTE_W);
        PteBits(u - USERPAGES, 0);
      }
    }
  }

  /** The first hi pages of d may be used as those of s, and hold the same. */
  ghost predicate SameAccess(mem0: Memory, s: nat, mem: Memory, d: nat, hi: nat) {
    forall u {:trigger AccessOf(mem, d, u)} :: 0 <= u < hi ==>
      var a, b := AccessOf(mem, d, u), AccessOf(mem0, s, u);
      && a.To? && b.To? && a.user == b.user && a.write == b.write && a.frame < |mem| && b.frame < |mem0|
      && mem[a.frame] == mem0[b.frame]
  }

  lemma CopiedUsable(mem0: Memory, owner0: seq<Owner>, s: nat, mem: Memory, owner: seq<Owner>, d: nat, hi: nat)
    requires Copied(mem0, s, mem, d, hi) && hi <= NPAGES
    requires forall u {:trigger Entry(mem0, s, u)} :: 0 <= u < hi ==> Entry(mem0, s, u) != 0
    requires Owned(mem0, owner0) && s < NFRAMES && owner0[s] == Dir
    requires Owned(mem, owner) && d < NFRAMES && owner[d] == Dir
    ensures SameAccess(mem0, s, mem, d, hi)
  {
    hide Entry, AccessOf;
    forall u | 0 <= u < hi
      ensures
        var a, b := AccessOf(mem, d, u), AccessOf(mem0, s, u);
        && a.To? && b.To? && a.user == b.user && a.write == b.write && a.frame < |mem| && b.frame < |mem0|
        && mem[a.frame] == mem0[b.frame]
    {
      AccessByFlags(mem, owner, d, u);
      AccessByFlags(mem0, owner0, s, u);
    }
  }

  class Vm {
    var mem: Memory
    var freelist: nat
    ghost var owner: seq<Owner>
    ghost var free: seq<nat>

    ghost predicate Valid()
      reads this
    {
      && |mem| == NFRAMES == |owner| && Owned(mem, owner) && FreeOk(mem, owner, freelist, free)
      && owner[0] == Kernel && freelist < NFRAMES
    }

    /** Memory before kinit1: the kernel is below page `first`, and nothing has been freed yet. */
    constructor (first: nat)
      requires 0 < first <= NFRAMES
      ensures Valid() && free == []
      ensures forall f :: 0 <= f < NFRAMES ==> owner[f] == if f < first then Kernel else Loose
    {
      mem, freelist := seq(NFRAMES, _ => Zeros()), 0;
      owner, free := seq(NFRAMES, f => if f < first then Kernel else Loose), [];
    }

    /** freerange, from page lo to page hi. */
    method Freerange(lo: nat, hi: nat)
      requires Valid() && lo <= hi <= NFRAMES && forall f {:trigger owner[f]} :: lo <= f < hi ==> owner[f] == Loose
      modifies this
      ensures Valid() && forall f {:trigger owner[f]} :: 0 <= f < NFRAMES ==>
        owner[f] == if lo <= f < hi then Free else old(owner)[f]
    {
      hide Owned, FreeOk, Linked;
      var p := lo;
      while p < hi
        invariant Valid() && lo <= p <= hi
        invariant forall f {:trigger owner[f]} :: 0 <= f < NFRAMES ==>
          owner[f] == if lo <= f < p then Free else old(owner)[f]
      {
        Kfree(p);
        p := p + 1;
      }
    }

    /** kalloc */
    method Kalloc() returns (f: nat)
      requires Valid()
      modifies this
      ensures Valid() && mem == old(mem)
      ensures f == 0 <==> old(free) == []
      ensures f == 0 ==> owner == old(owner) && free == old(free)
      ensures f != 0 ==> f < NFRAMES && old(owner)[f] == Free && owner == old(owner)[f := Loose]
      ensures f == old(freelist) && (f != 0 ==> old(free) == [f] + free)
    {
      f := freelist;
      if f != 0 {
        Popped(mem, owner, freelist, free);
        ChangeHeld(mem, owner, f, mem[f], Loose);
        assert mem[f := mem[f]] == mem;
        freelist := mem[f][0];
        owner, free := owner[f := Loose], free[1..];
      }
    }

    /** kfree */
    method Kfree(f: nat)
      requires Valid() && f < NFRAMES && owner[f] == Loose
      modifies this
      ensures Valid() && mem == old(mem)[f := Junk(old(freelist))] && owner == old(owner)[f := Free]
      ensures SameMaps(old(mem), mem, old(owner)) && freelist == f && free == [f] + old(free)
    {
      Pushed(mem, owner, freelist, free, f, Junk(freelist));
      ChangeHeld(mem, owner, f, Junk(freelist), Free);
      mem, freelist := mem[f := Junk(freelist)], f;
      owner, free := owner[f := Free], [f] + free;
    }

    /** memset(f, 0, PGSIZE) */
    method Clear(f: nat)
      requires Valid() && f < NFRAMES && owner[f] == Loose
      modifies this`mem
      ensures Valid() && mem == old(mem)[f := Zeros()] && SameMaps(old(mem), mem, owner)
    {
      ChangeHeld(mem, owner, f, Zeros(), Loose);
      assert owner[f := Loose] == owner;
      FreeElsewhere(mem, mem[f := Zeros()], owner, owner, freelist, free);
      mem := mem[f := Zeros()];
    }

    /** walkpgdir, for virtual page v. */
    method Walkpgdir(d: nat, v: nat, alloc: bool) returns (slot: Slot)
      requires Valid() && d < NFRAMES && owner[d] == Dir && v < NPAGES
      modifies this
      ensures Valid() && SameMaps(old(mem), mem, old(owner)) && Aside(old(mem), old(owner), mem, d)
      ensures Grown(old(owner), owner, d)
      ensures !alloc || slot.Null? ==> mem == old(mem) && owner == old(owner) && free == old(free)
      ensures alloc && slot.At? ==> Takes(old(free), old(mem), free, mem, d, {Pdx(v)}, 0)
      ensures slot.Null? ==> !Present(Pde(mem, d, Pdx(v))) && (alloc ==> free == [])
      ensures slot.At? ==>
        && Present(Pde(mem, d, Pdx(v))) && slot == At(FrameOf(Pde(mem, d, Pdx(v))), Ptx(v))
        && slot.table < NFRAMES && owner[slot.table] == Table(d, Pdx(v))
        && FlagsOf(Pde(mem, d, Pdx(v))) == PTE_P + PTE_W + PTE_U
    {
      var e := mem[d][Pdx(v)];
      assert Pde(mem, d, Pdx(v)) == e;
      OneLack(mem, d, Pdx(v));
      if Present(e) {
        ghost var t := TableAt(mem, owner, d, v);
        return At(FrameOf(e), Ptx(v));
      }
      if !alloc {
        return Null;
      }
      var t := Kalloc();
      if t == 0 {
        return Null;
      }
      Clear(t);
      assert forall i: nat :: Pde(mem, d, i) == Pde(old(mem), d, i);
      SetPde(d, Pdx(v), t);
      slot := At(t, Ptx(v));
    }

    /** walkpgdir's link to a new table. */
    method SetPde(d: nat, i: nat, t: nat)
      requires Valid() && d < NFRAMES && owner[d] == Dir && i < NENTRIES && !Present(Pde(mem, d, i))
      requires t < NFRAMES && owner[t] == Loose && mem[t] == Zeros()
      modifies this
      ensures Valid() && owner == old(owner)[t := Table(d, i)] && free == old(free)
      ensures Pde(mem, d, i) == Pte(t, PTE_W + PTE_U) && SameMaps(old(mem), mem, old(owner))
      ensures forall k: nat {:trigger Pde(mem, d, k)} :: k != i ==> Pde(mem, d, k) == Pde(old(mem), d, k)
      ensures forall f :: 0 <= f < NFRAMES && f != d ==> mem[f] == old(mem)[f]
    {
      var e := Pte(t, PTE_W + PTE_U);
      ghost var mem' := Store(mem, d, i, e);
      NewTable(mem, owner, d, i, t, e, mem');
      FreeElsewhere(mem, mem', owner, owner[t := Table(d, i)], freelist, free);
      mem := Store(mem, d, i, e);
      owner := owner[t := Table(d, i)];
    }

    /** One round of mappages' loop: maps page v to frame f. */
    method MapPage(d: nat, v: nat, f: nat, perm: nat) returns (ok: bool)
      requires Valid() && d < NFRAMES && owner[d] == Dir && v < NPAGES && perm < PGSIZE && Entry(mem, d, v) == 0
      requires v < USERPAGES ==> f < NFRAMES && owner[f] == Loose
      modifies this
      ensures Valid() && Aside(old(mem), old(owner), mem, d)
      ensures !ok ==> mem == old(mem) && owner == old(owner) && free == old(free)
      ensures ok <==> |old(free)| >= |Lack(old(mem), d, {Pdx(v)})|
      ensures ok ==> Takes(old(free), old(mem), free, mem, d, {Pdx(v)}, 0)
      ensures ok ==> Entry(mem, d, v) == Pte(f, perm) && SameMapsBut(old(mem), mem, old(owner), d, v)
      ensures ok ==> Grown(if v < USERPAGES then old(owner)[f := User(d, v)] else old(owner), owner, d)
    {
      hide Gains, Lack, Entry;
      OneLack(mem, d, Pdx(v));
      var slot := Walkpgdir(d, v, true);
      if slot.Null? {
        return false;
      }
      ghost var mem1 := mem;
      SetPte(d, v, slot.table, Pte(f, perm));
      SameTables(old(mem), mem1, mem, d, {Pdx(v)});
      ok := true;
    }

    method SetPte(d: nat, v: nat, t: nat, e: nat)
      requires Valid() && d < NFRAMES && owner[d] == Dir && v < NPAGES && Entry(mem, d, v) == 0 && Present(e)
      requires Present(Pde(mem, d, Pdx(v))) && FrameOf(Pde(mem, d, Pdx(v))) == t && t < NFRAMES
      requires owner[t] == Table(d, Pdx(v))
      requires v < USERPAGES ==> FrameOf(e) < NFRAMES && owner[FrameOf(e)] == Loose
      modifies this
      ensures Valid() && owner == if v < USERPAGES then old(owner)[FrameOf(e) := User(d, v)] else old(owner)
      ensures Entry(mem, d, v) == e && SameMapsBut(old(mem), mem, old(owner), d, v)
      ensures forall g :: 0 <= g < NFRAMES && g != t ==> mem[g] == old(mem)[g]
      ensures free == old(free)
    {
      ghost var mem' := Store(mem, t, Ptx(v), e);
      ghost var owner' := Mapped(mem, owner, d, v, t, e, mem');
      FreeElsewhere(mem, mem', owner, owner', freelist, free);
      mem := Store(mem, t, Ptx(v), e);
      owner := owner';
    }

    /** Clears a present entry of a user page and frees the page. */
    method FreePage(d: nat, v: nat, t: nat)
      requires Valid() && d < NFRAMES && owner[d] == Dir && v < USERPAGES && Entry(mem, d, v) != 0
      requires Present(Pde(mem, d, Pdx(v))) && FrameOf(Pde(mem, d, Pdx(v))) == t && t < NFRAMES
      requires owner[t] == Table(d, Pdx(v))
      modifies this
      ensures Valid() && FrameOf(Entry(old(mem), d, v)) < NFRAMES
      ensures old(owner)[FrameOf(Entry(old(mem), d, v))] == User(d, v)
      ensures owner == old(owner)[FrameOf(Entry(old(mem), d, v)) := Free]
      ensures Entry(mem, d, v) == 0 && SameMapsBut(old(mem), mem, old(owner), d, v)
      ensures KeptBy(old(mem), mem, owner, d)
    {
      hide Owned, FreeOk, Linked;
      var f := FrameOf(mem[t][Ptx(v)]);
      ghost var mem0, owner0 := mem, owner;
      ghost var mem' := Store(mem, t, Ptx(v), 0);
      Unmapped(mem, owner, d, v, t, mem');
      FreeElsewhere(mem, mem', owner, owner[f := Loose], freelist, free);
      // The source frees the page first and then clears the entry.
      mem := Store(mem, t, Ptx(v), 0);
      owner := owner[f := Loose];
      ghost var mem1, owner1 := mem, owner;
      Kfree(f);
      SameMapsTwice(mem0, mem1, mem, owner0, owner1, d, v);
    }

    /** deallocuvm */
    method Deallocuvm(d: nat, oldsz: nat, newsz: nat) returns (sz: nat)
      requires Valid() && d < NFRAMES && owner[d] == Dir && oldsz <= KERNBASE
      modifies this
      ensures Valid() && sz == (if newsz >= oldsz then oldsz else newsz)
      ensures newsz >= oldsz ==> mem == old(mem) && owner == old(owner)
      ensures owner[d] == Dir && Unmaps(old(mem), old(owner), mem, owner, d, Up(newsz), Up(oldsz))
    {
      hide Owned, FreeOk, Linked, Entry, Pde, Released, Unmaps;
      ghost var lo, hi := Up(newsz), Up(oldsz);
      UnmapsNothing(mem, owner, d, lo, lo);
      if newsz >= oldsz {
        UpMonotone(oldsz, newsz);
        UnmapsNothing(mem, owner, d, lo, hi);
        return oldsz;
      }
      UpMonotone(newsz, oldsz);
      var v := Up(newsz);
      while PGSIZE * v < oldsz
        invariant Valid() && owner[d] == Dir && lo <= v
        invariant Unmaps(old(mem), old(owner), mem, owner, d, lo, Min(v, hi))
        decreases hi as int - v as int
      {
        v := DeallocStep(old(mem), old(owner), d, lo, v, hi);
      }
      sz := newsz;
    }

    /** One round of deallocuvm's loop: at page v, or over all pages that a missing table would hold. */
    method DeallocStep(ghost mem0: Memory, ghost owner0: seq<Owner>, d: nat, ghost lo: nat, v: nat, ghost hi: nat)
      returns (next: nat)
      requires Valid() && d < NFRAMES && owner[d] == Dir && lo <= v < hi <= USERPAGES
      requires Unmaps(mem0, owner0, mem, owner, d, lo, v)
      modifies this
      ensures Valid() && owner[d] == Dir && v < next && Unmaps(mem0, owner0, mem, owner, d, lo, Min(next, hi))
    {
      hide FreeOk, Linked, Entry, Pde, Released, Unmaps, SameMapsOutside, TablesOwned, UsersOwned, NoneLost;
      var slot := Walkpgdir(d, v, false);
      if slot.Null? {
        NoTable(mem, d, v);
        next := NENTRIES * (Pdx(v) + 1);
        UnmapsAbsent(mem0, owner0, mem, owner, d, lo, v, Min(next, hi));
      } else {
        EntryThere(mem, d, v);
        next := v + 1;
        if Present(mem[slot.table][slot.k]) {
          ghost var mem1, owner1 := mem, owner;
          FreePage(d, v, slot.table);
          UnmapsOne(mem0, owner0, mem1, owner1, mem, owner, d, lo, v);
        } else {
          UnmapsAbsent(mem0, owner0, mem, owner, d, lo, v, next);
        }
      }
    }

    /** mappages: maps n pages from virtual page v to the frames from f on; m of them before tables run out. */
    method Mappages(d: nat, v: nat, n: nat, f: nat, perm: nat) returns (r: int, ghost m: nat)
      requires Valid() && d < NFRAMES && owner[d] == Dir && 0 < n && v + n <= NPAGES && perm < PGSIZE
      requires forall u {:trigger Entry(mem, d, u)} :: v <= u < v + n ==> Entry(mem, d, u) == 0
      requires forall u {:trigger Entry(mem, d, u)} :: v <= u < v + n && u < USERPAGES ==>
        f + (u - v) < NFRAMES && owner[f + (u - v)] == Loose
      modifies this
      ensures Valid() && owner[d] == Dir && m <= n && r == (if m == n then 0 else -1)
      ensures MappedRun(old(mem), old(owner), mem, owner, d, v, f, perm, m) && Usable(mem, d, v, f, perm, m)
      ensures r == 0 <==> |old(free)| >= |Lack(old(mem), d, Tables(v, v + n))|
      ensures r == 0 ==> Takes(old(free), old(mem), free, mem, d, Tables(v, v + n), 0)
    {
      hide Owned, FreeOk, Linked, Entry, Pde, Pte, MappedRun, WithUsers, Takes, Lack, Tables, Usable, AccessOf;
      var a, pa, last := v, f, v + n - 1;
      m := 0;
      TakesNothing(free, mem, d);
      TablesNext(v, v, v + n);
      RunStarts(mem, owner, d, v, f, perm);
      while true
        invariant Valid() && owner[d] == Dir && m < n && a == v + m && pa == f + m
        invariant MappedRun(old(mem), old(owner), mem, owner, d, v, f, perm, m)
        invariant Takes(old(free), old(mem), free, mem, d, Tables(v, a), 0)
        decreases n - m
      {
        RunFits(old(mem), old(owner), mem, owner, d, v, f, perm, m);
        TablesNext(v, a, v + n);
        ghost var mem1, owner1, free1 := mem, owner, free;
        var ok := MapPage(d, a, pa, perm);
        if !ok {
          TakesRefused(old(free), old(mem), free, mem, d, Tables(v, a), 0, {Pdx(a)}, 0, Tables(v, v + n), 0);
          RunUsable(old(mem), old(owner), mem, owner, d, v, f, perm, m);
          return -1, m;
        }
        TakesMore(old(free), old(mem), free1, mem1, free, mem, d, Tables(v, a), {Pdx(a)}, 0, 0);
        RunGrows(old(mem), old(owner), mem1, owner1, mem, owner, d, v, f, perm, m);
        m := m + 1;
        if a == last {
          break;
        }
        a, pa := a + 1, pa + 1;
      }
      TakesEnough(old(free), old(mem), free, mem, d, Tables(v, v + n), 0);
      RunUsable(old(mem), old(owner), mem, owner, d, v, f, perm, n);
      r := 0;
    }

    /** A round of allocuvm's loop: a zeroed page for virtual page v. A page f that could not be mapped is kept. */
    method AllocPage(d: nat, v: nat) returns (ok: bool, f: nat)
      requires Valid() && d < NFRAMES && owner[d] == Dir && v < USERPAGES && Entry(mem, d, v) == 0
      modifies this
      ensures Valid() && owner[d] == Dir
      ensures ok ==> PageNew(old(mem), old(owner), mem, owner, d, v, f, PTE_W + PTE_U, Zeros())
      ensures !ok ==> PageRefused(old(mem), old(owner), mem, owner, d, f)
      ensures ok <==> |old(free)| >= 1 + |Lack(old(mem), d, {Pdx(v)})|
      ensures ok ==> Takes(old(free), old(mem), free, mem, d, {Pdx(v)}, 1)
    {
      hide Owned, FreeOk, Linked, Entry, Pde, MappedRun, PageNew, PageRefused, Pte, Takes, Lack;
      ghost var mem0, owner0 := mem, owner;
      f := Kalloc();
      if f == 0 {
        NothingRefused(mem, owner, d);
        return false, 0;
      }
      Clear(f);
      ghost var mem1, owner1 := mem, owner;
      ok := MapNew(mem0, owner0, old(free), d, v, f, PTE_W + PTE_U, Zeros());
    }

    /** mappages of a single page that has just been taken and filled. */
    method MapNew(ghost mem0: Memory, ghost owner0: seq<Owner>, ghost free0: seq<nat>, d: nat, v: nat, f: nat,
                  perm: nat, ghost page: Page)
      returns (ok: bool)
      requires Valid() && d < NFRAMES && owner[d] == Dir && v < USERPAGES && Entry(mem0, d, v) == 0 && perm < PGSIZE
      requires |mem0| == |owner0| == NFRAMES && 0 < f < NFRAMES && owner0[f] == Free && SameMaps(mem0, mem, owner0)
      requires mem == mem0[f := page] && owner == owner0[f := Loose] && |free| == |free0| - 1
      modifies this
      ensures Valid() && owner[d] == Dir
      ensures ok ==> PageNew(mem0, owner0, mem, owner, d, v, f, perm, page)
      ensures !ok ==> PageRefused(mem0, owner0, mem, owner, d, f)
      ensures ok <==> |free0| >= 1 + |Lack(mem0, d, {Pdx(v)})|
      ensures ok ==> Takes(free0, mem0, free, mem, d, {Pdx(v)}, 1)
    {
      hide Owned, FreeOk, Linked, Entry, Pde, MappedRun, PageNew, PageRefused, Pte, Takes, Lack, Tables;
      TablesNext(v, v, v + 1);
      SameTables(mem0, mem0, mem, d, {Pdx(v)});
      PageTaken(free0, mem0, free, mem, d, {Pdx(v)});
      ghost var free1 := free;
      ghost var mem1, owner1 := mem, owner;
      assert owner0[d] == Dir;
      assert Entry(mem, d, v) == 0;
      ghost var m;
      var r;
      r, m := Mappages(d, v, 1, f, perm);
      RunOfOne(mem0, owner0, mem1, owner1, mem, owner, d, v, f, perm, m, page);
      ok := r == 0;
      if ok { TakesMore(free0, mem0, free1, mem1, free, mem, d, {}, {Pdx(v)}, 1, 0); }
      assert {} + {Pdx(v)} == {Pdx(v)};
    }

    /** allocuvm; `ok` says whether it succeeds. */
    method Allocuvm(d: nat, oldsz: nat, newsz: nat) returns (r: nat, ghost ok: bool)
      requires Valid() && d < NFRAMES && owner[d] == Dir
      requires newsz < KERNBASE ==> forall v {:trigger Entry(mem, d, v)} :: Up(oldsz) <= v < Up(newsz) ==>
        Entry(mem, d, v) == 0
      modifies this
      ensures Valid() && owner[d] == Dir && r == (if !ok then 0 else if newsz < oldsz then oldsz else newsz)
      ensures newsz < oldsz ==> (ok <==> newsz < KERNBASE)
      ensures oldsz <= newsz < KERNBASE ==>
        (ok <==> |old(free)| >= Up(newsz) - Up(oldsz) + |Lack(old(mem), d, Tables(Up(oldsz), Up(newsz)))|)
      ensures newsz >= KERNBASE ==> !ok
      ensures !ok || newsz < oldsz ==> Grows(old(mem), old(owner), mem, owner, d, 0, 0, 0)
      ensures ok && oldsz <= newsz ==>
        && Grows(old(mem), old(owner), mem, owner, d, Up(oldsz), Up(newsz), 0)
        && Zeroed(mem, d, Up(oldsz), Up(newsz)) && ZeroPages(mem, d, Up(oldsz), Up(newsz))
    {
      hide Owned, FreeOk, Linked, Entry, Pde, Grows, Zeroed, PageNew, PageRefused, Zeros, Takes, Lack, Tables;
      GrowsNot(mem, owner, d, 0);
      if newsz >= KERNBASE {
        return 0, false;
      }
      if newsz < oldsz {
        return oldsz, true;
      }
      UpMonotone(oldsz, newsz);
      UpMonotone(newsz, KERNBASE);
      ghost var lo, hi := Up(oldsz), Up(newsz);
      var v := Up(oldsz);
      GrowsNot(mem, owner, d, lo);
      TakesNothing(free, mem, d);
      TablesNext(lo, lo, lo + 1);
      while PGSIZE * v < newsz
        invariant Valid() && owner[d] == Dir && lo <= v <= hi && Zeroed(mem, d, lo, v)
        invariant Grows(old(mem), old(owner), mem, owner, d, lo, v, 0)
        invariant Takes(old(free), old(mem), free, mem, d, Tables(lo, v), v - lo)
      {
        GrowsRoom(old(mem), old(owner), mem, owner, d, lo, v);
        TablesNext(lo, v, hi);
        ghost var mem1, owner1, free1 := mem, owner, free;
        if |free| < 1 + |Lack(mem, d, {Pdx(v)})| {
          TakesRefused(old(free), old(mem), free, mem, d, Tables(lo, v), v - lo, {Pdx(v)}, 1, Tables(lo, hi), hi - lo);
        }
        var ok1, f := AllocPage(d, v);
        if !ok1 {
          GrowsRefused(old(mem), old(owner), mem1, owner1, mem, owner, d, lo, v, f);
          RollBack(old(mem), old(owner), d, oldsz, newsz, v, f);
          return 0, false;
        }
        GrowsOne(old(mem), old(owner), mem1, owner1, mem, owner, d, lo, v, f, PTE_W + PTE_U, Zeros());
        ZeroedOne(mem1, owner1, mem, owner, d, lo, v, f);
        TakesMore(old(free), old(mem), free1, mem1, free, mem, d, Tables(lo, v), {Pdx(v)}, v - lo, 1);
        v := v + 1;
      }
      TakesEnough(old(free), old(mem), free, mem, d, Tables(lo, hi), hi - lo);
      ZeroedUsable(mem, owner, d, lo, hi);
      r, ok := newsz, true;
    }

    /** allocuvm's way out when memory runs short at page v; f is the page that could not be mapped, or 0. */
    method RollBack(ghost mem0: Memory, ghost owner0: seq<Owner>, d: nat, oldsz: nat, newsz: nat, ghost v: nat, f: nat)
      requires Valid() && d < NFRAMES && owner[d] == Dir && newsz < KERNBASE && Up(oldsz) <= v < Up(newsz) <= USERPAGES
      requires Owned(mem0, owner0) && owner0[d] == Dir && Grows(mem0, owner0, mem, owner, d, Up(oldsz), v, f)
      requires forall u {:trigger Entry(mem0, d, u)} :: Up(oldsz) <= u < Up(newsz) ==> Entry(mem0, d, u) == 0
      requires f != 0 ==> f < NFRAMES && owner[f] == Loose && owner0[f] == Free
      modifies this
      ensures Valid() && owner[d] == Dir && Grows(mem0, owner0, mem, owner, d, 0, 0, 0)
    {
      hide Owned, FreeOk, Linked, Entry, Pde, Grows, Unmaps, Released;
      ghost var mem1, owner1 := mem, owner;
      var _ := Deallocuvm(d, newsz, oldsz);
      GrowsBack(mem0, owner0, mem1, owner1, mem, owner, d, Up(oldsz), v, Up(newsz), f);
      if f != 0 {
        ghost var mem2, owner2 := mem, owner;
        Kfree(f);
        GrowsReturn(mem0, owner0, mem2, owner2, mem, owner, d, f);
      }
    }

    /** freevm */
    method Freevm(d: nat)
      requires Valid() && d < NFRAMES && owner[d] == Dir
      modifies this
      ensures Valid() && owner == Disowned(old(owner), d)
      ensures forall f {:trigger mem[f]} :: 0 <= f < NFRAMES && owner[f] != Free ==> mem[f] == old(mem)[f]
    {
      hide Owned, FreeOk, Linked, Entry, Pde, Released, SameMapsOutside, KeptBy, Dismantled, Dying, Disowned;
      ghost var mem0, owner0 := mem, owner;
      UpMonotone(0, KERNBASE);
      var _ := Deallocuvm(d, KERNBASE, 0);
      ghost var mem1, owner1 := mem, owner;
      TakeApart(d);
      var i := 0;
      while i < NENTRIES
        invariant Valid() && i <= NENTRIES && owner == Dying(owner1, d, i) && |mem1| == NFRAMES
        invariant owner[d] == Loose && mem[d] == mem1[d]
        invariant forall f {:trigger mem[f]} :: 0 <= f < NFRAMES && owner[f] != Free ==> mem[f] == mem1[f]
      {
        DyingStep(mem1, owner1, mem, d, i);
        if Present(mem[d][i]) {
          Kfree(FrameOf(mem[d][i]));
        }
        i := i + 1;
      }
      Kfree(d);
      DyingDone(mem0, owner0, mem1, owner1, mem, owner, d);
    }

    /** The page directory and the tables, no longer in use by anyone, wait to be freed. */
    ghost method TakeApart(d: nat)
      requires Valid() && d < NFRAMES && owner[d] == Dir
      requires forall v {:trigger Entry(mem, d, v)} :: 0 <= v < USERPAGES ==> Entry(mem, d, v) == 0
      modifies this`owner
      ensures Valid() && owner == Dying(old(owner), d, 0) && owner[d] == Loose
    {
      DirDismantled(mem, owner, d);
      FreeElsewhere(mem, mem, owner, Dismantled(owner, d), freelist, free);
      assert Dying(owner, d, 0) == Dismantled(owner, d);
      owner := Dismantled(owner, d);
    }

    /** setupkvm; `data` is the frame at which the kernel's data begins. Returns 0 if memory runs out. */
    method Setupkvm(data: nat) returns (d: nat)
      requires Valid() && EXTMEM < data < NFRAMES
      modifies this
      ensures Valid() && d < NFRAMES
      ensures d == 0 ==> owner == old(owner) && Untouched(old(mem), old(owner), mem, owner)
      ensures d != 0 ==> owner[d] == Dir && Clones(old(mem), old(owner), mem, owner, d, 0, 0)
      ensures d != 0 ==> KernelBelow(mem, d, data, NPAGES) && KernelAccess(mem, d, data)
      ensures d != 0 <==> |old(free)| >= KERNELPAGES
      ensures d != 0 ==> |free| == |old(free)| - KERNELPAGES
      ensures d != 0 ==> forall i: nat {:trigger Pde(mem, d, i)} :: Present(Pde(mem, d, i)) <==> i in KernelTables()
    {
      hide Owned, FreeOk, Linked, Entry, Pde, Clones, KernelBelow, MappedRun, Untouched, Disowned, Zeros, KernelEntry;
      hide Takes, Lack, Tables, KernelTables;
      ghost var mem0, owner0 := mem, owner;
      d := Kalloc();
      if d == 0 {
        UntouchedNot(mem, owner);
        return;
      }
      Clear(d);
      MakeDir(d);
      ClonesStart(mem0, owner0, mem, owner, d, data);
      ghost var memD, freeD := mem, free;
      TakesNothing(free, mem, d);
      KernelLack(memD, d, data);
      var i := 0;
      while i < 4
        invariant Valid() && i <= 4 && Clones(mem0, owner0, mem, owner, d, 0, 0)
        invariant KernelBelow(mem, d, data, Limit(data, i)) && owner[d] == Dir
        invariant Takes(freeD, memD, free, mem, d, RowTables(data, i), 0)
      {
        var r := MapRow(mem0, owner0, memD, freeD, d, data, i);
        if r < 0 {
          ghost var mem2, owner2 := mem, owner;
          Freevm(d);
          ClonesUndone(mem0, owner0, mem2, owner2, mem, owner, d, 0);
          return 0;
        }
        i := i + 1;
      }
      KernelTaken(freeD, memD, free, mem, d, data);
      KernelUsable(mem, owner, d, data);
    }

    /** A round of setupkvm's loop: row i of kmap. */
    method MapRow(ghost mem0: Memory, ghost owner0: seq<Owner>, ghost memD: Memory, ghost freeD: seq<nat>, d: nat,
                  data: nat, i: nat)
      returns (r: int)
      requires Valid() && EXTMEM < data < NFRAMES && i < 4 && d < NFRAMES && owner[d] == Dir
      requires Owned(mem0, owner0) && |owner0| == NFRAMES && Clones(mem0, owner0, mem, owner, d, 0, 0)
      requires KernelBelow(mem, d, data, Limit(data, i))
      requires Takes(freeD, memD, free, mem, d, RowTables(data, i), 0)
      modifies this
      ensures Valid() && owner[d] == Dir && Clones(mem0, owner0, mem, owner, d, 0, 0)
      ensures r >= 0 ==> KernelBelow(mem, d, data, Limit(data, i + 1))
      ensures r >= 0 ==> Takes(freeD, memD, free, mem, d, RowTables(data, i + 1), 0)
      ensures r < 0 ==> |freeD| < |Lack(memD, d, KernelTables())|
    {
      hide Owned, FreeOk, Linked, Entry, Pde, Clones, KernelBelow, MappedRun, KernelEntry, Limit;
      hide Takes, Lack, Tables, KernelTables;
      var row := Kmap(data, i);
      ghost var mem1, owner1, free1 := mem, owner, free;
      ghost var tables := Tables(row.virt, row.virt + row.n);
      assert RowTables(data, i + 1) == RowTables(data, i) + tables;
      RowTablesWithin(data, i + 1);
      RowFree(mem, d, data, i);
      ghost var m;
      r, m := Mappages(d, row.virt, row.n, row.phys, row.perm);
      ClonesRun(mem0, owner0, mem1, owner1, mem, owner, d, 0, row, m);
      if r < 0 {
        TakesRefused(freeD, memD, free1, mem1, d, RowTables(data, i), 0, tables, 0, KernelTables(), 0);
      } else {
        RowMapped(mem1, owner1, mem, owner, d, data, i);
        TakesMore(freeD, memD, free1, mem1, free, mem, d, RowTables(data, i), tables, 0, 0);
      }
    }

    /** A cleared page becomes a page directory. */
    ghost method MakeDir(d: nat)
      requires Valid() && d < NFRAMES && owner[d] == Loose && mem[d] == Zeros()
      modifies this`owner
      ensures Valid() && owner == old(owner)[d := Dir]
      ensures forall v {:trigger Entry(mem, d, v)} :: 0 <= v < NPAGES ==> Entry(mem, d, v) == 0
      ensures forall i: nat {:trigger Pde(mem, d, i)} :: Pde(mem, d, i) == 0
    {
      NewDir(mem, owner, d);
      FreeElsewhere(mem, mem, owner, owner[d := Dir], freelist, free);
      owner := owner[d := Dir];
    }

    /** copyuvm of the first sz bytes of directory s. Returns 0 if memory runs out. */
    method Copyuvm(s: nat, sz: nat, data: nat) returns (d: nat)
      requires Valid() && s < NFRAMES && owner[s] == Dir && sz <= KERNBASE && EXTMEM < data < NFRAMES
      requires forall v {:trigger Entry(mem, s, v)} :: 0 <= v < Up(sz) ==> Entry(mem, s, v) != 0
      modifies this
      ensures Valid() && d < NFRAMES
      ensures d == 0 ==> owner == old(owner) && Untouched(old(mem), old(owner), mem, owner)
      ensures d != 0 ==> Clones(old(mem), old(owner), mem, owner, d, Up(sz), 0) && KernelBelow(mem, d, data, NPAGES)
      ensures d != 0 ==> Copied(old(mem), s, mem, d, Up(sz))
      ensures d != 0 ==> SameAccess(old(mem), s, mem, d, Up(sz)) && KernelAccess(mem, d, data)
      ensures d != 0 <==> |old(free)| >= KERNELPAGES + Up(sz) + (Up(sz) + NENTRIES - 1) / NENTRIES
    {
      hide Owned, FreeOk, Linked, Entry, Pde, Clones, KernelBelow, Untouched, Disowned, Copied, PageNew, PageRefused;
      hide Takes, Lack, Tables, KernelTables;
      ghost var mem0, owner0 := mem, owner;
      d := Setupkvm(data);
      if d == 0 {
        return;
      }
      UpMonotone(sz, KERNBASE);
      CopiedNothing(mem0, s, mem, d);
      ghost var memS, freeS := mem, free;
      UserLack(mem, d, Up(sz));
      TakesNothing(free, mem, d);
      TablesNext(0, 0, 1);
      var v := 0;
      while PGSIZE * v < sz
        invariant Valid() && v <= Up(sz) && Clones(mem0, owner0, mem, owner, d, v, 0)
        invariant KernelBelow(mem, d, data, NPAGES)
        invariant Copied(mem0, s, mem, d, v) && owner[d] == Dir
        invariant Takes(freeS, memS, free, mem, d, Tables(0, v), v)
      {
        ghost var mem1, owner1, free1 := mem, owner, free;
        TablesNext(0, v, Up(sz));
        if |free| < 1 + |Lack(mem, d, {Pdx(v)})| {
          TakesRefused(freeS, memS, free, mem, d, Tables(0, v), v, {Pdx(v)}, 1, Tables(0, Up(sz)), Up(sz));
        }
        ClonesParent(mem0, owner0, mem, owner, s, d, v);
        var ok, f := CopyPage(s, d, v);
        if !ok {
          ghost var mem2, owner2 := mem, owner;
          ClonesRefused(mem0, owner0, mem1, owner1, mem2, owner2, d, v, f);
          Abandon(mem0, owner0, d, v, f);
          return 0;
        }
        ghost var e := Entry(mem0, s, v);
        CopiedOne(mem0, owner0, mem1, owner1, mem, owner, s, d, v, f, mem1[FrameOf(e)]);
        ClonesOne(mem0, owner0, mem1, owner1, mem, owner, d, data, v, f, FlagsOf(e), mem1[FrameOf(e)]);
        TakesMore(freeS, memS, free1, mem1, free, mem, d, Tables(0, v), {Pdx(v)}, v, 1);
        v := v + 1;
      }
      TakesEnough(freeS, memS, free, mem, d, Tables(0, Up(sz)), Up(sz));
      CopiedUsable(mem0, owner0, s, mem, owner, d, Up(sz));
      KernelUsable(mem, owner, d, data);
    }

    /** copyuvm's way out: frees the page in hand, if any, and the whole child. */
    method Abandon(ghost mem0: Memory, ghost owner0: seq<Owner>, d: nat, ghost v: nat, f: nat)
      requires Valid() && d < NFRAMES && owner[d] == Dir && Owned(mem0, owner0) && |owner0| == NFRAMES
      requires Clones(mem0, owner0, mem, owner, d, v, f)
      requires f != 0 ==> f < NFRAMES && owner[f] == Loose && owner0[f] == Free
      modifies this
      ensures Valid() && owner == owner0 && Untouched(mem0, owner0, mem, owner)
    {
      hide Owned, FreeOk, Linked, Entry, Pde, Clones, Untouched, Disowned;
      if f != 0 {
        ghost var mem1, owner1 := mem, owner;
        Kfree(f);
        ClonesReturn(mem0, owner0, mem1, owner1, mem, owner, d, v, f);
      }
      ghost var mem2, owner2 := mem, owner;
      Freevm(d);
      ClonesUndone(mem0, owner0, mem2, owner2, mem, owner, d, v);
    }

    /** A round of copyuvm's loop: a copy of page v of directory s for page v of directory d. */
    method CopyPage(s: nat, d: nat, v: nat) returns (ok: bool, f: nat)
      requires Valid() && s < NFRAMES && owner[s] == Dir && d < NFRAMES && owner[d] == Dir
      requires v < USERPAGES && Entry(mem, s, v) != 0 && Entry(mem, d, v) == 0
      modifies this
      ensures Valid() && owner[d] == Dir && FrameOf(Entry(old(mem), s, v)) < NFRAMES
      ensures ok ==> PageNew(old(mem), old(owner), mem, owner, d, v, f, FlagsOf(Entry(old(mem), s, v)),
                             old(mem)[FrameOf(Entry(old(mem), s, v))])
      ensures !ok ==> PageRefused(old(mem), old(owner), mem, owner, d, f)
      ensures ok <==> |old(free)| >= 1 + |Lack(old(mem), d, {Pdx(v)})|
      ensures ok ==> Takes(old(free), old(mem), free, mem, d, {Pdx(v)}, 1)
    {
      hide FreeOk, Linked, Pde, PageNew, PageRefused, Entry, TablesOwned, NoneLost, Takes, Lack;
      ghost var mem0, owner0 := mem, owner;
      var slot := Walkpgdir(s, v, false);
      MappedThere(mem, s, v);
      var e := mem[slot.table][slot.k];
      assert owner[FrameOf(e)] == User(s, v);
      f := Kalloc();
      if f == 0 {
        NothingRefused(mem, owner, d);
        return false, 0;
      }
      Fill(f, FrameOf(e));
      ok := MapNew(mem0, owner0, old(free), d, v, f, FlagsOf(e), mem0[FrameOf(e)]);
    }

    /** memmove of a whole page into one that has just been taken. */
    method Fill(f: nat, g: nat)
      requires Valid() && f < NFRAMES && owner[f] == Loose && g < NFRAMES && g != f
      modifies this`mem
      ensures Valid() && mem == old(mem)[f := old(mem)[g]] && SameMaps(old(mem), mem, owner)
    {
      ChangeHeld(mem, owner, f, mem[g], Loose);
      assert owner[f := Loose] == owner;
      FreeElsewhere(mem, mem[f := mem[g]], owner, owner, freelist, free);
      mem := mem[f := mem[g]];
    }
  }

  // ---------- What the operations mean for other address spaces ----------

  /** After freevm of a copy, the pages are with whoever held them before copyuvm. */
  lemma CopyThenFree(mem0: Memory, owner0: seq<Owner>, mem: Memory, owner: seq<Owner>, d: nat, hi: nat)
    requires Owned(mem0, owner0) && d < NFRAMES && owner0[d] == Free && Clones(mem0, owner0, mem, owner, d, hi, 0)
    ensures Disowned(owner, d) == owner0
  {
    hide Entry, Pde, TablesOwned, UsersOwned;
    forall f | 0 <= f < NFRAMES ensures Disowned(owner, d)[f] == owner0[f] { var _ := owner[f]; }
  }

  /** Two address spaces share no user page, and a user page is no one's page table. */
  lemma SpacesDisjoint(mem: Memory, owner: seq<Owner>, d: nat, v: nat, e: nat, u: nat)
    requires Owned(mem, owner) && d < NFRAMES && owner[d] == Dir && e < NFRAMES && owner[e] == Dir
    requires v < USERPAGES && u < USERPAGES && Entry(mem, d, v) != 0 && Entry(mem, e, u) != 0 && (d != e || v != u)
    ensures FrameOf(Entry(mem, d, v)) != FrameOf(Entry(mem, e, u))
    ensures forall i: nat {:trigger Pde(mem, e, i)} :: i < NENTRIES && Present(Pde(mem, e, i)) ==>
      FrameOf(Entry(mem, d, v)) != FrameOf(Pde(mem, e, i)) && FrameOf(Entry(mem, d, v)) != e
  {
    hide Entry, Pde;
  }

  /** A store by a process to one of its pages changes no address space, and no other page of any. */
  lemma StoreIsPrivate(mem: Memory, owner: seq<Owner>, d: nat, v: nat, k: nat, w: nat, mem': Memory)
    requires Owned(mem, owner) && d < NFRAMES && owner[d] == Dir && v < USERPAGES && Entry(mem, d, v) != 0
    requires k < NENTRIES
    requires FrameOf(Entry(mem, d, v)) < NFRAMES && mem' == Store(mem, FrameOf(Entry(mem, d, v)), k, w)
    ensures SameMaps(mem, mem', owner)
    ensures forall e: nat, u: nat {:trigger Entry(mem', e, u)} ::
      e < NFRAMES && owner[e] == Dir && u < USERPAGES && Entry(mem', e, u) != 0 && (e != d || u != v) ==>
        FrameOf(Entry(mem', e, u)) < NFRAMES && mem'[FrameOf(Entry(mem', e, u))] == mem[FrameOf(Entry(mem', e, u))]
  {
    var f := FrameOf(Entry(mem, d, v));
    assert owner[f] == User(d, v);
    forall e: nat, u: nat | e < NFRAMES && owner[e] == Dir && u < NPAGES ensures Entry(mem', e, u) == Entry(mem, e, u) {
      assert Pde(mem', e, Pdx(u)) == Pde(mem, e, Pdx(u)) && Pdx(u) < NENTRIES;
      if Present(Pde(mem, e, Pdx(u))) { assert owner[FrameOf(Pde(mem, e, Pdx(u)))] == Table(e, Pdx(u)); }
    }
  }
}
