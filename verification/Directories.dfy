/** Directories as files: dirlookup and dirlink of Project1/fs.c over readi and writei, and what create, link and
    unlink of Project1/sysfile.c write. The entries of Links are stored 16 bytes each in the byte strings of
    FileBlocks. */
module Directories {
  import opened Collections
  import opened FileBlocks
  import Links

  const DIRENT: nat := 16
  const DIRSIZ: nat := 14

  // ---------- One entry ----------

  predicate NameOk(name: string) {
    |name| <= DIRSIZ && forall k :: 0 <= k < |name| ==> 0 < name[k] as int < 256
  }

  /** strncpy into n bytes. */
  function Padded(name: string, n: nat): (r: seq<byte>)
    requires NameOk(name) && |name| <= n
    ensures |r| == n
  {
    seq(n, k requires 0 <= k < n => if k < |name| then name[k] as byte else 0)
  }

  /** The name in a field that ends at its first NUL, or at its end. */
  function NameOf(b: seq<byte>): string {
    if b == [] || b[0] == 0 then "" else [b[0] as char] + NameOf(b[1..])
  }

  lemma {:induction false} NameOfPadded(name: string, n: nat)
    requires NameOk(name) && |name| <= n
    ensures NameOf(Padded(name, n)) == name
    decreases |name|
  {
    if name != "" {
      NameOfPadded(name[1..], n - 1);
      assert Padded(name, n)[1..] == Padded(name[1..], n - 1);
      assert name == [name[0]] + name[1..];
    }
  }

  predicate EntryOk(e: Links.Dirent) {
    e.inum < 0x1_0000 && NameOk(e.name)
  }

  function Encode(e: Links.Dirent): (r: seq<byte>)
    requires EntryOk(e)
    ensures |r| == DIRENT
  {
    [e.inum % 256, e.inum / 256] + Padded(e.name, DIRSIZ)
  }

  function Decode(b: seq<byte>): Links.Dirent
    requires |b| == DIRENT
  {
    Links.Dirent(b[0] as int + 256 * b[1] as int, NameOf(b[2..]))
  }

  lemma DecodeEncode(e: Links.Dirent)
    requires EntryOk(e)
    ensures Decode(Encode(e)) == e
  {
    NameOfPadded(e.name, DIRSIZ);
    assert Encode(e)[2..] == Padded(e.name, DIRSIZ);
  }

  // ---------- Directories as byte strings ----------

  function Entries(b: seq<byte>): (r: seq<Links.Dirent>)
    ensures |r| == |b| / DIRENT
  {
    seq(|b| / DIRENT, k requires 0 <= k < |b| / DIRENT => EntryAt(b, k))
  }

  function EntryAt(b: seq<byte>, k: nat): Links.Dirent
    requires k < |b| / DIRENT
  {
    Decode(b[DIRENT * k..DIRENT * k + DIRENT])
  }

  /** Writing an entry where one was, or right after the last, changes that entry alone. */
  lemma EntriesOverwritten(b: seq<byte>, k: nat, e: Links.Dirent)
    requires |b| % DIRENT == 0 && k <= |b| / DIRENT && EntryOk(e)
    ensures |Overwritten(b, DIRENT * k, Encode(e))| % DIRENT == 0
    ensures Entries(Overwritten(b, DIRENT * k, Encode(e))) == Links.Placed(Entries(b), k, e)
  {
    var r := Overwritten(b, DIRENT * k, Encode(e));
    var n := |b| / DIRENT;
    assert |b| == DIRENT * n;
    assert |r| == DIRENT * (if k < n then n else n + 1);
    DecodeEncode(e);
    forall j | 0 <= j < |r| / DIRENT ensures EntryAt(r, j) == if j == k then e else EntryAt(b, j) {
      if j == k {
        assert r[DIRENT * j..DIRENT * j + DIRENT] == Encode(e);
      } else {
        assert r[DIRENT * j..DIRENT * j + DIRENT] == b[DIRENT * j..DIRENT * j + DIRENT];
      }
    }
  }

  /** Inode d of the image is a whole number of entries. */
  ghost predicate DirOk(im: Image, d: nat) {
    im.Valid() && d < |im.inode| && im.inode[d].size % DIRENT == 0
  }

  ghost function EntriesOf(im: Image, d: nat): (r: seq<Links.Dirent>)
    requires DirOk(im, d)
    ensures |r| == im.inode[d].size / DIRENT
  {
    Entries(im.Bytes(d))
  }

  /** Only directory d differs, and by entry k, which is now e. */
  ghost predicate Entered(im0: Image, im: Image, d: nat, k: nat, e: Links.Dirent) {
    && DirOk(im0, d) && DirOk(im, d) && |im.inode| == |im0.inode| && k <= |EntriesOf(im0, d)|
    && EntriesOf(im, d) == Links.Placed(EntriesOf(im0, d), k, e) && OthersKept(im0, im, d)
  }

  ghost predicate OthersKept(im0: Image, im: Image, d: nat) {
    && im0.Shape() && im.Shape() && |im.inode| == |im0.inode|
    && forall j :: 0 <= j < |im.inode| && j != d ==> im.inode[j] == im0.inode[j] && im.Bytes(j) == im0.Bytes(j)
  }

  lemma WroteEntered(im0: Image, im: Image, d: nat, k: nat, e: Links.Dirent, logged: set<Logged>)
    requires DirOk(im0, d) && im.Valid() && EntryOk(e) && k <= im0.inode[d].size / DIRENT
    requires Wrote(im0, im, d, DIRENT * k, Encode(e)) && Recorded(im0, im, d, logged)
    ensures Entered(im0, im, d, k, e)
  {
    hide Image.Bytes, Entries, Overwritten, Image.Owned, Image.NoLeaks, Image.NoHoles;
    EntriesOverwritten(im0.Bytes(d), k, e);
    assert |im.Bytes(d)| == im.inode[d].size;
  }

  // ---------- The operations ----------

  /** One more entry than n is more than a file can hold, or there is no free block. */
  predicate NoRoom(n: nat, used: seq<bool>) {
    DIRENT * n + DIRENT > MAXFILE * BSIZE || forall b :: 0 <= b < |used| ==> used[b]
  }

  /** With one bitmap block, no more has been logged than that, the block of the inode and two blocks of its own. */
  ghost predicate Budgeted(before: set<Logged>, logged: set<Logged>, d: nat, blocks: set<Logged>, size: nat) {
    && before <= logged && |blocks| <= 2
    && (size <= BPB ==> logged <= before + blocks + {BitmapBlock(0), InodeBlock(d / IPB)})
  }

  /** A directory's entry k, as readi gets it. */
  method ReadEntry(fs: FileSystem, d: nat, k: nat) returns (e: Links.Dirent)
    requires DirOk(fs.Im(), d) && k < fs.inode[d].size / DIRENT
    modifies fs
    ensures fs.Im() == old(fs.Im()) && fs.logged == old(fs.logged) && e == EntriesOf(fs.Im(), d)[k]
  {
    hide Image.Owned, Image.NoLeaks, Image.NoHoles, Image.Shape, Decode;
    SizeLimit(fs.Im(), d);
    var r, b := fs.Readi(d, DIRENT * k, DIRENT);
    e := Decode(b);
    assert EntriesOf(fs.Im(), d)[k] == EntryAt(fs.Im().Bytes(d), k);
  }

  lemma SizeLimit(im: Image, d: nat)
    requires im.Valid() && d < |im.inode|
    ensures im.inode[d].size <= MAXFILE * BSIZE
  {
  }

  predicate Taken(es: seq<Links.Dirent>, name: string) {
    exists j :: 0 <= j < |es| && es[j].inum != 0 && es[j].name == name
  }

  /** dirlookup: the entry called `name`, or the number of entries. */
  method Dirlookup(fs: FileSystem, d: nat, name: string) returns (k: nat)
    requires DirOk(fs.Im(), d)
    modifies fs
    ensures fs.Im() == old(fs.Im()) && fs.logged == old(fs.logged) && k <= |EntriesOf(fs.Im(), d)|
    ensures k == |EntriesOf(fs.Im(), d)| <==> !Taken(EntriesOf(fs.Im(), d), name)
    ensures k < |EntriesOf(fs.Im(), d)| ==> Links.FirstNamed(EntriesOf(fs.Im(), d), name, k)
  {
    hide Image.Owned, Image.NoLeaks, Image.NoHoles, Image.Shape, EntriesOf;
    ghost var es := EntriesOf(fs.Im(), d);
    k := 0;
    while DIRENT * k < fs.inode[d].size
      invariant fs.Im() == old(fs.Im()) && fs.logged == old(fs.logged) && k <= |es|
      invariant forall j :: 0 <= j < k ==> es[j].inum == 0 || es[j].name != name
      decreases |es| - k
    {
      var e := ReadEntry(fs, d, k);
      if e.inum != 0 && e.name == name {
        return;
      }
      k := k + 1;
    }
  }

  /** The first entry not in use, or the number of entries. */
  method FreeEntry(fs: FileSystem, d: nat) returns (k: nat)
    requires DirOk(fs.Im(), d)
    modifies fs
    ensures fs.Im() == old(fs.Im()) && fs.logged == old(fs.logged) && k <= |EntriesOf(fs.Im(), d)|
    ensures Links.FirstFree(EntriesOf(fs.Im(), d), k)
  {
    hide Image.Owned, Image.NoLeaks, Image.NoHoles, Image.Shape, EntriesOf;
    ghost var es := EntriesOf(fs.Im(), d);
    k := 0;
    while DIRENT * k < fs.inode[d].size
      invariant fs.Im() == old(fs.Im()) && fs.logged == old(fs.logged) && k <= |es|
      invariant forall j :: 0 <= j < k ==> es[j].inum != 0
      decreases |es| - k
    {
      var e := ReadEntry(fs, d, k);
      if e.inum == 0 {
        return;
      }
      k := k + 1;
    }
  }

  /** Entry k of directory d is now e; `blocks` are blocks of the directory, and little else has been logged. */
  ghost predicate EntryWritten(im0: Image, im: Image, before: set<Logged>, logged: set<Logged>, d: nat, k: nat,
                               e: Links.Dirent, blocks: set<Logged>)
  {
    && (im.inode != im0.inode ==> InodeBlock(d / IPB) in logged) && Budgeted(before, logged, d, blocks, |im.used|)
    && Recorded(im0, im, d, logged) && Entered(im0, im, d, k, e)
  }

  /** isdirempty */
  method Isdirempty(fs: FileSystem, i: nat) returns (r: bool)
    requires DirOk(fs.Im(), i)
    modifies fs
    ensures fs.Im() == old(fs.Im()) && fs.logged == old(fs.logged)
    ensures r <==> forall k :: 2 <= k < |EntriesOf(fs.Im(), i)| ==> EntriesOf(fs.Im(), i)[k].inum == 0
  {
    hide Image.Owned, Image.NoLeaks, Image.NoHoles, Image.Shape, EntriesOf;
    ghost var es := EntriesOf(fs.Im(), i);
    var k := 2;
    while DIRENT * k < fs.inode[i].size
      invariant fs.Im() == old(fs.Im()) && fs.logged == old(fs.logged) && 2 <= k
      invariant forall j :: 2 <= j < k && j < |es| ==> es[j].inum == 0
      decreases |es| - k
    {
      var e := ReadEntry(fs, i, k);
      if e.inum != 0 {
        return false;
      }
      k := k + 1;
    }
    r := true;
  }

  /** What dirlink does: it refuses a name that is taken, and otherwise uses the first free entry. */
  ghost predicate DirlinkDone(im0: Image, im: Image, before: set<Logged>, logged: set<Logged>, d: nat, e: Links.Dirent,
                              ok: bool, r: int, k: nat, blocks: set<Logged>)
    requires DirOk(im0, d)
  {
    if Taken(EntriesOf(im0, d), e.name) then ok && r == -1 && im == im0 && logged == before
    else
      && r == 0 && Links.FirstFree(EntriesOf(im0, d), k)
      && if ok then EntryWritten(im0, im, before, logged, d, k, e, blocks)
         else k == |EntriesOf(im0, d)| && NoRoom(k, im.used)
  }

  /** writei of entry k. `ok` is false where the code panics, for want of a free block or of room in the directory. */
  method WriteEntry(fs: FileSystem, d: nat, k: nat, e: Links.Dirent) returns (ok: bool, ghost blocks: set<Logged>)
    requires DirOk(fs.Im(), d) && EntryOk(e) && k <= fs.inode[d].size / DIRENT
    modifies fs
    ensures if ok then EntryWritten(old(fs.Im()), fs.Im(), old(fs.logged), fs.logged, d, k, e, blocks)
            else k == old(fs.inode)[d].size / DIRENT && NoRoom(k, fs.used)
  {
    hide Image.Valid, Image.Shape, EntriesOf, Encode, Entered, Recorded, Wrote, Image.Touches, Image.Bytes;
    SizeLimit(fs.Im(), d);
    blocks := {};
    var r;
    ok, r := fs.Writei(d, DIRENT * k, Encode(e));
    RecordedSizes(old(fs.Im()), fs.Im(), d, fs.logged);
    if !ok || r == -1 {
      return false, {};
    }
    WroteEntered(old(fs.Im()), fs.Im(), d, k, e, fs.logged);
    blocks := EntryBlocks(fs.Im(), d, k);
  }

  /** dirlink */
  method Dirlink(fs: FileSystem, d: nat, name: string, inum: nat)
    returns (ok: bool, r: int, ghost k: nat, ghost blocks: set<Logged>)
    requires DirOk(fs.Im(), d) && EntryOk(Links.Dirent(inum, name))
    modifies fs
    ensures DirlinkDone(old(fs.Im()), fs.Im(), old(fs.logged), fs.logged, d, Links.Dirent(inum, name), ok, r, k, blocks)
  {
    hide Image.Valid, Image.Shape, EntriesOf, EntryWritten, NoRoom, Taken, Links.FirstFree, Encode;
    k, blocks := 0, {};
    var found := Dirlookup(fs, d, name);
    if found < fs.inode[d].size / DIRENT {
      return true, -1, k, blocks;
    }
    var off := FreeEntry(fs, d);
    k := off;
    ok, blocks := WriteEntry(fs, d, off, Links.Dirent(inum, name));
    r := 0;
  }

  lemma RecordedSizes(a: Image, c: Image, i: nat, logged: set<Logged>)
    requires Recorded(a, c, i, logged)
    ensures |c.used| == |a.used| && |c.inode| == |a.inode|
  {
  }

  /** The blocks of entry k of directory d. */
  lemma EntryBlocks(im: Image, d: nat, k: nat) returns (blocks: set<Logged>)
    requires im.Valid() && d < |im.inode| && DIRENT * k + DIRENT <= MAXFILE * BSIZE
    ensures |blocks| <= 2
    ensures |im.used| <= BPB ==>
      im.Touches(d, DIRENT * k / BSIZE, EndBlock(DIRENT * k + DIRENT)) <= blocks + {BitmapBlock(0)}
  {
    hide Image.Owned, Image.NoLeaks, Image.NoHoles, Image.Slot, Image.Touches;
    var bn := DIRENT * k / BSIZE;
    assert EndBlock(DIRENT * k + DIRENT) == bn + 1;
    blocks := {DiskBlock(im.Slot(d, NDIRECT)), DiskBlock(im.Slot(d, DataSlot(bn)))};
    if |im.used| <= BPB { im.TouchesOne(d, bn); }
  }

  // ---------- Inodes and their directories ----------

  /** What an inode on disk has besides its blocks. */
  datatype Info = Info(kind: Links.Kind, nlink: int)

  datatype Store = Store(im: Image, info: seq<Info>) {

    /** Inode numbers fit in an entry; free inodes hold nothing. */
    ghost predicate Ok() {
      im.Valid() && |info| == |im.inode| <= 0x1_0000 && forall i :: 0 <= i < |info| ==> InodeOk(i)
    }

    ghost predicate InodeOk(i: nat) {
      && i < |info|
      && (info[i].kind == Links.NONE ==> i < |im.inode| && im.inode[i] == NoBlocks())
      && (info[i].kind == Links.T_DIR ==> DirOk(im, i))
    }

    /** The inode as Links has it, its entries read off the blocks. */
    ghost function At(i: nat): Links.Inode
      requires InodeOk(i)
    {
      Links.Inode(info[i].kind, info[i].nlink, if info[i].kind == Links.T_DIR then EntriesOf(im, i) else [])
    }

    ghost function Table(): (t: Links.Table)
      requires Ok()
      ensures |t| == |info| && forall i :: 0 <= i < |t| ==> t[i] == At(i)
    {
      seq(|info|, i requires 0 <= i < |info| => assert InodeOk(i); At(i))
    }
  }

  function NoBlocks(): FileBlocks.Inode {
    FileBlocks.Inode(0, seq(NDIRECT + 1, _ => 0))
  }

  predicate IsFile(kind: Links.Kind) {
    kind == Links.T_FILE || kind == Links.T_DEV
  }

  /** Every block that differs has been logged. */
  ghost predicate AllLogged(a: Store, c: Store, logged: set<Logged>) {
    && |a.info| == |c.info| == |a.im.inode| == |c.im.inode|
    && |c.im.block| == |a.im.block| && |c.im.used| == |a.im.used|
    && (forall b {:trigger c.im.block[b]} :: 0 <= b < |c.im.block| && c.im.block[b] != a.im.block[b] ==>
          DiskBlock(b) in logged)
    && (forall b {:trigger c.im.used[b]} :: 0 <= b < |c.im.used| && c.im.used[b] != a.im.used[b] ==>
          BitmapBlock(b / BPB) in logged)
    && (forall j {:trigger c.info[j]} {:trigger c.im.inode[j]} :: 0 <= j < |c.info| ==>
          (c.im.inode[j] == a.im.inode[j] && c.info[j] == a.info[j]) || InodeBlock(j / IPB) in logged)
  }

  /** And every file is there with its bytes. */
  ghost predicate Changes(a: Store, c: Store, logged: set<Logged>) {
    && a.im.Shape() && c.im.Shape() && AllLogged(a, c, logged)
    && (forall j {:trigger a.info[j]} :: 0 <= j < |c.info| && IsFile(a.info[j].kind) ==>
          IsFile(c.info[j].kind) && c.im.Bytes(j) == a.im.Bytes(j))
  }

  lemma ChangesStep(a: Store, b: Store, c: Store, logged: set<Logged>, logged': set<Logged>)
    requires Changes(a, b, logged) && Changes(b, c, logged') && logged <= logged'
    ensures Changes(a, c, logged')
  {
    hide Image.Bytes, Image.Shape;
    forall x | 0 <= x < |c.im.block| && c.im.block[x] != a.im.block[x] ensures DiskBlock(x) in logged' {
      assert c.im.block[x] != b.im.block[x] || b.im.block[x] != a.im.block[x];
    }
    forall x | 0 <= x < |c.im.used| && c.im.used[x] != a.im.used[x] ensures BitmapBlock(x / BPB) in logged' {
      assert c.im.used[x] != b.im.used[x] || b.im.used[x] != a.im.used[x];
    }
    forall j | 0 <= j < |c.info|
      ensures (c.im.inode[j] == a.im.inode[j] && c.info[j] == a.info[j]) || InodeBlock(j / IPB) in logged'
    {
      assert (b.im.inode[j] == a.im.inode[j] && b.info[j] == a.info[j]) || InodeBlock(j / IPB) in logged;
    }
  }

  /** An entry written in the blocks is that entry of the table. */
  lemma TableEntered(a: Store, c: Store, before: set<Logged>, logged: set<Logged>, d: nat, k: nat, e: Links.Dirent,
                     blocks: set<Logged>)
    requires a.Ok() && Links.IsDir(a.Table(), d) && c.info == a.info
    requires EntryWritten(a.im, c.im, before, logged, d, k, e, blocks)
    ensures c.Ok() && k <= |a.Table()[d].entries| && c.Table() == Links.WithEntry(a.Table(), d, k, e)
    ensures Changes(a, c, logged)
  {
    hide Image.Bytes, Entries, Image.Owned, Image.NoLeaks, Image.NoHoles, Image.Shape;
    forall j: nat | j < |c.info|
      ensures c.InodeOk(j) && c.At(j) == if j == d then a.At(d).(entries := EntriesOf(c.im, d)) else a.At(j)
    {
      assert a.InodeOk(j);
      if j != d && c.info[j].kind == Links.T_DIR {
        assert c.im.inode[j] == a.im.inode[j] && c.im.Bytes(j) == a.im.Bytes(j);
      }
    }
  }

  /** A link counted or taken back, and iupdate. */
  lemma TableRelinked(a: Store, c: Store, i: nat, delta: int, logged: set<Logged>)
    requires a.Ok() && i < |a.info| && InodeBlock(i / IPB) in logged
    requires c == a.(info := a.info[i := a.info[i].(nlink := a.info[i].nlink + delta)])
    ensures c.Ok() && c.Table() == Links.WithLinks(a.Table(), i, delta) && Changes(a, c, logged)
  {
    hide EntriesOf, Image.Bytes, Image.Owned, Image.NoLeaks, Image.NoHoles, Image.Shape;
    forall j: nat | j < |c.info|
      ensures c.InodeOk(j) && c.At(j) == if j == i then a.At(i).(nlink := a.At(i).nlink + delta) else a.At(j)
    {
      assert a.InodeOk(j);
    }
  }

  /** A free inode taken into use is an empty file or directory. */
  lemma TableMade(a: Store, c: Store, i: nat, kind: Links.Kind, logged: set<Logged>)
    requires a.Ok() && i < |a.info| && InodeBlock(i / IPB) in logged && a.info[i].kind == Links.NONE
    requires kind != Links.NONE && c == a.(info := a.info[i := Info(kind, 1)])
    ensures c.Ok() && c.Table() == a.Table()[i := Links.Inode(kind, 1, [])] && Changes(a, c, logged)
  {
    hide Image.Bytes, Image.Owned, Image.NoLeaks, Image.NoHoles, Image.Shape;
    forall j: nat | j < |c.info|
      ensures c.InodeOk(j) && c.At(j) == if j == i then Links.Inode(kind, 1, []) else a.At(j)
    {
      assert a.InodeOk(i) && a.InodeOk(j);
    }
  }

  /** An inode freed by iput holds nothing. */
  lemma TableFreed(a: Store, c: Store, i: nat, logged: set<Logged>)
    requires a.Ok() && i < |a.info| && InodeBlock(i / IPB) in logged && Recorded(a.im, c.im, i, logged)
    requires c.im.Valid() && Truncated(a.im, c.im, i) && c.info == a.info[i := Info(Links.NONE, 0)]
    ensures c.Ok() && c.Table() == a.Table()[i := Links.Inode(Links.NONE, 0, [])] && AllLogged(a, c, logged)
    ensures OthersKept(a.im, c.im, i)
  {
    hide Image.Bytes, Image.Owned, Image.NoLeaks, Image.NoHoles, Image.Shape, FreedAll;
    EmptyInode(c.im, i);
    forall j: nat | j < |c.info|
      ensures c.InodeOk(j) && c.At(j) == if j == i then Links.Inode(Links.NONE, 0, []) else a.At(j)
    {
      assert a.InodeOk(j);
    }
  }

  lemma EmptyInode(im: Image, i: nat)
    requires im.Valid() && i < |im.inode| && forall k {:trigger im.Slot(i, k)} :: 0 <= k < NSLOTS ==> im.Slot(i, k) == 0
    ensures im.inode[i] == NoBlocks()
  {
    assert im.Slot(i, DataSlot(0)) == 0;
    forall k: nat | k < NDIRECT + 1 ensures im.inode[i].addrs[k] == 0 { assert im.Slot(i, k) == 0; }
    assert im.inode[i].addrs == NoBlocks().addrs;
  }

  // ---------- create, link and unlink ----------

  /** Entry k of directory d has become e, on disk and in the table. */
  ghost predicate Enters(a: Store, c: Store, before: set<Logged>, logged: set<Logged>, d: nat, e: Links.Dirent, k: nat,
                         blocks: set<Logged>)
  {
    && a.Ok() && Links.IsDir(a.Table(), d) && Budgeted(before, logged, d, blocks, |c.im.used|)
    && Changes(a, c, logged) && c.info == a.info
    && c.Ok() && k <= |a.Table()[d].entries| && c.Table() == Links.WithEntry(a.Table(), d, k, e)
  }

  /** What dirlink does to the table. */
  ghost predicate LinksEntry(a: Store, c: Store, before: set<Logged>, logged: set<Logged>, d: nat, e: Links.Dirent,
                             ok: bool, r: int, k: nat, blocks: set<Logged>)
  {
    && a.Ok() && Links.IsDir(a.Table(), d)
    && if Links.HasName(a.Table(), d, e.name) then ok && r == -1 && c == a && logged == before
       else
         && r == 0 && Links.FirstFree(a.Table()[d].entries, k)
         && if ok then Enters(a, c, before, logged, d, e, k, blocks)
            else k == |a.Table()[d].entries| && NoRoom(k, c.im.used)
  }

  lemma DirlinkTable(a: Store, c: Store, before: set<Logged>, logged: set<Logged>, d: nat, e: Links.Dirent,
                     ok: bool, r: int, k: nat, blocks: set<Logged>)
    requires a.Ok() && Links.IsDir(a.Table(), d) && c.info == a.info
    requires DirOk(a.im, d) && DirlinkDone(a.im, c.im, before, logged, d, e, ok, r, k, blocks)
    ensures LinksEntry(a, c, before, logged, d, e, ok, r, k, blocks)
  {
    hide Image.Valid, Image.Shape, EntriesOf, NoRoom, Links.FirstFree, Changes, EntryWritten, DirOk, Store.Ok;
    assert a.Table()[d].entries == EntriesOf(a.im, d);
    assert Links.HasName(a.Table(), d, e.name) <==> Taken(EntriesOf(a.im, d), e.name);
    if ok && r == 0 {
      WrittenBudget(a.im, c.im, before, logged, d, k, e, blocks);
      TableEntered(a, c, before, logged, d, k, e, blocks);
    }
  }

  lemma WrittenBudget(im0: Image, im: Image, before: set<Logged>, logged: set<Logged>, d: nat, k: nat,
                      e: Links.Dirent, blocks: set<Logged>)
    requires EntryWritten(im0, im, before, logged, d, k, e, blocks)
    ensures Budgeted(before, logged, d, blocks, |im.used|)
  {
  }

  /** What a transaction promises: the changes are logged, in at most n blocks if there is one bitmap block. */
  ghost predicate Commits(a: Store, c: Store, logged: set<Logged>, n: nat) {
    c.Ok() && Changes(a, c, logged) && (|c.im.used| <= BPB ==> |logged| <= n <= MAXOPBLOCKS)
  }

  /** create before its last dirlink: inode i is made, and is a directory in d if need be. */
  ghost predicate NewInode(a: Store, b: Store, logged: set<Logged>, d: nat, i: nat, kind: Links.Kind, b1: set<Logged>,
                           b2: set<Logged>)
  {
    && |b1| <= 2 && |b2| <= 2
    && (|b.im.used| <= BPB ==> logged <= {BitmapBlock(0), InodeBlock(i / IPB), InodeBlock(d / IPB)} + b1 + b2)
    && a.Ok() && b.Ok() && i < |a.info| && d < |a.info| && i != d && Changes(a, b, logged)
    && b.Table() == WithInode(a.Table(), i, kind, d)
  }

  /** A new inode in the table; a directory has its entries and counts as a link to its parent. */
  function WithInode(t: Links.Table, i: nat, kind: Links.Kind, d: nat): Links.Table
    requires i < |t| && d < |t|
  {
    if kind == Links.T_DIR then Links.WithLinks(t[i := Links.NewDir(i, d)], d, 1)
    else t[i := Links.Inode(kind, 1, [])]
  }

  ghost predicate FreeEntryIn(b: Store, d: nat, k: nat) {
    b.Ok() && d < |b.info| && Links.FirstFree(b.Table()[d].entries, k)
  }

  /** What create has found when it makes inode i. */
  ghost predicate MayCreate(a: Store, pending: seq<nat>, d: nat, name: string, i: nat) {
    && NameOk(name) && a.Ok() && Links.FirstInode(a.Table(), i) && i != d
    && Links.IsDir(a.Table(), d) && !Links.HasName(a.Table(), d, name) && Links.Good(a.Table(), pending)
  }

  /** create does on disk what it does in Links, or runs out of room. */
  ghost predicate CreatesOnDisk(a: Store, c: Store, logged: set<Logged>, pending: seq<nat>, d: nat, name: string,
                                kind: Links.Kind, ok: bool, r: Links.Created, k: nat)
  {
    && a.Ok() && Links.IsDir(a.Table(), d)
    && if ok then
         && Commits(a, c, logged, 9) && Links.Creates(a.Table(), d, name, kind, r, k, c.Table())
         && (r.Made? ==> (Links.Good(c.Table(), pending) <==> Links.Linked(a.Table(), d)))
       else NoRoom(|a.Table()[d].entries|, c.im.used)
  }

  /** link counts the file once more and enters it, or changes nothing, or runs out of room. */
  ghost predicate LinksOnDisk(a: Store, c: Store, logged: set<Logged>, pending: seq<nat>, i: nat, d: nat, name: string,
                              ok: bool, r: int, k: nat)
  {
    && a.Ok() && i < |a.info| && (d != 0 ==> Links.IsDir(a.Table(), d))
    && if a.info[i].kind == Links.T_DIR || d == 0 || Links.HasName(a.Table(), d, name) then
         ok && r == -1 && c == a && |logged| <= 1
       else if ok then
         && r == 0 && Commits(a, c, logged, 5) && Links.FirstFree(a.Table()[d].entries, k)
         && c.Table() == Links.WithEntry(Links.WithLinks(a.Table(), i, 1), d, k, Links.Dirent(i, name))
         && (Links.Good(c.Table(), pending) <==> Links.Linked(a.Table(), d))
       else NoRoom(|a.Table()[d].entries|, c.im.used)
  }

  /** unlink does on disk what it does in Links. */
  ghost predicate UnlinksOnDisk(a: Store, c: Store, logged: set<Logged>, pending: seq<nat>, d: nat, name: string,
                                r: int, k: nat)
  {
    && a.Ok() && Commits(a, c, logged, 5) && Links.Unlinks(a.Table(), d, name, r, k, c.Table())
    && Links.Good(c.Table(), pending)
  }

  /** iput frees an inode without links and all it holds; every other one keeps its bytes. */
  ghost predicate Puts(a: Store, c: Store, before: set<Logged>, logged: set<Logged>, pending: seq<nat>, i: nat) {
    && i < |a.info| && a.Ok() && c.Ok()
    && if a.info[i].nlink != 0 then c == a && logged == before
       else
         && (|c.im.used| <= BPB ==> logged <= before + {BitmapBlock(0), InodeBlock(i / IPB)})
         && before <= logged && AllLogged(a, c, logged) && OthersKept(a.im, c.im, i)
         && c.Table() == a.Table()[i := Links.Inode(Links.NONE, 0, [])] && Links.Good(c.Table(), pending)
  }

  lemma OkValid(a: Store)
    requires a.Ok()
    ensures a.im.Valid()
  {
  }

  lemma SameName(a: Store, b: Store, d: nat, name: string)
    requires a.Ok() && b.Ok() && d < |a.info| && d < |b.info| && b.Table()[d].entries == a.Table()[d].entries
    ensures Links.HasName(a.Table(), d, name) <==> Links.HasName(b.Table(), d, name)
  {
  }

  lemma FewBlocks(x: Logged, y: Logged, z: Logged, b1: set<Logged>, b2: set<Logged>, b3: set<Logged>, all: set<Logged>)
    requires all <= {x, y, z} + b1 + b2 + b3 && |b1| <= 2 && |b2| <= 2 && |b3| <= 2
    ensures |all| <= 5 + |b1| + |b2|
  {
    SubsetSize(all, {x, y, z} + b1 + b2 + b3);
  }

  /** The two entries of a new directory, and the link to its parent. */
  lemma DotsEntered(t: Links.Table, i: nat, d: nat, t': Links.Table)
    requires i < |t| && d < |t| && i != d && t[i] == Links.Inode(Links.T_DIR, 1, [])
    requires t' == Links.WithEntry(Links.WithEntry(Links.WithLinks(t, d, 1), i, 0, Links.Dirent(i, ".")), i, 1,
                                   Links.Dirent(d, ".."))
    ensures t' == Links.WithLinks(t[i := Links.NewDir(i, d)], d, 1)
  {
    assert t'[i].entries == [Links.Dirent(i, "."), Links.Dirent(d, "..")];
    forall j | 0 <= j < |t| ensures t'[j] == Links.WithLinks(t[i := Links.NewDir(i, d)], d, 1)[j] {}
  }

  /** Directory i, which was empty, has its two entries, and d the link. */
  ghost predicate DotsMade(a: Store, c: Store, before: set<Logged>, logged: set<Logged>, i: nat, d: nat,
                           b1: set<Logged>, b2: set<Logged>)
  {
    && before <= logged && |b1| <= 2 && |b2| <= 2
    && (|c.im.used| <= BPB ==>
          logged <= before + {BitmapBlock(0), InodeBlock(i / IPB), InodeBlock(d / IPB)} + b1 + b2)
    && c.Ok() && a.Ok() && i < |a.info| && d < |a.info| && Changes(a, c, logged)
    && c.Table() == Links.WithLinks(a.Table()[i := Links.NewDir(i, d)], d, 1)
  }

  /** The two calls of dirlink for them meet an empty directory: they cannot be refused. */
  lemma DotsDone(a: Store, a1: Store, b: Store, c: Store, before: set<Logged>, l0: set<Logged>, l1: set<Logged>,
                 logged: set<Logged>, i: nat, d: nat, k1: nat, b1: set<Logged>, k2: nat, b2: set<Logged>)
    requires a.Ok() && i < |a.info| && d < |a.info| && i != d && a.Table()[i] == Links.Inode(Links.T_DIR, 1, [])
    requires a1.Ok() && a1.Table() == Links.WithLinks(a.Table(), d, 1)
    requires l0 == before + {InodeBlock(d / IPB)} && k1 == 0 && k2 == 1 && Changes(a, a1, l0)
    requires Enters(a1, b, l0, l1, i, Links.Dirent(i, "."), k1, b1)
    requires Enters(b, c, l1, logged, i, Links.Dirent(d, ".."), k2, b2)
    ensures DotsMade(a, c, before, logged, i, d, b1, b2)
  {
    hide Store.Ok, Changes, Image.Valid;
    DotsEntered(a.Table(), i, d, c.Table());
    ChangesStep(a, a1, b, l0, l1);
    ChangesStep(a, b, c, l1, logged);
    ChangesSizes(b, c, logged);
  }

  lemma ChangesSizes(a: Store, c: Store, logged: set<Logged>)
    requires Changes(a, c, logged)
    ensures |c.im.used| == |a.im.used| && |c.info| == |a.info|
  {
  }

  class DiskTree {
    const fs: FileSystem
    var info: seq<Info>

    function Disk(): Store
      reads this, fs
    {
      Store(fs.Im(), info)
    }

    constructor (fs: FileSystem, info: seq<Info>)
      ensures this.fs == fs && this.info == info
    {
      this.fs, this.info := fs, info;
    }

    /** dirlink */
    method Enter(d: nat, name: string, inum: nat) returns (ok: bool, r: int, ghost k: nat, ghost blocks: set<Logged>)
      requires Disk().Ok() && Links.IsDir(Disk().Table(), d) && EntryOk(Links.Dirent(inum, name))
      modifies fs
      ensures LinksEntry(old(Disk()), Disk(), old(fs.logged), fs.logged, d, Links.Dirent(inum, name), ok, r, k, blocks)
    {
      hide Image.Valid, Image.Shape, EntriesOf, DirlinkDone, LinksEntry;
      assert Disk().InodeOk(d);
      ok, r, k, blocks := Dirlink(fs, d, name, inum);
      DirlinkTable(old(Disk()), Disk(), old(fs.logged), fs.logged, d, Links.Dirent(inum, name), ok, r, k, blocks);
    }

    /** The search and the writes of ialloc, with the first iupdate of create. */
    method Ialloc(kind: Links.Kind) returns (i: nat)
      requires Disk().Ok() && kind != Links.NONE && |info| > 0
      modifies this, fs
      ensures 0 < i <= |old(info)| && forall j :: 0 < j < i ==> old(info)[j].kind != Links.NONE
      ensures i == |old(info)| ==> Disk() == old(Disk()) && fs.logged == old(fs.logged)
      ensures i < |old(info)| ==>
        && old(info)[i].kind == Links.NONE && fs.Im() == old(fs.Im()) && info == old(info)[i := Info(kind, 1)]
        && fs.logged == old(fs.logged) + {InodeBlock(i / IPB)}
    {
      hide Image.Valid, Image.Shape, EntriesOf;
      i := 1;
      while i < |info| && info[i].kind != Links.NONE
        invariant 0 < i <= |info| && forall j :: 0 < j < i ==> info[j].kind != Links.NONE
        invariant Disk() == old(Disk()) && fs.logged == old(fs.logged)
      {
        i := i + 1;
      }
      if i < |info| {
        assert Disk().InodeOk(i);
        fs.inode := fs.inode[i := NoBlocks()];
        assert fs.inode == old(fs.inode);
        info := info[i := Info(kind, 1)];
        fs.Iupdate(i);
      }
    }

    /** The directory part of create. */
    method EnterDots(i: nat, d: nat) returns (ok: bool, ghost b1: set<Logged>, ghost b2: set<Logged>)
      requires Disk().Ok() && Links.IsDir(Disk().Table(), d) && 0 < i < |info| && i != d
      requires Disk().Table()[i] == Links.Inode(Links.T_DIR, 1, [])
      modifies this, fs
      ensures if ok then DotsMade(old(Disk()), Disk(), old(fs.logged), fs.logged, i, d, b1, b2)
              else forall b :: 0 <= b < |fs.used| ==> fs.used[b]
    {
      hide Image.Valid, Image.Shape, EntriesOf, Store.Ok, Changes, Enters, DotsMade;
      ghost var a, before := Disk(), fs.logged;
      OkSizes(a);
      var r;
      ghost var k1, k2;
      b1, b2 := {}, {};
      info := info[d := info[d].(nlink := info[d].nlink + 1)];
      fs.Iupdate(d);
      ghost var a1, l0 := Disk(), fs.logged;
      TableRelinked(a, a1, d, 1, l0);
      assert a1.Table()[i] == a.Table()[i];
      ok, r, k1, b1 := Enter(i, ".", i);
      if !ok { return; }
      ghost var b, l1 := Disk(), fs.logged;
      EntersTable(a1, b, l0, l1, i, Links.Dirent(i, "."), k1, b1);
      assert b.Table()[i].entries == [Links.Dirent(i, ".")];
      ok, r, k2, b2 := Enter(i, "..", d);
      if !ok { return; }
      DotsDone(a, a1, b, Disk(), before, l0, l1, fs.logged, i, d, k1, b1, k2, b2);
    }

    /** create, in directory d. */
    method Create(d: nat, name: string, kind: Links.Kind, ghost pending: seq<nat>)
      returns (ok: bool, r: Links.Created, ghost k: nat)
      requires Disk().Ok() && Links.IsDir(Disk().Table(), d) && Links.Good(Disk().Table(), pending)
      requires kind != Links.NONE && NameOk(name)
      modifies this, fs
      ensures CreatesOnDisk(old(Disk()), Disk(), fs.logged, pending, d, name, kind, ok, r, k)
    {
      hide Image.Valid, Image.Shape, EntriesOf, Store.Ok, Changes, Links.Good;
      ghost var a := Disk();
      fs.logged := {};
      ok, k := true, 0;
      NothingChanged(a, {});
      OkSizes(a);
      DirIsOk(a, d);
      var found := Dirlookup(fs, d, name);
      assert Links.HasName(a.Table(), d, name) <==> Taken(EntriesOf(a.im, d), name);
      if found < fs.inode[d].size / DIRENT {
        k := found;
        var e := ReadEntry(fs, d, found);
        Links.EntryExists(a.Table(), pending, d, found);
        if info[e.inum].kind == Links.NONE {
          return true, Links.Panic, k;
        }
        if kind == Links.T_FILE && info[e.inum].kind == Links.T_FILE {
          return true, Links.Found(e.inum), k;
        }
        return true, Links.Refused, k;
      }
      var i := Ialloc(kind);
      if i == |info| {
        return true, Links.Panic, k;
      }
      ok, k := CreateWith(a, d, name, kind, i, pending);
      r := Links.Made(i);
    }

    /** sys_link with inode i, in directory d (0 if there is none). */
    method Link(i: nat, d: nat, name: string, ghost pending: seq<nat>) returns (ok: bool, r: int, ghost k: nat)
      requires Disk().Ok() && 0 < i < |info| && info[i].kind != Links.NONE && NameOk(name)
      requires (d != 0 ==> Links.IsDir(Disk().Table(), d)) && Links.Good(Disk().Table(), pending)
      modifies this, fs
      ensures LinksOnDisk(old(Disk()), Disk(), fs.logged, pending, i, d, name, ok, r, k)
    {
      hide Image.Valid, Image.Shape, EntriesOf, Store.Ok, Changes, Links.Good, Enters;
      ghost var a := Disk();
      fs.logged := {};
      ok, r, k := true, -1, 0;
      OkSizes(a);
      if info[i].kind == Links.T_DIR {
        return;
      }
      info := info[i := info[i].(nlink := info[i].nlink + 1)];
      fs.Iupdate(i);
      ghost var b, before := Disk(), fs.logged;
      TableRelinked(a, b, i, 1, before);
      ghost var blocks;
      if d != 0 {
        assert b.Table()[d] == a.Table()[d];
        SameName(a, b, d, name);
        ok, r, k, blocks := Enter(d, name, i);
      }
      if ok && r == -1 {
        info := info[i := info[i].(nlink := info[i].nlink - 1)];
        fs.Iupdate(i);
        assert info == a.info;
      } else if ok {
        LinkDone(a, b, Disk(), before, fs.logged, pending, i, d, name, k, blocks);
      }
    }

    /** sys_unlink in directory d. It never runs out of room. */
    method Unlink(d: nat, name: string, ghost pending: seq<nat>) returns (r: int, k: nat)
      requires Disk().Ok() && Links.IsDir(Disk().Table(), d) && Links.Good(Disk().Table(), pending)
      modifies this, fs
      ensures UnlinksOnDisk(old(Disk()), Disk(), fs.logged, pending, d, name, r, k)
    {
      hide Image.Valid, Image.Shape, EntriesOf, Store.Ok, Changes, Links.Good, EntryWritten;
      ghost var a := Disk();
      fs.logged := {};
      k := 0;
      NothingChanged(a, {});
      OkSizes(a);
      DirIsOk(a, d);
      if name == "." || name == ".." {
        return -1, k;
      }
      k := Dirlookup(fs, d, name);
      if k == fs.inode[d].size / DIRENT {
        return -1, k;
      }
      var e := ReadEntry(fs, d, k);
      Links.EntryCountsOne(a.Table(), pending, d, k);
      if info[e.inum].kind == Links.T_DIR {
        DirIsOk(a, e.inum);
        var empty := Isdirempty(fs, e.inum);
        if !empty {
          return -1, k;
        }
      }
      TakeOut(d, name, k, e.inum, pending);
      r := 0;
    }

    /** The writes of unlink. */
    method TakeOut(d: nat, ghost name: string, k: nat, i: nat, ghost pending: seq<nat>)
      requires Disk().Ok() && fs.logged == {} && MayUnlink(Disk().Table(), pending, d, name, k, i)
      modifies this, fs
      ensures UnlinksOnDisk(old(Disk()), Disk(), fs.logged, pending, d, name, 0, k)
    {
      hide Image.Valid, Image.Shape, EntriesOf, Store.Ok, Changes, Links.Good, EntryWritten;
      ghost var a := Disk();
      OkSizes(a);
      DirIsOk(a, d);
      var ok;
      ghost var blocks;
      ok, blocks := WriteEntry(fs, d, k, Links.EMPTY);
      ghost var b, before := Disk(), fs.logged;
      TableEntered(a, b, {}, before, d, k, Links.EMPTY, blocks);
      WrittenBudget(a.im, b.im, {}, before, d, k, Links.EMPTY, blocks);
      NothingChanged(b, before);
      if info[i].kind == Links.T_DIR {
        info := info[d := info[d].(nlink := info[d].nlink - 1)];
        fs.Iupdate(d);
        TableRelinked(b, Disk(), d, -1, fs.logged);
      }
      ghost var c, midlog := Disk(), fs.logged;
      info := info[i := info[i].(nlink := info[i].nlink - 1)];
      fs.Iupdate(i);
      TableRelinked(c, Disk(), i, -1, fs.logged);
      ChangesStep(b, c, Disk(), midlog, fs.logged);
      UnlinkDone(a, b, Disk(), before, fs.logged, pending, d, name, k, i, blocks);
    }

    /** iput, when it drops the last reference in memory. */
    method Iput(i: nat, ghost pending: seq<nat>)
      requires Disk().Ok() && 0 < i < |info| && Links.Good(Disk().Table(), pending)
      modifies this, fs
      ensures Puts(old(Disk()), Disk(), old(fs.logged), fs.logged, pending, i)
    {
      hide Image.Valid, Image.Shape, EntriesOf, Store.Ok, Links.Good, Truncated, Recorded;
      ghost var a := Disk();
      OkSizes(a);
      if info[i].nlink == 0 {
        assert a.im.Valid() by { OkValid(a); }
        fs.Itrunc(i);
        info := info[i := Info(Links.NONE, 0)];
        TableFreed(a, Disk(), i, fs.logged);
        fs.Iupdate(i);
        assert fs.logged == fs.logged + {InodeBlock(i / IPB)};
        Links.InodeFreed(a.Table(), pending, i, Disk().Table());
      }
    }

    /** The rest of create, with the new inode i. */
    method CreateWith(ghost a: Store, d: nat, name: string, kind: Links.Kind, i: nat, ghost pending: seq<nat>)
      returns (ok: bool, ghost k: nat)
      requires kind != Links.NONE && i < |a.info| && Disk() == a.(info := a.info[i := Info(kind, 1)])
      requires fs.logged == {InodeBlock(i / IPB)} && MayCreate(a, pending, d, name, i)
      modifies this, fs
      ensures CreatesOnDisk(a, Disk(), fs.logged, pending, d, name, kind, ok, Links.Made(i), k)
    {
      hide Image.Valid, Image.Shape, EntriesOf, Store.Ok, Changes, Links.Good, Enters, DotsMade;
      ghost var b0, b1, b2, b3: set<Logged> := Disk(), {}, {}, {};
      TableMade(a, b0, i, kind, fs.logged);
      OkSizes(a);
      assert b0.Table()[d] == a.Table()[d];
      ok, k := true, 0;
      if kind == Links.T_DIR {
        ok, b1, b2 := EnterDots(i, d);
        if !ok { return; }
        DotsTable(a, b0, Disk(), fs.logged, i, d, b1, b2);
      }
      ghost var b, before := Disk(), fs.logged;
      assert NewInode(a, b, before, d, i, kind, b1, b2);
      var r;
      SameName(a, b, d, name);
      ok, r, k, b3 := Enter(d, name, i);
      if ok {
        CreateDone(a, b, Disk(), before, fs.logged, pending, d, name, kind, i, k, b1, b2, b3);
      }
    }
  }

  lemma LinkDone(a: Store, b: Store, c: Store, before: set<Logged>, logged: set<Logged>, pending: seq<nat>, i: nat,
                 d: nat, name: string, k: nat, blocks: set<Logged>)
    requires a.Ok() && 0 < i < |a.info| && d < |a.info| && IsFile(a.info[i].kind) && before == {InodeBlock(i / IPB)}
    requires b.Ok() && b.Table() == Links.WithLinks(a.Table(), i, 1) && Links.IsDir(a.Table(), d)
    requires !Links.HasName(a.Table(), d, name) && Links.Good(a.Table(), pending) && Changes(a, b, before)
    requires Enters(b, c, before, logged, d, Links.Dirent(i, name), k, blocks) && FreeEntryIn(b, d, k)
    ensures LinksOnDisk(a, c, logged, pending, i, d, name, true, 0, k)
  {
    hide Store.Ok, Changes, Image.Valid, Links.Good, Links.HasName, Budgeted;
    CreateBudget(before, logged, d, i, {}, {}, blocks, |c.im.used|);
    ChangesStep(a, b, c, before, logged);
    Links.LinkMade(a.Table(), pending, d, k, i, name, c.Table());
  }

  lemma UnlinkDone(a: Store, b: Store, c: Store, before: set<Logged>, logged: set<Logged>, pending: seq<nat>, d: nat,
                   name: string, k: nat, i: nat, blocks: set<Logged>)
    requires before <= logged <= before + {InodeBlock(d / IPB), InodeBlock(i / IPB)}
    requires a.Ok() && c.Ok() && c.Table() == UnlinkedTable(a.Table(), d, k, i)
    requires MayUnlink(a.Table(), pending, d, name, k, i)
    requires Budgeted({}, before, d, blocks, |b.im.used|) && Changes(a, b, before) && Changes(b, c, logged)
    ensures UnlinksOnDisk(a, c, logged, pending, d, name, 0, k)
  {
    hide Store.Ok, Changes, Image.Valid, MayUnlink, Links.Unlinks, Links.Good;
    ChangesSizes(b, c, logged);
    if |b.im.used| <= BPB {
      FewBlocks(BitmapBlock(0), InodeBlock(d / IPB), InodeBlock(i / IPB), {}, {}, blocks, logged);
    }
    ChangesStep(a, b, c, before, logged);
    UnlinkTable(a.Table(), pending, d, name, k, i);
  }

  /** What unlink has found when it takes out entry k. */
  ghost predicate MayUnlink(t: Links.Table, pending: seq<nat>, d: nat, name: string, k: nat, i: nat) {
    && name != "." && name != ".." && 0 < i < |t| && Links.IsDir(t, d)
    && Links.FirstNamed(t[d].entries, name, k) && t[d].entries[k].inum == i
    && (t[i].kind == Links.T_DIR ==> Links.EmptyDir(t, i))
    && Links.Good(t, pending)
  }

  /** What the steps of unlink make of the table. */
  function UnlinkedTable(t: Links.Table, d: nat, k: nat, i: nat): Links.Table {
    if d >= |t| || i >= |t| || k >= |t[d].entries| then t else
    var t1 := Links.WithEntry(t, d, k, Links.EMPTY);
    Links.WithLinks(if t1[i].kind == Links.T_DIR then Links.WithLinks(t1, d, -1) else t1, i, -1)
  }

  lemma UnlinkTable(t: Links.Table, pending: seq<nat>, d: nat, name: string, k: nat, i: nat)
    requires MayUnlink(t, pending, d, name, k, i)
    ensures Links.Unlinks(t, d, name, 0, k, UnlinkedTable(t, d, k, i))
    ensures Links.Good(UnlinkedTable(t, d, k, i), pending)
  {
    hide Links.Good;
    Links.EntryCountsOne(t, pending, d, k);
    Links.EntryUnlinked(t, pending, d, k);
  }

  lemma CreateDone(a: Store, b: Store, c: Store, before: set<Logged>, logged: set<Logged>, pending: seq<nat>, d: nat,
                   name: string, kind: Links.Kind, i: nat, k: nat, b1: set<Logged>, b2: set<Logged>, b3: set<Logged>)
    requires kind != Links.NONE && NewInode(a, b, before, d, i, kind, b1, b2)
    requires Enters(b, c, before, logged, d, Links.Dirent(i, name), k, b3) && FreeEntryIn(b, d, k)
    requires MayCreate(a, pending, d, name, i)
    ensures CreatesOnDisk(a, c, logged, pending, d, name, kind, true, Links.Made(i), k)
  {
    hide Store.Ok, Changes, Image.Valid, Links.Good, Links.HasName, Links.FirstFree, Links.Creates, Budgeted, WithInode;
    ChangesSizes(b, c, logged);
    CreateBudget(before, logged, d, i, b1, b2, b3, |c.im.used|);
    ChangesStep(a, b, c, before, logged);
    TableCreated(a.Table(), b.Table(), pending, d, name, kind, i, k);
  }

  lemma CreateBudget(before: set<Logged>, logged: set<Logged>, d: nat, i: nat, b1: set<Logged>, b2: set<Logged>,
                     b3: set<Logged>, size: nat)
    requires |b1| <= 2 && |b2| <= 2 && Budgeted(before, logged, d, b3, size)
    requires size <= BPB ==> before <= {BitmapBlock(0), InodeBlock(i / IPB), InodeBlock(d / IPB)} + b1 + b2
    ensures before <= logged && (size <= BPB ==> |logged| <= 5 + |b1| + |b2|)
  {
    if size <= BPB {
      FewBlocks(BitmapBlock(0), InodeBlock(i / IPB), InodeBlock(d / IPB), b1, b2, b3, logged);
    }
  }

  /** The table after create's last dirlink. */
  lemma TableCreated(t: Links.Table, t1: Links.Table, pending: seq<nat>, d: nat, name: string, kind: Links.Kind, i: nat,
                     k: nat)
    requires kind != Links.NONE && Links.FirstInode(t, i) && i != d && Links.IsDir(t, d)
    requires t1 == WithInode(t, i, kind, d) && Links.FirstFree(t1[d].entries, k)
    requires !Links.HasName(t, d, name) && Links.Good(t, pending)
    ensures var t' := Links.WithEntry(t1, d, k, Links.Dirent(i, name));
      && Links.Creates(t, d, name, kind, Links.Made(i), k, t')
      && (Links.Good(t', pending) <==> Links.Linked(t, d))
  {
    hide Links.Good, Links.HasName;
    var t' := Links.WithEntry(t1, d, k, Links.Dirent(i, name));
    assert t1[d].entries == t[d].entries && t[i].kind == Links.NONE;
    if kind == Links.T_DIR {
      Links.NewDirMade(t, pending, d, k, i, name, t');
    } else {
      Links.FileMade(t, pending, d, k, i, name, kind, t');
    }
  }

  lemma DotsTable(a: Store, b0: Store, b: Store, logged: set<Logged>, i: nat, d: nat, b1: set<Logged>, b2: set<Logged>)
    requires DotsMade(b0, b, {InodeBlock(i / IPB)}, logged, i, d, b1, b2) && i != d
    requires a.Ok() && i < |a.info| && b0.Ok() && b0.Table() == a.Table()[i := Links.Inode(Links.T_DIR, 1, [])]
    requires Changes(a, b0, {InodeBlock(i / IPB)})
    ensures NewInode(a, b, logged, d, i, Links.T_DIR, b1, b2)
  {
    hide Image.Valid, Store.Ok, Changes;
    ChangesStep(a, b0, b, {InodeBlock(i / IPB)}, logged);
  }

  lemma DirIsOk(a: Store, d: nat)
    requires a.Ok() && Links.IsDir(a.Table(), d)
    ensures DirOk(a.im, d) && a.Table()[d].entries == EntriesOf(a.im, d)
  {
    assert a.InodeOk(d);
  }

  lemma NothingChanged(a: Store, logged: set<Logged>)
    requires a.Ok()
    ensures Changes(a, a, logged)
  {
  }

  lemma OkSizes(a: Store)
    requires a.Ok()
    ensures |a.info| == |a.im.inode| <= 0x1_0000
  {
  }

  lemma EntersTable(a: Store, c: Store, before: set<Logged>, logged: set<Logged>, d: nat, e: Links.Dirent, k: nat,
                    blocks: set<Logged>)
    requires a.Ok() && Links.IsDir(a.Table(), d) && Enters(a, c, before, logged, d, e, k, blocks)
    ensures c.Ok() && c.info == a.info && k <= |a.Table()[d].entries|
    ensures c.Table() == Links.WithEntry(a.Table(), d, k, e)
  {
  }
}
