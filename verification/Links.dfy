/** Link counts against directory entries: create, link and unlink of Project1/sysfile.c over the directories of
    Project1/fs.c. A directory's contents are taken as a sequence of entries; 0 is the inode number of an
    empty one. */
module Links {
  import opened Collections

  const ROOTINO: nat := 1

  datatype Kind = NONE | T_DIR | T_FILE | T_DEV

  datatype Dirent = Dirent(inum: nat, name: string)

  datatype Inode = Inode(kind: Kind, nlink: int, entries: seq<Dirent>)

  type Table = seq<Inode>

  // ---------- What holds between operations ----------

  predicate IsDir(t: Table, d: nat) {
    0 < d < |t| && t[d].kind == T_DIR
  }

  /** A directory that can be reached by some path. */
  predicate Linked(t: Table, d: nat) {
    IsDir(t, d) && t[d].nlink > 0
  }

  predicate Names(t: Table, d: nat, k: nat, i: nat) {
    Linked(t, d) && k < |t[d].entries| && t[d].entries[k].inum == i && t[d].entries[k].name != "."
  }

  /** The entries other than "." that name inode i in linked directories. */
  function Refs(t: Table, i: nat): set<(nat, nat)> {
    set d: nat, k: nat | d < |t| && k < |t[d].entries| && Names(t, d, k, i) :: (d, k)
  }

  /** nlink is the number of those entries; `pending` counts the links in progress, which are not entered yet. */
  ghost predicate Counted(t: Table, pending: seq<nat>) {
    |pending| == |t| && forall i :: 0 < i < |t| ==> t[i].nlink == |Refs(t, i)| + pending[i]
  }

  /** Names within a linked directory are unique. */
  ghost predicate UniqueNames(t: Table) {
    forall d: nat, j: nat, k: nat {:trigger t[d].entries[j], t[d].entries[k]} ::
      Linked(t, d) && j < k < |t[d].entries| && t[d].entries[j].inum != 0 && t[d].entries[k].inum != 0 ==>
        t[d].entries[j].name != t[d].entries[k].name
  }

  predicate Dots(t: Table, d: nat) {
    IsDir(t, d) && |t[d].entries| >= 2 && t[d].entries[0] == Dirent(d, ".") && t[d].entries[1].name == ".."
  }

  predicate Lists(t: Table, p: nat, d: nat) {
    p < |t| && exists k :: 2 <= k < |t[p].entries| && t[p].entries[k].inum == d
  }

  /** Directory d begins with "." and "..", and is listed where ".." leads; the root is its own parent. */
  predicate HasParent(t: Table, d: nat) {
    && Dots(t, d) && Linked(t, t[d].entries[1].inum)
    && if d == ROOTINO then t[d].entries[1].inum == ROOTINO else Lists(t, t[d].entries[1].inum, d)
  }

  ghost predicate Rooted(t: Table) {
    forall d: nat {:trigger HasParent(t, d)} :: Linked(t, d) ==> HasParent(t, d)
  }

  /** Following ".." at most n times from d leads to the root through linked directories. */
  predicate Climbs(t: Table, d: nat, n: nat)
    decreases n
  {
    && Linked(t, d)
    && (d == ROOTINO || (n > 0 && |t[d].entries| >= 2 && Climbs(t, t[d].entries[1].inum, n - 1)))
  }

  ghost predicate ReachesRoot(t: Table, d: nat) {
    exists n: nat :: Climbs(t, d, n)
  }

  /** The linked directories form a tree below the root. */
  ghost predicate Acyclic(t: Table) {
    forall d: nat {:trigger ReachesRoot(t, d)} :: Linked(t, d) ==> ReachesRoot(t, d)
  }

  ghost predicate AllDots(t: Table) {
    forall d: nat {:trigger Dots(t, d)} :: IsDir(t, d) ==> Dots(t, d) && 0 < t[d].entries[1].inum < |t|
  }

  /** A named inode is in use, and is a directory only in the directory that is its parent. */
  predicate NamedIn(t: Table, d: nat, c: nat) {
    && Linked(t, d) && c < |t| && t[c].kind != NONE && c != ROOTINO
    && (t[c].kind == T_DIR ==> Dots(t, c) && t[c].entries[1].inum == d)
  }

  /** Only linked directories have entries after the first two. */
  ghost predicate Named(t: Table) {
    forall d: nat, k: nat {:trigger t[d].entries[k]} ::
      IsDir(t, d) && 2 <= k < |t[d].entries| && t[d].entries[k].inum != 0 ==> NamedIn(t, d, t[d].entries[k].inum)
  }

  /** No directory is listed twice. */
  ghost predicate ListedOnce(t: Table) {
    forall d: nat, j: nat, k: nat {:trigger t[d].entries[j], t[d].entries[k]} ::
      IsDir(t, d) && 2 <= j < k < |t[d].entries| && IsDir(t, t[d].entries[j].inum) ==>
        t[d].entries[j].inum != t[d].entries[k].inum
  }

  /** Every directory begins with its dots; one that is no longer linked holds nothing else. What the other
      entries name exists; a directory is named only once, in its parent. */
  ghost predicate Tree(t: Table) {
    AllDots(t) && Named(t) && ListedOnce(t)
  }

  ghost predicate Settled(t: Table, pending: seq<nat>) {
    && |pending| == |t|
    && forall i: nat {:trigger pending[i]} :: i < |t| && (t[i].kind == NONE || t[i].kind == T_DIR) ==> pending[i] == 0
  }

  ghost predicate Good(t: Table, pending: seq<nat>) {
    |t| > ROOTINO && Counted(t, pending) && UniqueNames(t) && Rooted(t) && Acyclic(t) && Tree(t)
    && Settled(t, pending) && Linked(t, ROOTINO) && forall i: nat :: i < |t| && t[i].kind == NONE ==> t[i].nlink == 0
  }

  lemma InRefs(t: Table, i: nat, d: nat, k: nat)
    ensures (d, k) in Refs(t, i) <==> d < |t| && k < |t[d].entries| && Names(t, d, k, i)
  {
  }

  // ---------- Changes to the table ----------

  /** The entries of a directory with e in place k, which may be one past the end. */
  function Placed(entries: seq<Dirent>, k: nat, e: Dirent): (r: seq<Dirent>)
    requires k <= |entries|
    ensures |r| == (if k < |entries| then |entries| else k + 1) && r[k] == e
    ensures forall j :: 0 <= j < |entries| && j != k ==> r[j] == entries[j]
  {
    if k < |entries| then entries[k := e] else entries + [e]
  }

  function WithEntry(t: Table, d: nat, k: nat, e: Dirent): (r: Table)
    requires d < |t| && k <= |t[d].entries|
    ensures |r| == |t|
  {
    t[d := t[d].(entries := Placed(t[d].entries, k, e))]
  }

  function WithLinks(t: Table, i: nat, delta: int): (r: Table)
    requires i < |t|
    ensures |r| == |t|
  {
    t[i := t[i].(nlink := t[i].nlink + delta)]
  }

  predicate FreeSlot(t: Table, d: nat, k: nat) {
    d < |t| && k <= |t[d].entries| && (k < |t[d].entries| ==> t[d].entries[k].inum == 0)
  }

  predicate HasName(t: Table, d: nat, name: string) {
    d < |t| && exists k :: 0 <= k < |t[d].entries| && t[d].entries[k].inum != 0 && t[d].entries[k].name == name
  }

  /** A new entry in a linked directory is one more reference to what it names. */
  lemma RefsEntered(t: Table, d: nat, k: nat, i: nat, name: string, t': Table)
    requires Linked(t, d) && FreeSlot(t, d, k) && 0 < i < |t| && name != "."
    requires t' == WithEntry(t, d, k, Dirent(i, name))
    ensures Refs(t', i) == Refs(t, i) + {(d, k)} && (d, k) !in Refs(t, i)
    ensures forall j: nat {:trigger Refs(t', j)} :: 0 < j && j != i ==> Refs(t', j) == Refs(t, j)
  {
    forall e: nat ensures Linked(t', e) == Linked(t, e) {}
    forall e: nat, l: nat, j: nat | 0 < j && (e != d || l != k) ensures Names(t', e, l, j) == Names(t, e, l, j) {}
    assert Names(t', d, k, i);
    forall j: nat | 0 < j && j != i ensures Refs(t', j) == Refs(t, j) {
      assert !Names(t', d, k, j) && !Names(t, d, k, j);
    }
  }

  lemma EntryUnique(t: Table, d: nat, k: nat, i: nat, name: string, t': Table)
    requires UniqueNames(t) && FreeSlot(t, d, k) && !HasName(t, d, name) && t' == WithEntry(t, d, k, Dirent(i, name))
    ensures UniqueNames(t')
  {
    forall e: nat, j: nat, l: nat | Linked(t', e) && j < l < |t'[e].entries| && t'[e].entries[j].inum != 0 &&
        t'[e].entries[l].inum != 0
      ensures t'[e].entries[j].name != t'[e].entries[l].name
    {
      assert Linked(t, e);
      if e == d && j != k { assert t'[d].entries[j] == t[d].entries[j]; }
      if e == d && l != k { assert t'[d].entries[l] == t[d].entries[l]; }
    }
  }

  /** An entry for a file, or the only one for a directory whose parent is d. */
  lemma EntryTree(t: Table, d: nat, k: nat, i: nat, name: string, t': Table)
    requires Tree(t) && Linked(t, d) && FreeSlot(t, d, k) && k >= 2 && t' == WithEntry(t, d, k, Dirent(i, name))
    requires ROOTINO < i < |t| && t[i].kind != NONE && i != d
    requires t[i].kind == T_DIR ==> Dots(t, i) && t[i].entries[1].inum == d && !Lists(t, d, i)
    ensures Tree(t')
  {
    hide HasName;
    forall c: nat | IsDir(t', c) ensures Dots(t', c) && 0 < t'[c].entries[1].inum < |t'| {
      assert Dots(t, c);
      DotsKept(t, d, k, Dirent(i, name), t', c);
    }
    EntryNamed(t, d, k, i, name, t');
    forall e: nat, j: nat, l: nat | IsDir(t', e) && 2 <= j < l < |t'[e].entries| && IsDir(t', t'[e].entries[j].inum)
      ensures t'[e].entries[j].inum != t'[e].entries[l].inum
    {
      if e != d || j != k { assert t'[e].entries[j] == t[e].entries[j]; }
      if e != d || l != k { assert t'[e].entries[l] == t[e].entries[l]; }
    }
  }

  lemma EntryNamed(t: Table, d: nat, k: nat, i: nat, name: string, t': Table)
    requires Named(t) && Linked(t, d) && FreeSlot(t, d, k) && k >= 2 && t' == WithEntry(t, d, k, Dirent(i, name))
    requires NamedIn(t, d, i)
    ensures Named(t')
  {
    forall e: nat, l: nat | IsDir(t', e) && 2 <= l < |t'[e].entries| && t'[e].entries[l].inum != 0
      ensures NamedIn(t', e, t'[e].entries[l].inum)
    {
      if e != d || l != k { assert t'[e].entries[l] == t[e].entries[l]; }
      DotsKept(t, d, k, Dirent(i, name), t', t'[e].entries[l].inum);
    }
  }

  lemma DotsKept(t: Table, d: nat, k: nat, e: Dirent, t': Table, c: nat)
    requires d < |t| && 2 <= k <= |t[d].entries| && t' == WithEntry(t, d, k, e)
    ensures Dots(t, c) ==> Dots(t', c) && t'[c].entries[1] == t[c].entries[1]
  {
  }

  lemma EntryRooted(t: Table, d: nat, k: nat, e: Dirent, t': Table)
    requires Rooted(t) && FreeSlot(t, d, k) && k >= 2 && t' == WithEntry(t, d, k, e)
    ensures Rooted(t')
  {
    forall c: nat | Linked(t', c) ensures HasParent(t', c) {
      assert HasParent(t, c);
      DotsKept(t, d, k, e, t', c);
      ListsStill(t, t', d, k, t[c].entries[1].inum, c);
    }
  }

  lemma EntryAcyclic(t: Table, d: nat, k: nat, e: Dirent, t': Table)
    requires Rooted(t) && Acyclic(t) && d < |t| && 2 <= k <= |t[d].entries| && t' == WithEntry(t, d, k, e)
    ensures Acyclic(t')
  {
    hide Lists;
    forall c: nat ensures Linked(t', c) == Linked(t, c) {}
    forall c: nat | Linked(t, c) ensures SameParent(t, t', c) && t[c].entries[1].inum != 0 {
      assert HasParent(t, c);
      DotsKept(t, d, k, e, t', c);
    }
    AcyclicKept(t, t', 0);
  }

  /** Linking a file: the entry brings the references up to the count taken beforehand. */
  lemma LinkEntered(t: Table, pending: seq<nat>, d: nat, k: nat, i: nat, name: string, t': Table)
    requires Good(t, pending) && Linked(t, d) && FreeSlot(t, d, k) && !HasName(t, d, name)
    requires 0 < i < |t| && (t[i].kind == T_FILE || t[i].kind == T_DEV) && pending[i] > 0
    requires t' == WithEntry(t, d, k, Dirent(i, name))
    ensures Good(t', pending[i := pending[i] - 1])
  {
    hide UniqueNames, Tree, Rooted, Counted, HasName, Refs;
    BelowTwo(t, pending, d, k, name);
    EntryUnique(t, d, k, i, name, t');
    EntryTree(t, d, k, i, name, t');
    EntryRooted(t, d, k, Dirent(i, name), t');
    EntryAcyclic(t, d, k, Dirent(i, name), t');
    EntryCounted(t, pending, d, k, i, name, t');
  }

  /** The first two entries of a linked directory are taken. */
  lemma BelowTwo(t: Table, pending: seq<nat>, d: nat, k: nat, name: string)
    requires Good(t, pending) && Linked(t, d) && FreeSlot(t, d, k) && !HasName(t, d, name)
    ensures k >= 2 && name != "." && name != ".." && Dots(t, d) && Dots(t, ROOTINO) && t[ROOTINO].kind == T_DIR
  {
    hide UniqueNames, Tree, Counted;
    assert HasParent(t, d) && HasParent(t, ROOTINO);
    assert t[d].entries[0].name == "." && t[d].entries[1].name == "..";
  }

  lemma EntryCounted(t: Table, pending: seq<nat>, d: nat, k: nat, i: nat, name: string, t': Table)
    requires Counted(t, pending) && Linked(t, d) && FreeSlot(t, d, k) && 0 < i < |t| && name != "." && pending[i] > 0
    requires t' == WithEntry(t, d, k, Dirent(i, name))
    ensures Counted(t', pending[i := pending[i] - 1])
  {
    RefsEntered(t, d, k, i, name, t');
    var pending' := pending[i := pending[i] - 1];
    forall j: nat | 0 < j < |t'| ensures t'[j].nlink == |Refs(t', j)| + pending'[j] {
      assert t[j].nlink == |Refs(t, j)| + pending[j];
    }
  }

  lemma ListsStill(t: Table, t': Table, d: nat, k: nat, p: nat, e: nat)
    requires FreeSlot(t, d, k) && |t'| == |t| && e != 0
    requires p < |t| && |t'[d].entries| >= |t[d].entries|
    requires p == d ==> forall j :: 0 <= j < |t[d].entries| && j != k ==> t'[d].entries[j] == t[d].entries[j]
    requires p != d ==> t'[p].entries == t[p].entries
    ensures Lists(t, p, e) ==> Lists(t', p, e)
  {
    if Lists(t, p, e) {
      var j :| 2 <= j < |t[p].entries| && t[p].entries[j].inum == e;
      assert j != k || p != d;
      assert t'[p].entries[j].inum == e;
    }
  }

  // ---------- Counts ----------

  /** Inodes that are not directories do not affect the references. */
  lemma RefsElsewhere(t: Table, i: nat, inode: Inode)
    requires i < |t| && t[i].kind != T_DIR && inode.kind != T_DIR
    ensures forall j {:trigger Refs(t[i := inode], j)} :: 0 <= j ==> Refs(t[i := inode], j) == Refs(t, j)
  {
    var t' := t[i := inode];
    forall e: nat ensures Linked(t', e) == Linked(t, e) && (Linked(t, e) ==> t'[e] == t[e]) {}
    forall j | 0 <= j ensures Refs(t', j) == Refs(t, j) {
      forall e: nat, l: nat ensures Names(t', e, l, j) == Names(t, e, l, j) {}
    }
  }

  /** A change to an inode that is no directory, which keeps its kind or turns a free one into a file. */
  lemma FileChanged(t: Table, pending: seq<nat>, i: nat, inode: Inode, n: nat)
    requires Good(t, pending) && 0 < i < |t| && t[i].kind != T_DIR && (inode.kind == T_FILE || inode.kind == T_DEV)
    requires inode.nlink == t[i].nlink - pending[i] + n
    ensures Good(t[i := inode], pending[i := n])
  {
    hide Refs, Lists;
    var t', pending' := t[i := inode], pending[i := n];
    RefsElsewhere(t, i, inode);
    forall j | 0 < j < |t'| ensures t'[j].nlink == |Refs(t', j)| + pending'[j] {
      assert t[j].nlink == |Refs(t, j)| + pending[j];
    }
    assert UniqueNames(t') by {
      forall d: nat, j: nat, k: nat | Linked(t', d) && j < k < |t'[d].entries| && t'[d].entries[j].inum != 0 &&
          t'[d].entries[k].inum != 0
        ensures t'[d].entries[j].name != t'[d].entries[k].name
      {
        assert Linked(t, d) && t'[d] == t[d];
      }
    }
    assert Rooted(t') by {
      forall d: nat | Linked(t', d) ensures HasParent(t', d) {
        assert HasParent(t, d) && t'[d] == t[d];
        ListsSame(t, t', t[d].entries[1].inum, d);
      }
    }
    SameDirsAcyclic(t, t');
    FileChangedTree(t, i, inode);
  }

  /** Directory d has the same parent in t' as in t. */
  ghost predicate SameParent(t: Table, t': Table, d: nat) {
    Linked(t, d) && Linked(t', d) && |t[d].entries| >= 2 && |t'[d].entries| >= 2
    && t'[d].entries[1].inum == t[d].entries[1].inum
  }

  /** A climb that never meets x can still be made. */
  lemma ClimbKept(t: Table, t': Table, x: nat, d: nat, n: nat)
    requires Climbs(t, d, n) && d != x
    requires forall e: nat {:trigger SameParent(t, t', e)} :: Linked(t, e) && e != x ==>
      SameParent(t, t', e) && (e != ROOTINO ==> t[e].entries[1].inum != x)
    ensures Climbs(t', d, n)
    decreases n
  {
    assert SameParent(t, t', d);
    if d != ROOTINO { ClimbKept(t, t', x, t[d].entries[1].inum, n - 1); }
  }

  /** The tree below the root stands when no parent changes and only x, which is no parent, is no longer linked. */
  lemma AcyclicKept(t: Table, t': Table, x: nat)
    requires Acyclic(t) && forall e: nat {:trigger Linked(t', e)} :: Linked(t', e) ==> Linked(t, e) && e != x
    requires forall e: nat {:trigger SameParent(t, t', e)} :: Linked(t, e) && e != x ==>
      SameParent(t, t', e) && (e != ROOTINO ==> t[e].entries[1].inum != x)
    ensures Acyclic(t')
  {
    forall d: nat | Linked(t', d) ensures ReachesRoot(t', d) {
      assert ReachesRoot(t, d);
      var n: nat :| Climbs(t, d, n);
      ClimbKept(t, t', x, d, n);
    }
  }

  lemma ListsSame(t: Table, t': Table, p: nat, d: nat)
    requires p < |t| == |t'| && t'[p].entries == t[p].entries
    ensures Lists(t', p, d) <==> Lists(t, p, d)
  {
  }

  lemma SameDirsAcyclic(t: Table, t': Table)
    requires Rooted(t) && Acyclic(t)
    requires forall d: nat :: Linked(t', d) == Linked(t, d) && (Linked(t, d) ==> t'[d].entries == t[d].entries)
    ensures Acyclic(t')
  {
    hide Lists;
    forall c: nat | Linked(t, c) ensures SameParent(t, t', c) && t[c].entries[1].inum != 0 {
      assert HasParent(t, c);
    }
    AcyclicKept(t, t', 0);
  }

  lemma FileChangedTree(t: Table, i: nat, inode: Inode)
    requires Tree(t) && 0 < i < |t| && t[i].kind != T_DIR && (inode.kind == T_FILE || inode.kind == T_DEV)
    ensures Tree(t[i := inode])
  {
    var t' := t[i := inode];
    forall d: nat | IsDir(t', d) ensures Dots(t', d) && 0 < t'[d].entries[1].inum < |t'| { assert Dots(t, d); }
    forall d: nat, k: nat | IsDir(t', d) && 2 <= k < |t'[d].entries| && t'[d].entries[k].inum != 0
      ensures NamedIn(t', d, t'[d].entries[k].inum)
    {
      assert NamedIn(t, d, t[d].entries[k].inum);
    }
    forall d: nat, j: nat, k: nat | IsDir(t', d) && 2 <= j < k < |t'[d].entries| && IsDir(t', t'[d].entries[j].inum)
      ensures t'[d].entries[j].inum != t'[d].entries[k].inum
    {
      assert t'[d].entries[j] == t[d].entries[j] && t'[d].entries[k] == t[d].entries[k];
    }
  }

  // ---------- Making a directory ----------

  function NewDir(c: nat, p: nat): Inode {
    Inode(T_DIR, 1, [Dirent(c, "."), Dirent(p, "..")])
  }

  /** The table after mkdir of c in entry k of p. */
  function WithDir(t: Table, p: nat, k: nat, c: nat, name: string): (r: Table)
    requires p < |t| && c < |t| && p != c && k <= |t[p].entries|
    ensures |r| == |t|
  {
    WithEntry(WithLinks(t[c := NewDir(c, p)], p, 1), p, k, Dirent(c, name))
  }

  /** The new directory's own entries: ".." is a reference to the parent. */
  lemma DotRefs(t: Table, pending: seq<nat>, p: nat, c: nat, t1: Table)
    requires Counted(t, pending) && Settled(t, pending) && 0 < c < |t| && t[c].nlink == 0
    requires Linked(t, p) && t[c].kind == NONE && t1 == WithLinks(t[c := NewDir(c, p)], p, 1)
    ensures Refs(t1, c) == {} && Refs(t1, p) == Refs(t, p) + {(c, 1)} && (c, 1) !in Refs(t, p)
    ensures forall j: nat {:trigger Refs(t1, j)} :: 0 < j && j != c && j != p ==> Refs(t1, j) == Refs(t, j)
  {
    assert t[c].nlink == |Refs(t, c)| + pending[c];
    assert Refs(t, c) == {};
    forall e: nat
      ensures Linked(t1, e) == (Linked(t, e) || e == c) && (e < |t| && e != c ==> t1[e].entries == t[e].entries)
    {
    }
    forall j: nat | 0 < j ensures Refs(t1, j) == if j == p then Refs(t, j) + {(c, 1)} else Refs(t, j) {
      forall e: nat, l: nat | e != c ensures Names(t1, e, l, j) == Names(t, e, l, j) {}
      forall l: nat ensures Names(t1, c, l, j) == (l == 1 && j == p) && !Names(t, c, l, j) {}
    }
  }

  lemma DirRefs(t: Table, pending: seq<nat>, p: nat, k: nat, c: nat, name: string, t': Table)
    requires Good(t, pending) && Linked(t, p) && FreeSlot(t, p, k) && 0 < c < |t| && t[c].kind == NONE && name != "."
    requires t' == WithDir(t, p, k, c, name)
    ensures Refs(t', c) == {(p, k)} && Refs(t', p) == Refs(t, p) + {(c, 1)} && (c, 1) !in Refs(t, p)
    ensures forall j: nat {:trigger Refs(t', j)} :: 0 < j && j != c && j != p ==> Refs(t', j) == Refs(t, j)
  {
    hide Refs, UniqueNames, Rooted, Tree, Counted;
    var t1 := WithLinks(t[c := NewDir(c, p)], p, 1);
    DotRefs(t, pending, p, c, t1);
    RefsEntered(t1, p, k, c, name, t');
  }

  lemma DirCounted(t: Table, pending: seq<nat>, p: nat, k: nat, c: nat, name: string, t': Table)
    requires Good(t, pending) && Linked(t, p) && FreeSlot(t, p, k) && 0 < c < |t| && t[c].kind == NONE && name != "."
    requires t' == WithDir(t, p, k, c, name)
    ensures Counted(t', pending)
  {
    hide Refs, UniqueNames, Rooted, Tree;
    DirRefs(t, pending, p, k, c, name, t');
    forall j | 0 < j < |t'| ensures t'[j].nlink == |Refs(t', j)| + pending[j] {
      assert t[j].nlink == |Refs(t, j)| + pending[j];
    }
  }

  lemma DirTree(t: Table, p: nat, k: nat, c: nat, name: string, t': Table)
    requires Tree(t) && UniqueNames(t) && Linked(t, p) && FreeSlot(t, p, k) && k >= 2 && !HasName(t, p, name)
    requires ROOTINO < c < |t| && t[c].kind == NONE && t' == WithDir(t, p, k, c, name)
    ensures Tree(t') && UniqueNames(t')
  {
    var t1 := WithLinks(t[c := NewDir(c, p)], p, 1);
    assert Dots(t1, c);
    forall d: nat | IsDir(t1, d)
      ensures Dots(t1, d) && 0 < t1[d].entries[1].inum < |t1| && (d != c ==> t1[d].entries == t[d].entries)
    {
      assert d != c ==> Dots(t, d);
    }
    DirTree1(t, p, c, t1);
    assert !Lists(t1, p, c) by {
      forall j | 2 <= j < |t1[p].entries|
        ensures t1[p].entries[j].inum != c
      {
        assert t1[p].entries[j] == t[p].entries[j];
      }
    }
    EntryTree(t1, p, k, c, name, t');
    EntryUnique(t1, p, k, c, name, t');
  }

  lemma DirTree1(t: Table, p: nat, c: nat, t1: Table)
    requires Tree(t) && UniqueNames(t) && Linked(t, p) && ROOTINO < c < |t| && t[c].kind == NONE
    requires t1 == WithLinks(t[c := NewDir(c, p)], p, 1)
    ensures Tree(t1) && UniqueNames(t1)
  {
    hide Lists;
    forall d: nat | IsDir(t1, d)
      ensures Dots(t1, d) && 0 < t1[d].entries[1].inum < |t1|
    {
      assert d != c ==> Dots(t, d);
    }
    DirNamed(t, p, c, t1);
    forall d: nat, j: nat, k: nat | Linked(t1, d) && j < k < |t1[d].entries| && t1[d].entries[j].inum != 0 &&
        t1[d].entries[k].inum != 0
      ensures t1[d].entries[j].name != t1[d].entries[k].name
    {
      if d != c { assert Linked(t, d) && t1[d].entries == t[d].entries; }
    }
  }

  lemma DirNamed(t: Table, p: nat, c: nat, t1: Table)
    requires Named(t) && ListedOnce(t) && Linked(t, p) && ROOTINO < c < |t| && t[c].kind == NONE
    requires t1 == WithLinks(t[c := NewDir(c, p)], p, 1)
    ensures Named(t1) && ListedOnce(t1)
  {
    forall d: nat, k: nat | IsDir(t1, d) && 2 <= k < |t1[d].entries| && t1[d].entries[k].inum != 0
      ensures NamedIn(t1, d, t1[d].entries[k].inum) && NamedIn(t, d, t1[d].entries[k].inum)
    {
      assert d != c && t1[d].entries[k] == t[d].entries[k];
    }
    forall d: nat, j: nat, k: nat | IsDir(t1, d) && 2 <= j < k < |t1[d].entries| && IsDir(t1, t1[d].entries[j].inum)
      ensures t1[d].entries[j].inum != t1[d].entries[k].inum
    {
      assert d != c && t1[d].entries[j] == t[d].entries[j] && t1[d].entries[k] == t[d].entries[k];
      assert NamedIn(t, d, t1[d].entries[j].inum);
    }
  }

  lemma DirRooted(t: Table, p: nat, k: nat, c: nat, name: string, t': Table)
    requires Rooted(t) && Linked(t, p) && FreeSlot(t, p, k) && k >= 2 && ROOTINO < c < |t| && t[c].kind == NONE
    requires t' == WithDir(t, p, k, c, name)
    ensures Rooted(t')
  {
    forall d: nat | Linked(t', d) ensures HasParent(t', d) {
      if d == c {
        assert t'[p].entries[k].inum == c;
      } else {
        assert HasParent(t, d);
        ListsStill(t, t', p, k, t[d].entries[1].inum, d);
      }
    }
  }

  /** mkdir in a linked directory. */
  lemma DirMade(t: Table, pending: seq<nat>, p: nat, k: nat, c: nat, name: string, t': Table)
    requires Good(t, pending) && Linked(t, p) && FreeSlot(t, p, k) && !HasName(t, p, name)
    requires 0 < c < |t| && t[c].kind == NONE && t' == WithDir(t, p, k, c, name)
    ensures Good(t', pending)
  {
    hide UniqueNames, Tree, Rooted, Counted, HasName, Refs;
    BelowTwo(t, pending, p, k, name);
    DirCounted(t, pending, p, k, c, name, t');
    DirTree(t, p, k, c, name, t');
    DirRooted(t, p, k, c, name, t');
    DirAcyclic(t, p, k, c, name, t');
  }

  lemma DirAcyclic(t: Table, p: nat, k: nat, c: nat, name: string, t': Table)
    requires Rooted(t) && Acyclic(t) && Linked(t, p) && 2 <= k <= |t[p].entries|
    requires ROOTINO < c < |t| && t[c].kind == NONE && t' == WithDir(t, p, k, c, name)
    ensures Acyclic(t')
  {
    hide Lists;
    forall d: nat ensures Linked(t', d) == (Linked(t, d) || d == c) {}
    forall d: nat | Linked(t, d) ensures SameParent(t, t', d) && t[d].entries[1].inum != 0 {
      assert HasParent(t, d);
    }
    forall d: nat | Linked(t', d) ensures ReachesRoot(t', d) {
      var e := if d == c then p else d;
      assert ReachesRoot(t, e);
      var n: nat :| Climbs(t, e, n);
      ClimbKept(t, t', 0, e, n);
      if d == c { assert Climbs(t', c, n + 1); }
    }
  }

  // ---------- Removing entries ----------

  const EMPTY: Dirent := Dirent(0, "")

  lemma RefsCleared(t: Table, d: nat, k: nat, i: nat, t': Table)
    requires Linked(t, d) && k < |t[d].entries| && t[d].entries[k].inum == i != 0 && t[d].entries[k].name != "."
    requires t' == WithEntry(t, d, k, EMPTY)
    ensures (d, k) in Refs(t, i) && Refs(t', i) == Refs(t, i) - {(d, k)}
    ensures forall j: nat {:trigger Refs(t', j)} :: 0 < j && j != i ==> Refs(t', j) == Refs(t, j)
  {
    forall e: nat ensures Linked(t', e) == Linked(t, e) {}
    forall e: nat, l: nat, j: nat | 0 < j && (e != d || l != k) ensures Names(t', e, l, j) == Names(t, e, l, j) {}
    assert Names(t, d, k, i);
    forall j: nat | 0 < j && j != i ensures Refs(t', j) == Refs(t, j) {
      assert !Names(t', d, k, j) && !Names(t, d, k, j);
    }
  }

  lemma ClearedTree(t: Table, d: nat, k: nat, t': Table)
    requires Tree(t) && UniqueNames(t) && d < |t| && 2 <= k < |t[d].entries| && t' == WithEntry(t, d, k, EMPTY)
    ensures Tree(t') && UniqueNames(t')
  {
    forall c: nat ensures Linked(t', c) == Linked(t, c) && IsDir(t', c) == IsDir(t, c) {}
    forall c: nat | IsDir(t', c) ensures Dots(t', c) && 0 < t'[c].entries[1].inum < |t'| {
      assert Dots(t, c);
      DotsKept(t, d, k, EMPTY, t', c);
    }
    forall e: nat, l: nat | IsDir(t', e) && 2 <= l < |t'[e].entries| && t'[e].entries[l].inum != 0
      ensures NamedIn(t', e, t'[e].entries[l].inum)
    {
      assert t'[e].entries[l] == t[e].entries[l];
      assert NamedIn(t, e, t[e].entries[l].inum);
      DotsKept(t, d, k, EMPTY, t', t'[e].entries[l].inum);
    }
    ClearedOnce(t, d, k, t');
  }

  lemma ClearedOnce(t: Table, d: nat, k: nat, t': Table)
    requires ListedOnce(t) && UniqueNames(t) && d < |t| && 2 <= k < |t[d].entries| && t' == WithEntry(t, d, k, EMPTY)
    ensures ListedOnce(t') && UniqueNames(t')
  {
    forall e: nat, l: nat | e < |t| && l < |t[e].entries| && t'[e].entries[l].inum != 0
      ensures t'[e].entries[l] == t[e].entries[l]
    {
    }
    forall e: nat, j: nat, l: nat | IsDir(t', e) && 2 <= j < l < |t'[e].entries| && IsDir(t', t'[e].entries[j].inum)
      ensures t'[e].entries[j].inum != t'[e].entries[l].inum
    {
      assert t'[e].entries[j] == t[e].entries[j];
      if t'[e].entries[l].inum != 0 { assert t'[e].entries[l] == t[e].entries[l]; }
    }
    forall e: nat, j: nat, l: nat | Linked(t', e) && j < l < |t'[e].entries| && t'[e].entries[j].inum != 0 &&
        t'[e].entries[l].inum != 0
      ensures t'[e].entries[j].name != t'[e].entries[l].name
    {
      assert Linked(t, e) && t'[e].entries[j] == t[e].entries[j] && t'[e].entries[l] == t[e].entries[l];
    }
  }

  /** A listing survives the removal of another entry. */
  lemma ListsOther(t: Table, d: nat, k: nat, t': Table, p: nat, e: nat)
    requires d < |t| && k < |t[d].entries| && t' == WithEntry(t, d, k, EMPTY) && t[d].entries[k].inum != e
    requires Lists(t, p, e)
    ensures Lists(t', p, e)
  {
    var j :| 2 <= j < |t[p].entries| && t[p].entries[j].inum == e;
    assert t'[p].entries[j].inum == e;
  }

  /** Removing an entry for a file leaves one link more than there are references. */
  lemma FileCleared(t: Table, pending: seq<nat>, d: nat, k: nat, i: nat, t': Table)
    requires Good(t, pending) && Linked(t, d) && 2 <= k < |t[d].entries| && t[d].entries[k].inum == i != 0
    requires i < |t| && t[i].kind != T_DIR && t' == WithEntry(t, d, k, EMPTY)
    ensures Good(t', pending[i := pending[i] + 1])
  {
    hide UniqueNames, Tree, Counted, Lists, Refs;
    NotDot(t, d, k);
    ClearedTree(t, d, k, t');
    FileClearedCounted(t, pending, d, k, i, t');
    EntryAcyclic(t, d, k, EMPTY, t');
    NamedFile(t, d, k, i);
    forall c: nat | Linked(t', c) ensures HasParent(t', c) {
      assert HasParent(t, c);
      DotsKept(t, d, k, EMPTY, t', c);
      if c != ROOTINO { ListsOther(t, d, k, t', t[c].entries[1].inum, c); }
    }
  }

  lemma NamedFile(t: Table, d: nat, k: nat, i: nat)
    requires Tree(t) && Linked(t, d) && 2 <= k < |t[d].entries| && t[d].entries[k].inum == i != 0
    ensures i < |t| && t[i].kind != NONE && i != ROOTINO
  {
    assert NamedIn(t, d, t[d].entries[k].inum);
  }

  lemma FileClearedCounted(t: Table, pending: seq<nat>, d: nat, k: nat, i: nat, t': Table)
    requires Counted(t, pending) && Linked(t, d) && k < |t[d].entries| && t[d].entries[k].inum == i && 0 < i < |t|
    requires t[d].entries[k].name != "." && t' == WithEntry(t, d, k, EMPTY)
    ensures Counted(t', pending[i := pending[i] + 1])
  {
    RefsCleared(t, d, k, i, t');
    var pending' := pending[i := pending[i] + 1];
    forall j | 0 < j < |t'| ensures t'[j].nlink == |Refs(t', j)| + pending'[j] {
      assert t[j].nlink == |Refs(t, j)| + pending[j];
    }
  }

  /** Entries after the first two are not called "." or "..". */
  lemma NotDot(t: Table, d: nat, k: nat)
    requires UniqueNames(t) && Tree(t) && Linked(t, d) && 2 <= k < |t[d].entries| && t[d].entries[k].inum != 0
    ensures t[d].entries[k].name != "." && t[d].entries[k].name != ".."
  {
    assert Dots(t, d);
    assert t[d].entries[0].name == "." && t[d].entries[1].name == "..";
  }

  predicate EmptyDir(t: Table, i: nat) {
    i < |t| && forall k :: 2 <= k < |t[i].entries| ==> t[i].entries[k].inum == 0
  }

  /** The only reference to an empty directory is its entry in its parent. */
  lemma OnlyRef(t: Table, pending: seq<nat>, d: nat, k: nat, i: nat)
    requires Good(t, pending) && Linked(t, d) && 2 <= k < |t[d].entries| && t[d].entries[k].inum == i && IsDir(t, i)
    requires EmptyDir(t, i)
    ensures Refs(t, i) == {(d, k)} && t[i].nlink == 1 && i != d && i != ROOTINO && t[i].entries[1].inum == d
    ensures Dots(t, i)
  {
    assert NamedIn(t, d, t[d].entries[k].inum);
    NotDot(t, d, k);
    InRefs(t, i, d, k);
    forall e: nat, l: nat | (e, l) in Refs(t, i) ensures e == d && l == k {
      InRefs(t, i, e, l);
      assert HasParent(t, e);
      assert NamedIn(t, e, t[e].entries[l].inum);
      assert e == d;
    }
    assert Refs(t, i) == {(d, k)};
    assert t[i].nlink == |Refs(t, i)| + pending[i];
  }

  /** A linked directory with a linked subdirectory has more than one reference. */
  lemma ParentStays(t: Table, pending: seq<nat>, d: nat, k: nat, i: nat)
    requires Good(t, pending) && Linked(t, d) && 2 <= k < |t[d].entries| && t[d].entries[k].inum == i && IsDir(t, i)
    requires EmptyDir(t, i)
    ensures t[d].nlink >= 2 && (i, 1) in Refs(t, d)
  {
    hide Refs, UniqueNames, Counted;
    OnlyRef(t, pending, d, k, i);
    InRefs(t, d, i, 1);
    assert HasParent(t, d);
    var p := t[d].entries[1].inum;
    var m: nat := 1;
    if d != ROOTINO { m :| 2 <= m < |t[p].entries| && t[p].entries[m].inum == d; NotDot(t, p, m); }
    InRefs(t, d, p, m);
    TwoRefs(t, pending, d, (i, 1), (p, m));
  }

  lemma TwoRefs(t: Table, pending: seq<nat>, d: nat, a: (nat, nat), b: (nat, nat))
    requires Counted(t, pending) && 0 < d < |t| && a in Refs(t, d) && b in Refs(t, d) && a != b
    ensures t[d].nlink >= 2
  {
    assert |Refs(t, d)| >= |{a, b}| by { SubsetSize({a, b}, Refs(t, d)); }
    assert t[d].nlink == |Refs(t, d)| + pending[d];
  }

  /** The table after rmdir of directory i, which is entry k of d. */
  function WithoutDir(t: Table, d: nat, k: nat, i: nat): (r: Table)
    requires d < |t| && i < |t| && k < |t[d].entries|
    ensures |r| == |t|
  {
    WithLinks(WithLinks(WithEntry(t, d, k, EMPTY), d, -1), i, -1)
  }

  lemma DirUnlinkedRefs(t: Table, pending: seq<nat>, d: nat, k: nat, i: nat, t': Table)
    requires Good(t, pending) && Linked(t, d) && 2 <= k < |t[d].entries| && t[d].entries[k].inum == i && IsDir(t, i)
    requires EmptyDir(t, i)
    requires t' == WithoutDir(t, d, k, i)
    ensures Refs(t', i) == {} && Refs(t', d) == Refs(t, d) - {(i, 1)} && (i, 1) in Refs(t, d)
    ensures forall j: nat {:trigger Refs(t', j)} :: 0 < j && j != i && j != d ==> Refs(t', j) == Refs(t, j)
    ensures forall e: nat {:trigger Linked(t', e)} :: Linked(t', e) <==> Linked(t, e) && e != i
  {
    hide UniqueNames, Tree, Rooted, Counted, Lists;
    OnlyRef(t, pending, d, k, i);
    ParentStays(t, pending, d, k, i);
    NotDot(t, d, k);
    var t1 := WithEntry(t, d, k, EMPTY);
    RefsCleared(t, d, k, i, t1);
    forall e: nat ensures Linked(t', e) == (Linked(t1, e) && e != i) && Linked(t1, e) == Linked(t, e) {}
    forall e: nat | e < |t| ensures t'[e].entries == t1[e].entries {}
    forall j: nat | 0 < j ensures Refs(t', j) == if j == d then Refs(t1, j) - {(i, 1)} else Refs(t1, j) {
      forall e: nat, l: nat | e != i ensures Names(t', e, l, j) == Names(t1, e, l, j) {}
      forall l: nat ensures !Names(t', i, l, j) && Names(t1, i, l, j) == (l == 1 && j == d) {
        if 2 <= l < |t[i].entries| { assert t[i].entries[l].inum == 0; }
      }
    }
  }

  /** rmdir of an empty directory. */
  lemma DirUnlinked(t: Table, pending: seq<nat>, d: nat, k: nat, i: nat, t': Table)
    requires Good(t, pending) && Linked(t, d) && 2 <= k < |t[d].entries| && t[d].entries[k].inum == i && IsDir(t, i)
    requires EmptyDir(t, i)
    requires t' == WithoutDir(t, d, k, i)
    ensures Good(t', pending)
  {
    hide UniqueNames, Tree, Counted, Refs, Lists;
    OnlyRef(t, pending, d, k, i);
    DirUnlinkedRefs(t, pending, d, k, i, t');
    var t1 := WithEntry(t, d, k, EMPTY);
    ClearedTree(t, d, k, t1);
    RecountedTree(t1, t', i);
    DirUnlinkedCounted(t, pending, d, k, i, t');
    DirUnlinkedAcyclic(t, pending, d, k, i, t');
    forall c: nat | Linked(t', c) ensures HasParent(t', c) {
      assert Linked(t, c) && HasParent(t, c);
      DotsKept(t, d, k, EMPTY, t1, c);
      if c != ROOTINO {
        NotInEmpty(t, i, c);
        ListsOther(t, d, k, t1, t[c].entries[1].inum, c);
        ListsSame(t1, t', t[c].entries[1].inum, c);
      }
    }
  }

  lemma DirUnlinkedAcyclic(t: Table, pending: seq<nat>, d: nat, k: nat, i: nat, t': Table)
    requires Rooted(t) && Acyclic(t) && d < |t| && 2 <= k < |t[d].entries|
    requires EmptyDir(t, i) && i != ROOTINO && i != 0 && t' == WithoutDir(t, d, k, i)
    requires forall e: nat {:trigger Linked(t', e)} :: Linked(t', e) <==> Linked(t, e) && e != i
    ensures Acyclic(t')
  {
    hide Lists;
    var t1 := WithEntry(t, d, k, EMPTY);
    forall c: nat | Linked(t, c) && c != i
      ensures SameParent(t, t', c) && (c != ROOTINO ==> t[c].entries[1].inum != i)
    {
      assert HasParent(t, c) && Linked(t', c);
      DotsKept(t, d, k, EMPTY, t1, c);
      NotInEmpty(t, i, c);
    }
    AcyclicKept(t, t', i);
  }

  lemma NotInEmpty(t: Table, i: nat, c: nat)
    requires EmptyDir(t, i) && c != 0
    ensures !Lists(t, i, c)
  {
  }

  /** Tree and UniqueNames depend on the counts only through which directories are linked. */
  lemma RecountedTree(t1: Table, t': Table, i: nat)
    requires Tree(t1) && UniqueNames(t1) && |t'| == |t1| && EmptyDir(t1, i)
    requires forall e {:trigger t'[e]} :: 0 <= e < |t1| ==> t'[e].entries == t1[e].entries && t'[e].kind == t1[e].kind
    requires forall e: nat {:trigger Linked(t', e)} :: Linked(t', e) <==> Linked(t1, e) && e != i
    ensures Tree(t') && UniqueNames(t')
  {
    forall e: nat ensures IsDir(t', e) == IsDir(t1, e) && Dots(t', e) == Dots(t1, e) {}
    forall e: nat, l: nat | IsDir(t', e) && 2 <= l < |t'[e].entries| && t'[e].entries[l].inum != 0
      ensures NamedIn(t', e, t'[e].entries[l].inum)
    {
      assert NamedIn(t1, e, t1[e].entries[l].inum);
    }
    forall e: nat, j: nat, l: nat | IsDir(t', e) && 2 <= j < l < |t'[e].entries| && IsDir(t', t'[e].entries[j].inum)
      ensures t'[e].entries[j].inum != t'[e].entries[l].inum
    {
      assert t1[e].entries[j].inum != t1[e].entries[l].inum;
    }
    forall e: nat, j: nat, l: nat | Linked(t', e) && j < l < |t'[e].entries| && t'[e].entries[j].inum != 0 &&
        t'[e].entries[l].inum != 0
      ensures t'[e].entries[j].name != t'[e].entries[l].name
    {
      assert Linked(t1, e) && t1[e].entries[j].name != t1[e].entries[l].name;
    }
  }

  lemma DirUnlinkedCounted(t: Table, pending: seq<nat>, d: nat, k: nat, i: nat, t': Table)
    requires Good(t, pending) && Linked(t, d) && 2 <= k < |t[d].entries| && t[d].entries[k].inum == i && IsDir(t, i)
    requires EmptyDir(t, i)
    requires t' == WithoutDir(t, d, k, i)
    ensures Counted(t', pending)
  {
    hide UniqueNames, Tree, Refs, Lists, Rooted;
    OnlyRef(t, pending, d, k, i);
    DirUnlinkedRefs(t, pending, d, k, i, t');
    forall j | 0 < j < |t'| ensures t'[j].nlink == |Refs(t', j)| + pending[j] {
      assert t[j].nlink == |Refs(t, j)| + pending[j];
    }
  }

  // ---------- Directories that are no longer linked ----------

  /** A directory without links is referred to by nothing. */
  lemma DeadUnlisted(t: Table, pending: seq<nat>, d: nat, q: nat)
    requires Good(t, pending) && IsDir(t, d) && !Linked(t, d) && IsDir(t, q)
    ensures !Lists(t, q, d)
  {
    assert t[d].nlink == |Refs(t, d)| + pending[d];
    assert Refs(t, d) == {};
    if Lists(t, q, d) {
      var j :| 2 <= j < |t[q].entries| && t[q].entries[j].inum == d;
      assert NamedIn(t, q, t[q].entries[j].inum);
      NotDot(t, q, j);
      InRefs(t, d, q, j);
    }
  }

  /** A file's entry in an unlinked directory is no reference: the link that was counted ahead for it stays one
      more than there are entries, so the inode would never be freed. */
  lemma FileInDead(t: Table, pending: seq<nat>, d: nat, k: nat, i: nat, name: string, t': Table)
    requires Counted(t, pending) && IsDir(t, d) && !Linked(t, d) && FreeSlot(t, d, k)
    requires 0 < i < |t| && pending[i] > 0 && t' == WithEntry(t, d, k, Dirent(i, name))
    ensures Refs(t', i) == Refs(t, i) && t'[i].nlink == |Refs(t', i)| + pending[i]
    ensures !Counted(t', pending[i := pending[i] - 1])
  {
    forall e: nat, l: nat ensures Names(t', e, l, i) == Names(t, e, l, i) {}
    assert Refs(t', i) == Refs(t, i) && t'[i].nlink == t[i].nlink == |Refs(t, i)| + pending[i];
  }

  /** For a directory, its ".." links the parent again, which is in no directory. */
  lemma DirInDead(t: Table, pending: seq<nat>, d: nat, k: nat, c: nat, name: string, t': Table)
    requires Good(t, pending) && IsDir(t, d) && !Linked(t, d) && FreeSlot(t, d, k)
    requires 0 < c < |t| && t[c].kind == NONE && t' == WithDir(t, d, k, c, name)
    ensures !Rooted(t')
  {
    assert Dots(t, d);
    assert t[d].nlink == |Refs(t, d)| + pending[d];
    assert Linked(t', d);
    forall q: nat | Linked(t', q) ensures !Lists(t', q, d) {
      if q != c {
        DeadUnlisted(t, pending, d, q);
        forall j | 2 <= j < |t'[q].entries| ensures t'[q].entries[j].inum != d {
          if q != d || j != k { assert t'[q].entries[j] == t[q].entries[j]; }
        }
      }
    }
    assert !HasParent(t', d);
  }

  /** iput of the last reference to an inode that no directory refers to. */
  lemma InodeFreed(t: Table, pending: seq<nat>, i: nat, t': Table)
    requires Good(t, pending) && 0 < i < |t| && t[i].nlink == 0 && t' == t[i := Inode(NONE, 0, [])]
    ensures Good(t', pending)
  {
    hide Refs, Lists, UniqueNames, Tree, Counted, Rooted;
    FreedCounted(t, pending, i, t');
    FreedTree(t, pending, i, t');
    FreedRooted(t, i, t');
    forall d: nat ensures Linked(t', d) == Linked(t, d) && (Linked(t, d) ==> t'[d].entries == t[d].entries) {}
    SameDirsAcyclic(t, t');
  }

  lemma FreedCounted(t: Table, pending: seq<nat>, i: nat, t': Table)
    requires Counted(t, pending) && 0 < i < |t| && t[i].nlink == 0 && t' == t[i := Inode(NONE, 0, [])]
    ensures Counted(t', pending) && Refs(t, i) == {}
  {
    assert t[i].nlink == |Refs(t, i)| + pending[i];
    assert Refs(t, i) == {};
    forall e: nat ensures Linked(t', e) == Linked(t, e) && (Linked(t, e) ==> t'[e] == t[e]) {}
    forall j | 0 < j < |t'| ensures t'[j].nlink == |Refs(t', j)| + pending[j] {
      assert t[j].nlink == |Refs(t, j)| + pending[j];
      forall e: nat, l: nat ensures Names(t', e, l, j) == Names(t, e, l, j) {}
      assert Refs(t', j) == Refs(t, j);
    }
  }

  lemma FreedRooted(t: Table, i: nat, t': Table)
    requires Rooted(t) && 0 < i < |t| && t[i].nlink == 0 && t' == t[i := Inode(NONE, 0, [])]
    ensures Rooted(t')
  {
    hide Lists;
    forall d: nat | Linked(t', d) ensures HasParent(t', d) {
      assert HasParent(t, d);
      ListsSame(t, t', t[d].entries[1].inum, d);
    }
  }

  lemma FreedTree(t: Table, pending: seq<nat>, i: nat, t': Table)
    requires Good(t, pending) && 0 < i < |t| && t[i].nlink == 0 && Refs(t, i) == {} && t' == t[i := Inode(NONE, 0, [])]
    ensures Tree(t') && UniqueNames(t')
  {
    hide Lists, Rooted, Counted;
    forall d: nat | IsDir(t', d) ensures Dots(t', d) && 0 < t'[d].entries[1].inum < |t'| { assert Dots(t, d); }
    forall d: nat, k: nat | IsDir(t', d) && 2 <= k < |t'[d].entries| && t'[d].entries[k].inum != 0
      ensures NamedIn(t', d, t'[d].entries[k].inum)
    {
      assert NamedIn(t, d, t[d].entries[k].inum);
      NotDot(t, d, k);
      InRefs(t, i, d, k);
    }
    forall d: nat, j: nat, k: nat | IsDir(t', d) && 2 <= j < k < |t'[d].entries| && IsDir(t', t'[d].entries[j].inum)
      ensures t'[d].entries[j].inum != t'[d].entries[k].inum
    {
      assert IsDir(t, t[d].entries[j].inum);
    }
    forall d: nat, j: nat, k: nat | Linked(t', d) && j < k < |t'[d].entries| && t'[d].entries[j].inum != 0 &&
        t'[d].entries[k].inum != 0
      ensures t'[d].entries[j].name != t'[d].entries[k].name
    {
      assert Linked(t, d) && t'[d] == t[d];
    }
  }

  // ---------- The operations ----------

  /** The table after unlink of entry k of d. */
  function WithoutEntry(t: Table, d: nat, k: nat): (r: Table)
    requires d < |t| && k < |t[d].entries| && t[d].entries[k].inum < |t|
    ensures |r| == |t|
  {
    var i := t[d].entries[k].inum;
    if t[i].kind == T_DIR then WithoutDir(t, d, k, i) else WithLinks(WithEntry(t, d, k, EMPTY), i, -1)
  }

  datatype Created = Made(inum: nat) | Found(inum: nat) | Refused | Panic

  /** Entry k is the first in use with that name. */
  predicate FirstNamed(entries: seq<Dirent>, name: string, k: nat) {
    && k < |entries| && entries[k].inum != 0 && entries[k].name == name
    && forall j :: 0 <= j < k ==> entries[j].inum == 0 || entries[j].name != name
  }

  /** The first place that no entry uses, or the end. */
  predicate FirstFree(entries: seq<Dirent>, k: nat) {
    k <= |entries| && (k < |entries| ==> entries[k].inum == 0) && forall j :: 0 <= j < k ==> entries[j].inum != 0
  }

  /** The first free inode. */
  predicate FirstInode(t: Table, i: nat) {
    0 < i < |t| && t[i].kind == NONE && forall j :: 0 < j < i ==> t[j].kind != NONE
  }

  /** What create does in directory d. A name that is present, in entry k, is a file found if a file is to be made
      and it names one, and is refused otherwise; unless it names a free inode, as the ".." of a directory that
      is no longer linked may, which is a panic. For another name there is a new inode, or a panic if there is no
      free one. */
  ghost predicate Creates(t: Table, d: nat, name: string, kind: Kind, r: Created, k: nat, t': Table) {
    && d < |t|
    && if HasName(t, d, name) then
         && t' == t && FirstNamed(t[d].entries, name, k) && t[d].entries[k].inum < |t|
         && var i := t[d].entries[k].inum;
            && (t[i].kind == NONE ==> !Linked(t, d))
            && r == if t[i].kind == NONE then Panic
                    else if kind == T_FILE && t[i].kind == T_FILE then Found(i)
                    else Refused
       else if forall i :: 0 < i < |t| ==> t[i].kind != NONE then r == Panic && t' == t
       else
         && r.Made? && FirstInode(t, r.inum) && r.inum != d && FirstFree(t[d].entries, k)
         && t' == if kind == T_DIR then WithDir(t, d, k, r.inum, name)
                  else WithEntry(t[r.inum := Inode(kind, 1, [])], d, k, Dirent(r.inum, name))
  }

  /** What unlink does: it takes out the entry k of that name and one link, unless there is none, it is "." or
      "..", or it names a directory that is not empty. */
  ghost predicate Unlinks(t: Table, d: nat, name: string, r: int, k: nat, t': Table) {
    && d < |t|
    && if name == "." || name == ".." || !HasName(t, d, name) then r == -1 && t' == t
       else
         && FirstNamed(t[d].entries, name, k)
         && var i := t[d].entries[k].inum;
            && 0 < i < |t| && t[i].nlink >= 1
            && if t[i].kind == T_DIR && !EmptyDir(t, i) then r == -1 && t' == t
               else r == 0 && t' == WithoutEntry(t, d, k)
  }

  class FileTree {
    var inodes: Table
    ghost var pending: seq<nat>

    ghost predicate Valid()
      reads this
    {
      Good(inodes, pending)
    }

    /** The file system that mkfs makes: a root directory alone. */
    constructor (ninodes: nat)
      requires ninodes > ROOTINO
      ensures Valid() && |inodes| == ninodes && inodes[ROOTINO] == NewDir(ROOTINO, ROOTINO)
      ensures forall i :: 0 <= i < ninodes && i != ROOTINO ==> inodes[i] == Inode(NONE, 0, [])
      ensures pending == seq(ninodes, _ => 0)
    {
      inodes := seq(ninodes, i => if i == ROOTINO then NewDir(ROOTINO, ROOTINO) else Inode(NONE, 0, []));
      pending := seq(ninodes, _ => 0);
      new;
      RootAlone(inodes, pending);
    }

    /** dirlookup: the entry called `name`, or the number of entries. */
    method Dirlookup(d: nat, name: string) returns (k: nat)
      requires IsDir(inodes, d)
      ensures k < |inodes[d].entries| ==> FirstNamed(inodes[d].entries, name, k)
      ensures k <= |inodes[d].entries| && (k == |inodes[d].entries| <==> !HasName(inodes, d, name))
    {
      var es := inodes[d].entries;
      k := 0;
      while k < |es|
        invariant k <= |es| && forall j :: 0 <= j < k ==> es[j].inum == 0 || es[j].name != name
      {
        if es[k].inum != 0 && es[k].name == name {
          return;
        }
        k := k + 1;
      }
    }

    /** dirlink */
    method Dirlink(d: nat, name: string, inum: nat) returns (r: int, ghost k: nat)
      requires IsDir(inodes, d)
      modifies this`inodes
      ensures r == -1 <==> HasName(old(inodes), d, name)
      ensures r == -1 ==> inodes == old(inodes)
      ensures r != -1 ==>
        r == 0 && FirstFree(old(inodes)[d].entries, k) && inodes == WithEntry(old(inodes), d, k, Dirent(inum, name))
    {
      var found := Dirlookup(d, name);
      k := 0;
      if found < |inodes[d].entries| {
        return -1, k;
      }
      var off := 0;
      while off < |inodes[d].entries| && inodes[d].entries[off].inum != 0
        invariant off <= |inodes[d].entries| && forall j :: 0 <= j < off ==> inodes[d].entries[j].inum != 0
      {
        off := off + 1;
      }
      k := off;
      inodes := inodes[d := inodes[d].(entries := Placed(inodes[d].entries, off, Dirent(inum, name)))];
      r := 0;
    }

    /** ialloc's search: the first free inode, or the number of inodes. */
    method Ialloc() returns (i: nat)
      requires |inodes| > 0
      ensures 0 < i <= |inodes| && (i < |inodes| ==> inodes[i].kind == NONE)
      ensures forall j :: 0 < j < i ==> inodes[j].kind != NONE
    {
      i := 1;
      while i < |inodes| && inodes[i].kind != NONE
        invariant 0 < i <= |inodes| && forall j :: 0 < j < i ==> inodes[j].kind != NONE
      {
        i := i + 1;
      }
    }

    /** create. What has been made fits the tree exactly when the directory is still linked. */
    method Create(d: nat, name: string, kind: Kind) returns (r: Created, ghost k: nat)
      requires Valid() && IsDir(inodes, d) && kind != NONE
      modifies this
      ensures Creates(old(inodes), d, name, kind, r, k, inodes) && pending == old(pending)
      ensures r.Made? ==> (Valid() <==> Linked(old(inodes), d))
      ensures r.Made? && !Linked(old(inodes), d) ==>
        if kind == T_DIR then !Rooted(inodes) else Refs(inodes, r.inum) == {} && !Counted(inodes, pending)
    {
      hide Good, Refs, Rooted, Counted;
      k := 0;
      var found := Dirlookup(d, name);
      if found < |inodes[d].entries| {
        k := found;
        var i := inodes[d].entries[found].inum;
        EntryExists(inodes, pending, d, found);
        if inodes[i].kind == NONE {
          return Panic, k;
        }
        if kind == T_FILE && inodes[i].kind == T_FILE {
          return Found(i), k;
        }
        return Refused, k;
      }
      GoodRoot(inodes, pending);
      var i := Ialloc();
      if i == |inodes| {
        return Panic, k;
      }
      if kind == T_DIR {
        k := CreateDir(d, name, i);
      } else {
        k := CreateFile(d, name, i, kind);
      }
      r := Made(i);
    }

    method CreateFile(d: nat, name: string, i: nat, kind: Kind) returns (ghost k: nat)
      requires Valid() && IsDir(inodes, d) && !HasName(inodes, d, name) && 0 < i < |inodes| && inodes[i].kind == NONE
      requires kind == T_FILE || kind == T_DEV
      modifies this
      ensures FirstFree(old(inodes)[d].entries, k)
      ensures inodes == WithEntry(old(inodes)[i := Inode(kind, 1, [])], d, k, Dirent(i, name))
      ensures pending == old(pending) && (Valid() <==> Linked(old(inodes), d))
      ensures !Linked(old(inodes), d) ==> Refs(inodes, i) == {} && !Counted(inodes, pending)
    {
      hide Good, Refs, Counted;
      ghost var t := inodes;
      inodes := inodes[i := Inode(kind, 1, [])];
      var r;
      r, k := Dirlink(d, name, i);
      FileMade(t, pending, d, k, i, name, kind, inodes);
    }

    method CreateDir(d: nat, name: string, i: nat) returns (ghost k: nat)
      requires Valid() && IsDir(inodes, d) && !HasName(inodes, d, name) && 0 < i < |inodes| && inodes[i].kind == NONE
      modifies this
      ensures FirstFree(old(inodes)[d].entries, k) && inodes == WithDir(old(inodes), d, k, i, name)
      ensures pending == old(pending) && (Valid() <==> Linked(old(inodes), d))
      ensures !Linked(old(inodes), d) ==> !Rooted(inodes)
    {
      hide Good, Refs, Lists;
      ghost var t := inodes;
      inodes := inodes[i := Inode(T_DIR, 1, [])];
      inodes := inodes[d := inodes[d].(nlink := inodes[d].nlink + 1)];
      var _, _ := Dirlink(i, ".", i);
      var _, _ := Dirlink(i, "..", d);
      assert inodes[i] == NewDir(i, d);
      assert inodes == WithLinks(t[i := NewDir(i, d)], d, 1);
      var r;
      r, k := Dirlink(d, name, i);
      NewDirMade(t, pending, d, k, i, name, inodes);
    }

    /** sys_link up to the point where the inode is unlocked: the link is counted before it is entered. */
    method LinkStart(i: nat) returns (ok: bool)
      requires Valid() && 0 < i < |inodes| && inodes[i].kind != NONE
      modifies this
      ensures Valid() && (ok <==> old(inodes)[i].kind != T_DIR)
      ensures !ok ==> inodes == old(inodes) && pending == old(pending)
      ensures ok ==> inodes == WithLinks(old(inodes), i, 1) && pending == old(pending)[i := old(pending)[i] + 1]
    {
      hide Refs, Counted, UniqueNames, Rooted, Tree, Lists;
      if inodes[i].kind == T_DIR {
        return false;
      }
      FileChanged(inodes, pending, i, inodes[i].(nlink := inodes[i].nlink + 1), pending[i] + 1);
      inodes := inodes[i := inodes[i].(nlink := inodes[i].nlink + 1)];
      pending := pending[i := pending[i] + 1];
      ok := true;
    }

    /** The rest of sys_link, in directory d (0 if there is none). A failure takes the count back; otherwise the
        tree is as it should be exactly when the directory is still linked. */
    method LinkFinish(i: nat, d: nat, name: string) returns (r: int, ghost k: nat)
      requires Valid() && 0 < i < |inodes| && inodes[i].kind != NONE && inodes[i].kind != T_DIR && pending[i] > 0
      requires d != 0 ==> IsDir(inodes, d)
      modifies this
      ensures r == (if d == 0 || HasName(old(inodes), d, name) then -1 else 0)
      ensures pending == old(pending)[i := old(pending)[i] - 1]
      ensures r == -1 ==> Valid() && inodes == WithLinks(old(inodes), i, -1)
      ensures r == 0 ==>
        FirstFree(old(inodes)[d].entries, k) && inodes == WithEntry(old(inodes), d, k, Dirent(i, name))
      ensures r == 0 ==> (Valid() <==> Linked(old(inodes), d))
    {
      hide Refs, Counted, UniqueNames, Rooted, Lists;
      ghost var t, was := inodes, pending;
      pending := pending[i := pending[i] - 1];
      r, k := -1, 0;
      if d != 0 {
        r, k := Dirlink(d, name, i);
      }
      if r < 0 {
        FileChanged(t, was, i, t[i].(nlink := t[i].nlink - 1), was[i] - 1);
        inodes := inodes[i := inodes[i].(nlink := inodes[i].nlink - 1)];
      } else if Linked(t, d) {
        LinkEntered(t, was, d, k, i, name, inodes);
      } else {
        FileInDead(t, was, d, k, i, name, inodes);
      }
    }

    /** isdirempty */
    method Isdirempty(i: nat) returns (r: bool)
      requires i < |inodes|
      ensures r <==> EmptyDir(inodes, i)
    {
      var k := 2;
      while k < |inodes[i].entries|
        invariant 2 <= k && forall j :: 2 <= j < k && j < |inodes[i].entries| ==> inodes[i].entries[j].inum == 0
      {
        if inodes[i].entries[k].inum != 0 {
          return false;
        }
        k := k + 1;
      }
      r := true;
    }

    /** sys_unlink in directory d; k is the entry of that name. */
    method Unlink(d: nat, name: string) returns (r: int, k: nat)
      requires Valid() && IsDir(inodes, d)
      modifies this
      ensures Unlinks(old(inodes), d, name, r, k, inodes)
      ensures Valid() && pending == old(pending)
    {
      hide Good, Refs, UniqueNames, Tree, Rooted, Counted, Lists;
      k := 0;
      if name == "." || name == ".." {
        return -1, k;
      }
      k := Dirlookup(d, name);
      if k == |inodes[d].entries| {
        return -1, k;
      }
      var i := inodes[d].entries[k].inum;
      EntryCountsOne(inodes, pending, d, k);
      if inodes[i].kind == T_DIR {
        var empty := Isdirempty(i);
        if !empty {
          return -1, k;
        }
      }
      EntryUnlinked(inodes, pending, d, k);
      inodes := inodes[d := inodes[d].(entries := Placed(inodes[d].entries, k, EMPTY))];
      if inodes[i].kind == T_DIR {
        inodes := inodes[d := inodes[d].(nlink := inodes[d].nlink - 1)];
      }
      inodes := inodes[i := inodes[i].(nlink := inodes[i].nlink - 1)];
      r := 0;
    }

    /** iput, when it drops the last reference in memory. */
    method Iput(i: nat)
      requires Valid() && 0 < i < |inodes|
      modifies this
      ensures Valid() && pending == old(pending)
      ensures inodes == if old(inodes)[i].nlink == 0 then old(inodes)[i := Inode(NONE, 0, [])] else old(inodes)
    {
      if inodes[i].nlink == 0 {
        InodeFreed(inodes, pending, i, inodes[i := Inode(NONE, 0, [])]);
        inodes := inodes[i := Inode(NONE, 0, [])];
      }
    }
  }

  // ---------- What the operations do to the tree ----------

  /** A file made in a directory fits the tree exactly when the directory is linked. */
  lemma FileMade(t: Table, pending: seq<nat>, d: nat, k: nat, i: nat, name: string, kind: Kind, t': Table)
    requires Good(t, pending) && IsDir(t, d) && FreeSlot(t, d, k) && !HasName(t, d, name)
    requires 0 < i < |t| && t[i].kind == NONE && (kind == T_FILE || kind == T_DEV)
    requires t' == WithEntry(t[i := Inode(kind, 1, [])], d, k, Dirent(i, name))
    ensures Good(t', pending) <==> Linked(t, d)
    ensures !Linked(t, d) ==> Refs(t', i) == {} && !Counted(t', pending)
  {
    hide Refs, Counted, UniqueNames, Rooted, Lists;
    var t1, p1 := t[i := Inode(kind, 1, [])], pending[i := 1];
    FileChanged(t, pending, i, Inode(kind, 1, []), 1);
    assert p1[i := 0] == pending;
    if Linked(t, d) {
      LinkEntered(t1, p1, d, k, i, name, t');
    } else {
      FileInDead(t1, p1, d, k, i, name, t');
    }
  }

  lemma NewDirMade(t: Table, pending: seq<nat>, p: nat, k: nat, c: nat, name: string, t': Table)
    requires Good(t, pending) && IsDir(t, p) && FreeSlot(t, p, k) && !HasName(t, p, name)
    requires 0 < c < |t| && t[c].kind == NONE && t' == WithDir(t, p, k, c, name)
    ensures Good(t', pending) <==> Linked(t, p)
    ensures !Linked(t, p) ==> !Rooted(t')
  {
    hide Refs, Lists, Counted, UniqueNames, Tree, Acyclic;
    if Linked(t, p) {
      DirMade(t, pending, p, k, c, name, t');
    } else {
      DirInDead(t, pending, p, k, c, name, t');
    }
  }

  /** Another link to a file, counted and entered. */
  lemma LinkMade(t: Table, pending: seq<nat>, d: nat, k: nat, i: nat, name: string, t': Table)
    requires Good(t, pending) && IsDir(t, d) && FreeSlot(t, d, k) && !HasName(t, d, name)
    requires 0 < i < |t| && (t[i].kind == T_FILE || t[i].kind == T_DEV)
    requires t' == WithEntry(WithLinks(t, i, 1), d, k, Dirent(i, name))
    ensures Good(t', pending) <==> Linked(t, d)
  {
    hide Refs, Counted, UniqueNames, Rooted, Lists;
    var t1, p1 := WithLinks(t, i, 1), pending[i := pending[i] + 1];
    FileChanged(t, pending, i, t1[i], pending[i] + 1);
    assert p1[i := pending[i]] == pending;
    if Linked(t, d) {
      LinkEntered(t1, p1, d, k, i, name, t');
    } else {
      FileInDead(t1, p1, d, k, i, name, t');
    }
  }

  /** Taking out an entry that unlink may find, of a file or of an empty directory. */
  lemma EntryUnlinked(t: Table, pending: seq<nat>, d: nat, k: nat)
    requires Good(t, pending) && IsDir(t, d) && k < |t[d].entries| && t[d].entries[k].inum != 0
    requires t[d].entries[k].name != "." && t[d].entries[k].name != ".."
    requires t[d].entries[k].inum < |t|
    requires t[t[d].entries[k].inum].kind == T_DIR ==> EmptyDir(t, t[d].entries[k].inum)
    ensures Good(WithoutEntry(t, d, k), pending)
  {
    hide Good, Refs, UniqueNames, Tree, Rooted, Counted, Lists;
    var i := t[d].entries[k].inum;
    EntryCountsOne(t, pending, d, k);
    if t[i].kind == T_DIR {
      DirUnlinked(t, pending, d, k, i, WithoutDir(t, d, k, i));
    } else {
      FileUnlinked(t, pending, d, k, i);
    }
  }

  // ---------- What the operations need of the tree ----------

  lemma GoodRoot(t: Table, pending: seq<nat>)
    requires Good(t, pending)
    ensures |t| > ROOTINO && Linked(t, ROOTINO)
  {
  }

  /** A directory that is made and removed is still there while some process has it open or as its current
      directory; a file created in it then keeps its one link without being listed anywhere. */
  method CreateInRemoved() returns (tree: FileTree, c: nat, i: nat)
    ensures fresh(tree) && IsDir(tree.inodes, c) && !Linked(tree.inodes, c)
    ensures tree.pending == seq(|tree.inodes|, _ => 0)
    ensures i < |tree.inodes| && tree.inodes[i] == Inode(T_FILE, 1, []) && Refs(tree.inodes, i) == {}
    ensures tree.inodes[c].entries == [Dirent(c, "."), Dirent(ROOTINO, ".."), Dirent(i, "f")]
    ensures !Counted(tree.inodes, tree.pending) && !tree.Valid()
  {
    hide Good, Refs, Lists, Counted, Rooted;
    tree := new FileTree(4);
    assert !HasName(tree.inodes, ROOTINO, "d") && tree.inodes[2].kind == tree.inodes[3].kind == NONE;
    var r, k := tree.Create(ROOTINO, "d", T_DIR);
    c := r.inum;
    assert k == 2 && tree.inodes[ROOTINO].entries[2] == Dirent(c, "d") && tree.inodes[c] == NewDir(c, ROOTINO);
    var u, l := tree.Unlink(ROOTINO, "d");
    assert l == 2 && tree.inodes[c] == NewDir(c, ROOTINO).(nlink := 0) && tree.inodes[5 - c].kind == NONE;
    var f, m := tree.Create(c, "f", T_FILE);
    i := f.inum;
  }

  lemma RootAlone(t: Table, pending: seq<nat>)
    requires |t| == |pending| > ROOTINO && forall i :: 0 <= i < |t| ==> pending[i] == 0
    requires forall i :: 0 <= i < |t| ==> t[i] == if i == ROOTINO then NewDir(ROOTINO, ROOTINO) else Inode(NONE, 0, [])
    ensures Good(t, pending)
  {
    forall e: nat ensures Linked(t, e) == IsDir(t, e) == (e == ROOTINO) {}
    forall i | 0 < i < |t| ensures t[i].nlink == |Refs(t, i)| {
      assert Refs(t, i) == if i == ROOTINO then {(ROOTINO, 1)} else {} by {
        forall e: nat, l: nat ensures Names(t, e, l, i) == (e == ROOTINO && l == 1 && i == ROOTINO) {}
      }
    }
    assert HasParent(t, ROOTINO) && Climbs(t, ROOTINO, 0) && ReachesRoot(t, ROOTINO);
  }

  /** An entry of a linked directory names an inode in use. (The ".." of one that is no longer linked may not.) */
  lemma EntryExists(t: Table, pending: seq<nat>, d: nat, k: nat)
    requires Good(t, pending) && IsDir(t, d) && k < |t[d].entries| && t[d].entries[k].inum != 0
    ensures t[d].entries[k].inum < |t| && (Linked(t, d) ==> t[t[d].entries[k].inum].kind != NONE)
  {
    assert Dots(t, d);
    if k >= 2 { assert NamedIn(t, d, t[d].entries[k].inum); }
    if Linked(t, d) { assert HasParent(t, d); }
  }

  /** What unlink may find: an entry after the first two, in a directory that is linked, and a link to take back. */
  lemma EntryCountsOne(t: Table, pending: seq<nat>, d: nat, k: nat)
    requires Good(t, pending) && IsDir(t, d) && k < |t[d].entries| && t[d].entries[k].inum != 0
    requires t[d].entries[k].name != "." && t[d].entries[k].name != ".."
    ensures Linked(t, d) && 2 <= k && t[d].entries[k].inum < |t| && t[t[d].entries[k].inum].nlink >= 1
  {
    assert Dots(t, d);
    var i := t[d].entries[k].inum;
    assert NamedIn(t, d, i);
    InRefs(t, i, d, k);
    assert t[i].nlink == |Refs(t, i)| + pending[i];
    assert |{(d, k)}| <= |Refs(t, i)| by { SubsetSize({(d, k)}, Refs(t, i)); }
  }

  /** Removing a file's entry and its link. */
  lemma FileUnlinked(t: Table, pending: seq<nat>, d: nat, k: nat, i: nat)
    requires Good(t, pending) && Linked(t, d) && 2 <= k < |t[d].entries| && t[d].entries[k].inum == i != 0
    requires i < |t| && t[i].kind != T_DIR
    ensures Good(WithLinks(WithEntry(t, d, k, EMPTY), i, -1), pending)
  {
    hide Refs, UniqueNames, Rooted, Counted, Lists;
    NamedFile(t, d, k, i);
    var t1, p1 := WithEntry(t, d, k, EMPTY), pending[i := pending[i] + 1];
    FileCleared(t, pending, d, k, i, t1);
    FileChanged(t1, p1, i, t1[i].(nlink := t1[i].nlink - 1), pending[i]);
    assert p1[i := pending[i]] == pending;
  }
}
