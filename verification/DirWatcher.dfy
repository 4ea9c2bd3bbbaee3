/** The inode watchlist every policy filters by: which opens enter it, with which tag, and
    exactly when an open can take an inode off it again. */
module DirWatcher {

  const MAX_DEPTH: nat := 64

  datatype Option<+T> = None | Some(value: T)

  /** Inode number to client tag (inode_watchlist). */
  type Watchlist = map<nat, nat>

  function ClientTag(w: Watchlist, ino: nat): nat {
    if ino in w then w[ino] else 0
  }

  predicate InWatchlist(w: Watchlist, ino: nat) {
    ClientTag(w, ino) != 0
  }

  /** A directory entry: its inode, if any, and the entry of its parent directory. */
  class Dentry {
    const inode: Option<nat>
    const parent: Dentry?

    constructor (inode: Option<nat>, parent: Dentry?)
      ensures this.inode == inode && this.parent == parent
    {
      this.inode, this.parent := inode, parent;
    }
  }

  /** The k-th ancestor; the walk stops at a missing parent and at a self-parent (the root). */
  ghost function Ancestor(d: Dentry, k: nat): Dentry? {
    if k == 0 then d
    else
      var c := Ancestor(d, k - 1);
      if c == null || c.parent == c then null else c.parent
  }

  ghost predicate InodeAt(d: Dentry, k: nat) {
    var a := Ancestor(d, k);
    a != null && a.inode.Some?
  }

  lemma {:induction false} AncestorsAbove(d: Dentry, k: nat, m: nat)
    requires k <= m && Ancestor(d, k) == null
    ensures Ancestor(d, m) == null
  {
    if k < m {
      AncestorsAbove(d, k, m - 1);
    }
  }

  /** The outcome of handing an open inode with a non-zero tag to the map: the old entry is
      deleted first, so a failed insertion after it loses the inode. */
  function OpenInode(w: Watchlist, ino: nat, tag: nat, deleteOk: bool, updateOk: bool): Watchlist {
    if tag == 0 then w
    else if ino in w && !deleteOk then w
    else if updateOk then w[ino := tag]
    else w - {ino}
  }

  ghost predicate Grows(w: Watchlist, w': Watchlist) {
    forall ino :: InWatchlist(w, ino) ==> InWatchlist(w', ino)
  }

  /** Opening a file keeps every watched inode watched unless it re-inserts a watched inode
      and the insertion fails after the deletion; in that case exactly that inode is lost. */
  lemma OpenGrowsExactly(w: Watchlist, ino: nat, tag: nat, deleteOk: bool, updateOk: bool)
    ensures var w' := OpenInode(w, ino, tag, deleteOk, updateOk);
            && (Grows(w, w') <==> !(tag != 0 && InWatchlist(w, ino) && deleteOk && !updateOk))
            && (forall other | other != ino :: ClientTag(w', other) == ClientTag(w, other))
            && (ClientTag(w', ino) in {ClientTag(w, ino), tag, 0})
  {
    var w' := OpenInode(w, ino, tag, deleteOk, updateOk);
    if tag != 0 && InWatchlist(w, ino) && deleteOk && !updateOk {
      assert !InWatchlist(w', ino);
    }
  }

  class Watcher {
    const root1: nat
    const root2: nat
    const tag1: nat
    const tag2: nat
    var watchlist: Watchlist

    constructor (root1: nat, root2: nat, tag1: nat, tag2: nat)
      ensures watchlist == map[]
      ensures this.root1 == root1 && this.root2 == root2 && this.tag1 == tag1 && this.tag2 == tag2
    {
      this.root1, this.root2, this.tag1, this.tag2 := root1, root2, tag1, tag2;
      watchlist := map[];
    }

    ghost predicate IsRoot(ino: nat) {
      ino == root1 || (root2 != 0 && ino == root2)
    }

    ghost predicate RootAt(d: Dentry, k: nat) {
      InodeAt(d, k) && IsRoot(Ancestor(d, k).inode.value)
    }

    /** The k-th ancestor is a watch root, reached through existing inodes, and nearer
        ancestors are not roots. */
    ghost predicate NearestRoot(d: Dentry, k: nat) {
      && k < MAX_DEPTH
      && RootAt(d, k)
      && forall j: nat :: j < k ==> InodeAt(d, j) && !RootAt(d, j)
    }

    ghost function RootTag(ino: nat): nat {
      if ino == root1 then tag1 else tag2
    }

    /** tag belongs to the nearest watch root above d, or is 0 because there is none. */
    ghost predicate Classified(d: Dentry, tag: nat) {
      || (exists k: nat :: NearestRoot(d, k) && tag == RootTag(Ancestor(d, k).inode.value))
      || (tag == 0 && forall k: nat :: !NearestRoot(d, k))
    }

    /** The parent walk finds the nearest watch root among the first 64 ancestors, and only
        when every inode on the way exists. */
    method ClientTagFromWatchRoots(dentry: Dentry?) returns (tag: nat)
      ensures dentry == null || root1 == 0 ==> tag == 0
      ensures dentry != null && root1 != 0 ==> Classified(dentry, tag)
    {
      if root1 == 0 {
        return 0;
      }
      if dentry == null {
        return 0;
      }
      var d: Dentry := dentry;
      for i := 0 to MAX_DEPTH
        invariant d == Ancestor(dentry, i)
        invariant forall j: nat :: j < i ==> InodeAt(dentry, j) && !RootAt(dentry, j)
      {
        if d.inode.None? {
          assert !InodeAt(dentry, i);
          return 0;
        }
        assert InodeAt(dentry, i);
        if d.inode.value == root1 {
          assert NearestRoot(dentry, i);
          return tag1;
        }
        if root2 != 0 && d.inode.value == root2 {
          assert NearestRoot(dentry, i);
          return tag2;
        }
        if d.parent == null || d.parent == d {
          forall k: nat ensures !NearestRoot(dentry, k) {
            if k > i {
              assert Ancestor(dentry, i + 1) == null;
              AncestorsAbove(dentry, i + 1, k);
            }
          }
          return 0;
        }
        d := d.parent;
      }
      return 0;
    }

    /** fentry/vfs_open: classify the open and record its inode. */
    method VfsOpenEnter(dentry: Dentry?, deleteOk: bool, updateOk: bool) returns (tag: nat)
      modifies this
      ensures dentry == null || root1 == 0 ==> tag == 0
      ensures dentry != null && root1 != 0 ==> Classified(dentry, tag)
      ensures watchlist == if dentry != null && dentry.inode.Some?
                           then OpenInode(old(watchlist), dentry.inode.value, tag, deleteOk, updateOk)
                           else old(watchlist)
    {
      tag := ClientTagFromWatchRoots(dentry);
      if tag == 0 {
        return;
      }
      if dentry.inode.None? {
        return;
      }
      var ino := dentry.inode.value;
      if ino in watchlist {
        if !deleteOk {
          return;
        }
        watchlist := watchlist - {ino};
      }
      if !updateOk {
        assert watchlist == old(watchlist) - {ino};
        return;
      }
      watchlist := watchlist[ino := tag];
      assert (old(watchlist) - {ino})[ino := tag] == old(watchlist)[ino := tag];
    }
  }
}
