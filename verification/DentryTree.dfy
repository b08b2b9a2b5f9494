/** What holds of the inodes of the hgfs server: the tree of directory entries, the name hash and the free list. */
module DentryTree {
  import opened Lists
  import opened Names

  /** The inode table: i_parent (-1 is NULL; the root, inode 0, is its own parent), i_child, i_ref, I_DIR, I_HANDLE,
      i_name, the name hash and the free list. `depth` is not in the table: it shows that the tree is one. */
  datatype Table = Table(parent: seq<int>, child: seq<seq<nat>>, ref: seq<nat>, dir: seq<bool>, handle: seq<bool>,
                         name: seq<Name>, hash: seq<seq<nat>>, free: seq<nat>, depth: seq<nat>, insensitive: bool)

  predicate Sized(t: Table) {
    && |t.parent| == |t.child| == |t.ref| == |t.dir| == |t.handle| == |t.name| == |t.depth| == INODES
    && |t.hash| == SLOTS
  }

  /** A linked-in inode other than the root. */
  predicate Linked(t: Table, x: nat)
    requires Sized(t)
  {
    x < INODES && x != 0 && t.parent[x] != -1
  }

  predicate Referenced(t: Table, x: nat)
    requires Sized(t) && x < INODES
  {
    t.ref[x] > 0 || t.child[x] != []
  }

  ghost predicate TreeOk(t: Table, x: nat)
    requires Sized(t) && x < INODES
  {
    && Distinct(t.child[x]) && (t.child[x] != [] ==> t.dir[x])
    && (forall y :: y in t.child[x] ==> Linked(t, y) && t.parent[y] == x)
    && (Linked(t, x) ==> 0 <= t.parent[x] < INODES && x in t.child[t.parent[x]] && t.depth[x] > t.depth[t.parent[x]])
  }

  /** An inode is in the name hash, in the slot of its parent and name, iff it is linked in and not the root. */
  ghost predicate HashOk(t: Table, x: nat)
    requires Sized(t) && x < INODES
  {
    && (Linked(t, x) ==> 0 <= t.parent[x] < INODES && x in t.hash[Slot(t.parent[x], t.name[x], t.insensitive)])
    && forall s: nat :: s < SLOTS && x in t.hash[s] ==>
         Linked(t, x) && 0 <= t.parent[x] && s == Slot(t.parent[x], t.name[x], t.insensitive)
  }

  /** An inode is on the free list iff it is not referenced, and has an open handle only while VFS refers to it. */
  ghost predicate LifeOk(t: Table, x: nat)
    requires Sized(t) && x < INODES
  {
    (x in t.free <==> !Referenced(t, x)) && (t.handle[x] ==> t.ref[x] > 0)
  }

  ghost predicate ListsOk(t: Table)
    requires Sized(t)
  {
    && Distinct(t.free) && (forall x :: x in t.free ==> x < INODES)
    && forall s: nat :: s < SLOTS ==> SlotOk(t, s)
  }

  ghost predicate SlotOk(t: Table, s: nat)
    requires Sized(t) && s < SLOTS
  {
    Distinct(t.hash[s]) && forall x :: x in t.hash[s] ==> x < INODES
  }

  /** All of it, but for an inode that has just been taken off the free list. */
  ghost predicate Good(t: Table, but: int) {
    && Sized(t) && t.parent[0] == 0 && ListsOk(t)
    && (forall x: nat :: x < INODES ==> TreeOk(t, x) && HashOk(t, x))
    && (forall x: nat :: x < INODES && x != but ==> LifeOk(t, x))
    && (0 <= but < INODES ==> but !in t.free && !Referenced(t, but) && !t.handle[but])
  }

  /** The link of the free list and the open handle share their place; they are never both in use. */
  lemma UnionOk(t: Table, x: nat)
    requires Good(t, -1) && x < INODES
    ensures !(x in t.free && t.handle[x])
  {
    assert LifeOk(t, x);
  }

  /** Only a linked-in inode has children. While del_dentry is at work this does not hold. */
  ghost predicate Settled(parent: seq<int>, child: seq<seq<nat>>) {
    |parent| == |child| && forall x: nat :: x < |child| ==> Placed(parent, child, x)
  }

  predicate Placed(parent: seq<int>, child: seq<seq<nat>>, x: nat)
    requires x < |parent| == |child|
  {
    child[x] != [] ==> parent[x] != -1
  }

  /** The four states of an inode other than the root. */
  predicate InUse(t: Table, x: nat)
    requires Sized(t) && x < INODES
  {
    Referenced(t, x) && t.parent[x] != -1
  }

  predicate Cached(t: Table, x: nat)
    requires Sized(t) && x < INODES
  {
    !Referenced(t, x) && t.parent[x] != -1
  }

  predicate Lost(t: Table, x: nat)            // DELETED
    requires Sized(t) && x < INODES
  {
    Referenced(t, x) && t.parent[x] == -1
  }

  predicate Unused(t: Table, x: nat)          // FREE
    requires Sized(t) && x < INODES
  {
    !Referenced(t, x) && t.parent[x] == -1
  }

  /** What the header of the inode structure promises for each of the four states. */
  lemma LifeCycle(t: Table, x: nat)
    requires Good(t, -1) && Settled(t.parent, t.child) && 0 < x < INODES
    ensures (exists s: nat :: s < SLOTS && x in t.hash[s]) <==> InUse(t, x) || Cached(t, x)
    ensures x in t.free <==> Cached(t, x) || Unused(t, x)
    ensures t.handle[x] ==> InUse(t, x) || Lost(t, x)
    ensures t.child[x] != [] ==> InUse(t, x) && t.dir[x]
  {
    assert HashOk(t, x) && LifeOk(t, x) && TreeOk(t, x) && Placed(t.parent, t.child, x);
  }

  // ---------------------------------------------------------------- deleting

  /** `s` without the elements of `d`, in order. */
  function Without(s: seq<nat>, d: set<nat>): (r: seq<nat>)
    ensures forall x :: x in r <==> x in s && x !in d
  {
    if s == [] then []
    else if s[0] in d then Without(s[1..], d)
    else [s[0]] + Without(s[1..], d)
  }

  lemma {:induction false} WithoutNone(s: seq<nat>, d: set<nat>)
    requires forall x :: x in s ==> x !in d
    ensures Without(s, d) == s
  {
    if s != [] { WithoutNone(s[1..], d); }
  }

  lemma {:induction false} WithoutOne(s: seq<nat>, d: set<nat>, y: nat)
    requires Distinct(s)
    ensures Without(s, d + {y}) == Remove(Without(s, d), y)
  {
    if s != [] {
      WithoutOne(s[1..], d, y);
      if s[0] == y && y !in d {
        assert y !in s[1..];
        assert Without(s, d) == [y] + Without(s[1..], d);
        assert Without(s[1..], d) == Without(s, d)[1..];
        assert y !in Without(s[1..], d);
      } else if s[0] !in d {
        assert Without(s, d) == [s[0]] + Without(s[1..], d);
      }
    }
  }

  lemma {:induction false} WithoutDistinct(s: seq<nat>, d: set<nat>)
    requires Distinct(s)
    ensures Distinct(Without(s, d))
  {
    if s != [] { WithoutDistinct(s[1..], d); }
  }

  /** The k-th parent; -1 past an inode that has none. */
  function Up(parent: seq<int>, x: int, k: nat): int
    decreases k
  {
    if k == 0 then x
    else if 0 <= x < |parent| then Up(parent, parent[x], k - 1)
    else -1
  }

  /** `x` is `top` or below it. */
  ghost predicate Under(parent: seq<int>, x: nat, top: nat) {
    exists k: nat :: Up(parent, x, k) == top
  }

  /** The inodes, the root excepted, that are `top` or below it. */
  ghost function Subtree(t: Table, top: nat): set<nat>
    requires Sized(t)
  {
    set x: nat | x < INODES && x != 0 && Under(t.parent, x, top)
  }

  /** The table after the inodes in `d` have been taken out of the tree one by one. */
  ghost predicate Detached(t0: Table, t: Table, d: set<nat>) {
    && Sized(t0) && Sized(t)
    && (forall x: nat :: x < INODES ==> t.parent[x] == if x in d then -1 else t0.parent[x])
    && (forall x: nat :: x < INODES ==> t.name[x] == if x in d then [] else t0.name[x])
    && (forall x: nat :: x < INODES ==> t.child[x] == Without(t0.child[x], d))
    && (forall s: nat :: s < SLOTS ==> t.hash[s] == Without(t0.hash[s], d))
    && t.ref == t0.ref && t.dir == t0.dir && t.handle == t0.handle && t.depth == t0.depth && t.insensitive == t0.insensitive
  }

  /** del_one_dentry of a linked-in inode `x`. */
  function Deleted(t: Table, x: nat): (u: Table)
    requires Sized(t) && Linked(t, x) && 0 <= t.parent[x] < INODES
    ensures Sized(u)
  {
    var p := t.parent[x];
    var slot, left: seq<nat> := Slot(p, t.name[x], t.insensitive), Remove(t.child[p], x);
    t.(parent := t.parent[x := -1], name := t.name[x := []], child := t.child[p := left],
       hash := t.hash[slot := Remove(t.hash[slot], x)],
       free := if t.ref[p] == 0 && left == [] then (if t.parent[p] == -1 then [p] + t.free else t.free + [p]) else t.free)
  }

  lemma DeletedTree(t: Table, x: nat, but: int, y: nat)
    requires Good(t, but) && Linked(t, x) && y < INODES
    ensures 0 <= t.parent[x] < INODES && TreeOk(Deleted(t, x), y)
  {
    assert TreeOk(t, x) && TreeOk(t, y);
    var p := t.parent[x];
    assert TreeOk(t, p);
    RemoveDistinct(t.child[p], x);
  }

  lemma DeletedHash(t: Table, x: nat, but: int, y: nat)
    requires Good(t, but) && Linked(t, x) && y < INODES
    ensures 0 <= t.parent[x] < INODES && HashOk(Deleted(t, x), y)
  {
    assert TreeOk(t, x) && HashOk(t, x) && HashOk(t, y);
    var p := t.parent[x];
    var slot := Slot(p, t.name[x], t.insensitive);
    assert SlotOk(t, slot);
    RemoveDistinct(t.hash[slot], x);
  }

  lemma DeletedLife(t: Table, x: nat, but: int, y: nat)
    requires Good(t, but) && Linked(t, x) && y < INODES && y != but
    ensures 0 <= t.parent[x] < INODES && LifeOk(Deleted(t, x), y)
  {
    assert TreeOk(t, x) && LifeOk(t, y);
  }

  lemma DeletedGood(t: Table, x: nat, but: int)
    requires Good(t, but) && Linked(t, x)
    ensures 0 <= t.parent[x] < INODES && Good(Deleted(t, x), but)
  {
    assert TreeOk(t, x);
    var p, u := t.parent[x], Deleted(t, x);
    forall y: nat | y < INODES ensures TreeOk(u, y) && HashOk(u, y) && (y != but ==> LifeOk(u, y)) {
      DeletedTree(t, x, but, y);
      DeletedHash(t, x, but, y);
      if y != but { DeletedLife(t, x, but, y); }
    }
    assert p != but;
    assert LifeOk(t, p);
    AppendDistinct(t.free, p);
    forall s: nat | s < SLOTS ensures SlotOk(u, s) {
      assert SlotOk(t, s);
      RemoveDistinct(t.hash[s], x);
    }
  }

  lemma NothingDetached(t: Table)
    requires Sized(t)
    ensures Detached(t, t, {})
  {
    forall x: nat | x < INODES ensures Without(t.child[x], {}) == t.child[x] {
      WithoutNone(t.child[x], {});
    }
    forall s: nat | s < SLOTS ensures Without(t.hash[s], {}) == t.hash[s] {
      WithoutNone(t.hash[s], {});
    }
  }

  lemma DetachOne(t0: Table, t: Table, d: set<nat>, x: nat)
    requires Detached(t0, t, d) && Linked(t, x)
    requires 0 <= t.parent[x] < INODES
    requires forall y: nat :: y < INODES && x in t.child[y] ==> y == t.parent[x]
    requires forall s: nat :: s < SLOTS && x in t.hash[s] ==> s == Slot(t.parent[x], t.name[x], t.insensitive)
    requires forall y: nat :: y < INODES ==> Distinct(t0.child[y])
    requires forall s: nat :: s < SLOTS ==> Distinct(t0.hash[s])
    ensures Detached(t0, Deleted(t, x), d + {x})
  {
    var u := Deleted(t, x);
    forall y: nat | y < INODES ensures u.child[y] == Without(t0.child[y], d + {x}) {
      WithoutOne(t0.child[y], d, x);
    }
    forall s: nat | s < SLOTS ensures u.hash[s] == Without(t0.hash[s], d + {x}) {
      WithoutOne(t0.hash[s], d, x);
    }
  }

  // ---------------------------------------------------------------- the subtree

  /** A linked-in inode is below what its parent is below. */
  lemma UnderChild(t: Table, x: nat, top: nat)
    requires Sized(t) && Linked(t, x) && 0 <= t.parent[x] < INODES
    requires t.parent[x] == top || t.parent[x] in Subtree(t, top)
    ensures x in Subtree(t, top)
  {
    var p := t.parent[x];
    assert Up(t.parent, p, 0) == p;
    assert Under(t.parent, p, top);
    var k: nat :| Up(t.parent, p, k) == top;
    assert Up(t.parent, x, k + 1) == top;
  }

  /** Whatever holds `top` and, with an inode, its children, holds the subtree. */
  lemma {:induction false} SubtreeClosed(t: Table, top: nat, d: set<nat>, x: nat, k: nat)
    requires Sized(t) && t.parent[0] == 0 && x < INODES && x != 0 && top < INODES && Up(t.parent, x, k) == top
    requires forall y: nat :: Linked(t, y) ==> 0 <= t.parent[y] < INODES
    requires top == 0 || top in d
    requires forall y: nat :: Linked(t, y) && (t.parent[y] in d || t.parent[y] == top) ==> y in d
    ensures x in d
    decreases k
  {
    if k > 0 {
      var p := t.parent[x];
      UpNone(t.parent, k - 1);
      if p == 0 {
        assert Linked(t, x);
        UpRoot(t.parent, k - 1);
      } else if p != -1 {
        assert Linked(t, x);
        SubtreeClosed(t, top, d, p, k - 1);
      }
    }
  }

  lemma {:induction false} UpNone(parent: seq<int>, k: nat)
    ensures Up(parent, -1, k) == -1
  {
  }

  lemma {:induction false} UpRoot(parent: seq<int>, k: nat)
    requires |parent| > 0 && parent[0] == 0
    ensures Up(parent, 0, k) == 0
    decreases k
  {
    if k > 0 { UpRoot(parent, k - 1); }
  }

  lemma SubtreeIs(t: Table, top: nat, d: set<nat>)
    requires Sized(t) && t.parent[0] == 0 && top < INODES && d <= Subtree(t, top)
    requires forall y: nat :: Linked(t, y) ==> 0 <= t.parent[y] < INODES
    requires top == 0 || top in d
    requires forall y: nat :: Linked(t, y) && (t.parent[y] in d || t.parent[y] == top) ==> y in d
    ensures d == Subtree(t, top)
  {
    forall x | x in Subtree(t, top) ensures x in d {
      var k: nat :| Up(t.parent, x, k) == top;
      SubtreeClosed(t, top, d, x, k);
    }
  }

  // ---------------------------------------------------------------- del_dentry

  /** Taken out of its parent's list, and not yet deleted. */
  function Taken(t: Table, x: nat): (u: Table)
    requires Sized(t) && Linked(t, x) && 0 <= t.parent[x] < INODES
    ensures Sized(u)
  {
    var left: seq<nat> := Remove(t.child[t.parent[x]], x);
    t.(child := t.child[t.parent[x] := left])
  }

  lemma RemoveTwice(s: seq<nat>, x: nat)
    requires Distinct(s)
    ensures Remove(Remove(s, x), x) == Remove(s, x)
  {
    RemoveDistinct(s, x);
  }

  /** Between the steps of del_dentry for `top`: `d` has been deleted, and the children that deleted inodes still
      have are those of inodes on the work list. */
  ghost predicate Progress(t0: Table, t: Table, top: nat, d: set<nat>, work: seq<nat>) {
    && Sized(t0) && Detached(t0, t, d) && d <= Subtree(t0, top) && (top == 0 || top in d)
    && Distinct(work) && (forall w :: w in work ==> w < INODES && (w in d || w == top))
    && forall x: nat :: Linked(t0, x) && x !in d && (t0.parent[x] in d || t0.parent[x] == top) ==> OnList(work, t0.parent[x])
  }

  predicate OnList(work: seq<nat>, p: int) {
    p >= 0 && p in work
  }

  ghost predicate HaveChildren(t: Table, work: seq<nat>)
    requires Sized(t)
  {
    forall w :: w in work ==> w < INODES && t.child[w] != []
  }

  /** The next child to be deleted. */
  lemma NextChild(t0: Table, t: Table, top: nat, d: set<nat>, cur: nat, work: seq<nat>, y: nat, but: int)
    requires Good(t0, but) && Good(t, but) && Progress(t0, t, top, d, [cur] + work) && cur < INODES && y in t.child[cur]
    ensures Linked(t, y) && t.parent[y] == cur && y !in d && y !in [cur] + work && Linked(t0, y) && t0.parent[y] == cur
    ensures y in Subtree(t0, top) && Good(Deleted(t, y), but) && Detached(t0, Deleted(t, y), d + {y})
  {
    assert TreeOk(t, cur) && TreeOk(t0, cur);
    assert y in t0.child[cur] && y !in d;
    DeletedGood(t, y, but);
    DeletedDetached(t0, t, d, y, but);
    assert cur in [cur] + work;
    UnderChild(t0, y, top);
  }

  /** What waits still does, and if the deleted child has children they wait now. */
  lemma StillWaiting(t0: Table, u: Table, top: nat, d: set<nat>, cur: nat, work: seq<nat>, y: nat, list: seq<nat>, but: int, x: nat)
    requires Good(t0, but) && Sized(u) && Detached(t0, u, d + {y}) && y < INODES && Linked(t0, x) && x !in d + {y}
    requires list == if u.child[y] != [] then [y] + work else work
    requires t0.parent[x] == y || OnList([cur] + work, t0.parent[x])
    ensures OnList([cur] + list, t0.parent[x])
  {
    assert TreeOk(t0, x);
    assert x in u.child[t0.parent[x]];
  }

  lemma DeletedProgress(t0: Table, t: Table, top: nat, d: set<nat>, cur: nat, work: seq<nat>, y: nat, list: seq<nat>, but: int)
    requires Good(t0, but) && Good(t, but) && Progress(t0, t, top, d, [cur] + work) && cur < INODES && y in t.child[cur]
    requires Linked(t, y) && t.parent[y] == cur && list == if Deleted(t, y).child[y] != [] then [y] + work else work
    ensures Progress(t0, Deleted(t, y), top, d + {y}, [cur] + list)
  {
    NextChild(t0, t, top, d, cur, work, y, but);
    forall x: nat | Linked(t0, x) && x !in d + {y} && (t0.parent[x] in d + {y} || t0.parent[x] == top)
      ensures OnList([cur] + list, t0.parent[x])
    {
      StillWaiting(t0, Deleted(t, y), top, d, cur, work, y, list, but, x);
    }
    PushDistinct(cur, work, y);
    forall w | w in [cur] + list ensures w < INODES && (w in d + {y} || w == top) {
      assert w == y || w in [cur] + work;
    }
  }

  lemma PushDistinct(cur: nat, work: seq<nat>, y: nat)
    requires Distinct([cur] + work) && y !in [cur] + work
    ensures Distinct([cur] + ([y] + work)) && Distinct([cur] + work)
  {
    var s := [cur] + work;
    var r := [cur] + ([y] + work);
    forall i, j | 0 <= i < j < |r| ensures r[i] != r[j] {
      assert r[j] == if j == 1 then y else s[j - 1];
      assert r[i] == if i == 0 then s[0] else if i == 1 then y else s[i - 1];
    }
  }

  lemma StillHaveChildren(t: Table, cur: nat, work: seq<nat>, y: nat)
    requires Sized(t) && Linked(t, y) && t.parent[y] == cur && cur < INODES && Distinct([cur] + work) && HaveChildren(t, work)
    ensures HaveChildren(Deleted(t, y), work)
    ensures Deleted(t, y).child[y] != [] ==> HaveChildren(Deleted(t, y), [y] + work)
  {
    forall w | w in work ensures w != cur {
      var i :| 0 <= i < |work| && work[i] == w;
      assert ([cur] + work)[i + 1] == w && ([cur] + work)[0] == cur;
    }
  }

  lemma DeletedDetached(t0: Table, t: Table, d: set<nat>, y: nat, but: int)
    requires Good(t0, but) && Good(t, but) && Detached(t0, t, d) && Linked(t, y)
    ensures 0 <= t.parent[y] < INODES && Detached(t0, Deleted(t, y), d + {y})
  {
    assert TreeOk(t, y) && HashOk(t, y);
    forall z: nat | z < INODES ensures Distinct(t0.child[z]) && (y in t.child[z] ==> z == t.parent[y]) {
      assert TreeOk(t0, z) && TreeOk(t, z);
    }
    forall s: nat | s < SLOTS ensures Distinct(t0.hash[s]) {
      assert SlotOk(t0, s);
    }
    DetachOne(t0, t, d, y);
  }

  /** One step of the inner loop of del_dentry, whatever child it deletes. */
  lemma ChildStep(t0: Table, t: Table, top: nat, d: set<nat>, cur: nat, work: seq<nat>, y: nat, but: int)
    requires Good(t0, but) && Good(t, but) && Progress(t0, t, top, d, [cur] + work) && HaveChildren(t, work)
    requires cur < INODES && y in t.child[cur]
    ensures Linked(t, y) && t.parent[y] == cur && y !in d && y in Subtree(t0, top)
    ensures Good(Deleted(t, y), but)
    ensures Deleted(t, y).child[y] == [] ==> Progress(t0, Deleted(t, y), top, d + {y}, [cur] + work)
    ensures Deleted(t, y).child[y] != [] ==> Progress(t0, Deleted(t, y), top, d + {y}, [cur] + ([y] + work))
    ensures HaveChildren(Deleted(t, y), work)
    ensures Deleted(t, y).child[y] != [] ==> HaveChildren(Deleted(t, y), [y] + work)
  {
    NextChild(t0, t, top, d, cur, work, y, but);
    DeletedProgress(t0, t, top, d, cur, work, y, if Deleted(t, y).child[y] != [] then [y] + work else work, but);
    StillHaveChildren(t, cur, work, y);
  }

  lemma PopWork(t0: Table, t: Table, top: nat, d: set<nat>, work: seq<nat>)
    requires Progress(t0, t, top, d, work) && HaveChildren(t, work) && work != []
    ensures work[0] < INODES && t.child[work[0]] != [] && HaveChildren(t, work[1..])
    ensures Progress(t0, t, top, d, [work[0]] + work[1..])
  {
    assert work[0] in work;
    assert work == [work[0]] + work[1..];
    forall w | w in work[1..] ensures w in work {
    }
  }

  /** An inode whose children are all deleted leaves the work list. */
  lemma ChildrenDone(t0: Table, t: Table, top: nat, d: set<nat>, cur: nat, work: seq<nat>, but: int)
    requires Good(t0, but) && Progress(t0, t, top, d, [cur] + work) && cur < INODES && t.child[cur] == []
    ensures Progress(t0, t, top, d, work)
  {
    forall w | w in work ensures w in [cur] + work {
    }
    assert work == ([cur] + work)[1..];
    forall x: nat | Linked(t0, x) && x !in d && (t0.parent[x] in d || t0.parent[x] == top)
      ensures OnList(work, t0.parent[x])
    {
      assert OnList([cur] + work, t0.parent[x]);
      assert TreeOk(t0, x);
      assert x in t.child[t0.parent[x]];
    }
  }

  lemma AllDeleted(t0: Table, t: Table, top: nat, d: set<nat>, but: int)
    requires Good(t0, but) && Progress(t0, t, top, d, []) && top < INODES
    ensures Detached(t0, t, Subtree(t0, top))
  {
    forall y: nat | Linked(t0, y) ensures 0 <= t0.parent[y] < INODES {
      assert TreeOk(t0, y);
    }
    forall y: nat | Linked(t0, y) && (t0.parent[y] in d || t0.parent[y] == top) ensures y in d {
      assert y !in d ==> OnList([], t0.parent[y]);
    }
    SubtreeIs(t0, top, d);
  }

  /** del_dentry has deleted the inode that it was called for. */
  lemma FirstDeleted(t0: Table, top: nat, but: int)
    requires Good(t0, but) && top < INODES && (top == 0 || Linked(t0, top))
    ensures top == 0 ==> Progress(t0, t0, top, {}, [top])
    ensures top != 0 ==>
      && 0 <= t0.parent[top] < INODES && Good(Deleted(t0, top), but)
      && Progress(t0, Deleted(t0, top), top, {top}, [top])
  {
    NothingDetached(t0);
    if top != 0 {
      DeletedGood(t0, top, but);
      DeletedDetached(t0, t0, {}, top, but);
      assert {} + {top} == {top};
      assert Up(t0.parent, top, 0) == top;
    }
  }

  /** The inode has no parent, no children and no entry in the hash. */
  ghost predicate Alone(t: Table, x: nat)
    requires Sized(t) && x < INODES
  {
    t.parent[x] == -1 && t.child[x] == [] && forall s: nat :: s < SLOTS ==> x !in t.hash[s]
  }

  /** What is below `top` is no less deep. */
  lemma {:induction false} Deeper(t: Table, x: nat, top: nat, k: nat, but: int)
    requires Good(t, but) && x < INODES && x != 0 && top < INODES && top != 0 && Up(t.parent, x, k) == top
    ensures t.depth[x] >= t.depth[top]
    decreases k
  {
    if k > 0 {
      assert TreeOk(t, x);
      UpNone(t.parent, k - 1);
      UpRoot(t.parent, k - 1);
      if t.parent[x] > 0 {
        Deeper(t, t.parent[x], top, k - 1, but);
      }
    }
  }

  lemma ParentOutside(t: Table, top: nat, but: int)
    requires Good(t, but) && Linked(t, top)
    ensures 0 <= t.parent[top] < INODES && t.parent[top] !in Subtree(t, top)
  {
    assert TreeOk(t, top);
    var p := t.parent[top];
    if p in Subtree(t, top) {
      var k: nat :| Up(t.parent, p, k) == top;
      Deeper(t, p, top, k, but);
    }
  }

  /** The only child that an inode outside the subtree loses is `top`. */
  lemma OnlyTop(t: Table, top: nat, x: nat, y: nat, but: int)
    requires Good(t, but) && Linked(t, top) && x < INODES && x !in Subtree(t, top) && y in t.child[x]
    ensures y in Subtree(t, top) <==> y == top
  {
    assert TreeOk(t, x);
    assert Up(t.parent, top, 0) == top;
    if y in Subtree(t, top) {
      var k: nat :| Up(t.parent, y, k) == top;
      if k > 0 {
        UpRoot(t.parent, k - 1);
        assert Up(t.parent, x, k - 1) == top;
        assert Under(t.parent, x, top);
      }
    }
  }

  lemma InsideAlone(t0: Table, t: Table, top: nat, but: int, x: nat)
    requires Good(t0, but) && Good(t, but) && Detached(t0, t, Subtree(t0, top)) && x in Subtree(t0, top)
    ensures Alone(t, x) && (x != but ==> (x in t.free <==> t.ref[x] == 0))
  {
    var d := Subtree(t0, top);
    assert TreeOk(t0, x) && HashOk(t, x) && (x != but ==> LifeOk(t, x));
    forall y | y in t0.child[x] ensures y in d {
      UnderChild(t0, y, top);
    }
    WithoutAll(t0.child[x], d);
  }

  /** del_dentry leaves no inode with children and without a parent. */
  lemma SettledAgain(t0: Table, t: Table, top: nat, but: int)
    requires Good(t0, but) && Good(t, but) && Detached(t0, t, Subtree(t0, top)) && Settled(t0.parent, t0.child)
    ensures Settled(t.parent, t.child)
  {
    forall x: nat | x < INODES ensures Placed(t.parent, t.child, x) {
      assert Placed(t0.parent, t0.child, x);
      if x in Subtree(t0, top) {
        InsideAlone(t0, t, top, but, x);
      } else if t.child[x] != [] {
        assert t.child[x][0] in t.child[x] && t0.child[x] != [];
      }
    }
  }

  lemma OutsideSame(t0: Table, t: Table, top: nat, but: int, x: nat)
    requires Good(t0, but) && Good(t, but) && Linked(t0, top) && Detached(t0, t, Subtree(t0, top))
    requires x < INODES && x !in Subtree(t0, top)
    ensures t.parent[x] == t0.parent[x] && t.name[x] == t0.name[x]
    ensures t.child[x] == if x == t0.parent[top] then Remove(t0.child[x], top) else t0.child[x]
    ensures x != t0.parent[top] ==> (x in t.free <==> x in t0.free)
  {
    var d := Subtree(t0, top);
    forall y | y in t0.child[x] ensures y in d <==> y in {top} {
      OnlyTop(t0, top, x, y, but);
    }
    assert TreeOk(t0, x) && TreeOk(t0, top);
    WithoutSame(t0.child[x], d, {top});
    assert {} + {top} == {top};
    WithoutOne(t0.child[x], {}, top);
    WithoutNone(t0.child[x], {});
    assert x != but ==> LifeOk(t, x) && LifeOk(t0, x);
  }

  /** del_dentry of a linked-in inode fragments exactly its subtree: every inode of it is alone, and is on the free
      list iff VFS does not refer to it; the rest of the tree is as it was, but that the old parent has lost one
      child and may have come on the free list. */
  lemma Fragmented(t0: Table, t: Table, top: nat, but: int)
    requires Good(t0, but) && Good(t, but) && Linked(t0, top) && Detached(t0, t, Subtree(t0, top))
    ensures top in Subtree(t0, top) && 0 <= t0.parent[top] < INODES && t0.parent[top] !in Subtree(t0, top)
    ensures forall x: nat :: x in Subtree(t0, top) ==> Alone(t, x) && (x != but ==> (x in t.free <==> t.ref[x] == 0))
    ensures forall x: nat :: x < INODES && x !in Subtree(t0, top) ==> t.parent[x] == t0.parent[x] && t.name[x] == t0.name[x]
    ensures forall x: nat :: x < INODES && x !in Subtree(t0, top) ==>
      t.child[x] == if x == t0.parent[top] then Remove(t0.child[x], top) else t0.child[x]
    ensures forall x: nat :: x < INODES && x !in Subtree(t0, top) && x != t0.parent[top] ==> (x in t.free <==> x in t0.free)
  {
    assert Up(t0.parent, top, 0) == top;
    ParentOutside(t0, top, but);
    forall x: nat | x in Subtree(t0, top) ensures Alone(t, x) && (x != but ==> (x in t.free <==> t.ref[x] == 0)) {
      InsideAlone(t0, t, top, but, x);
    }
    forall x: nat | x < INODES && x !in Subtree(t0, top)
      ensures t.parent[x] == t0.parent[x] && t.name[x] == t0.name[x]
      ensures t.child[x] == if x == t0.parent[top] then Remove(t0.child[x], top) else t0.child[x]
      ensures x != t0.parent[top] ==> (x in t.free <==> x in t0.free)
    {
      OutsideSame(t0, t, top, but, x);
    }
  }

  lemma {:induction false} WithoutAll(s: seq<nat>, d: set<nat>)
    requires forall x :: x in s ==> x in d
    ensures Without(s, d) == []
  {
    if s != [] { WithoutAll(s[1..], d); }
  }

  lemma {:induction false} WithoutSame(s: seq<nat>, d: set<nat>, e: set<nat>)
    requires forall x :: x in s ==> (x in d <==> x in e)
    ensures Without(s, d) == Without(s, e)
  {
    if s != [] { WithoutSame(s[1..], d, e); }
  }

  // ---------------------------------------------------------------- the other steps

  /** get_inode. */
  function Gotten(t: Table, x: nat): (u: Table)
    requires Sized(t) && x < INODES
    ensures Sized(u)
  {
    t.(ref := t.ref[x := t.ref[x] + 1], free := if Referenced(t, x) then t.free else Remove(t.free, x))
  }

  lemma GottenGood(t: Table, x: nat)
    requires Good(t, -1) && x < INODES
    ensures Good(Gotten(t, x), -1)
  {
    RemoveDistinct(t.free, x);
    var u := Gotten(t, x);
    forall y: nat | y < INODES ensures TreeOk(u, y) && HashOk(u, y) && LifeOk(u, y) {
      assert TreeOk(t, y) && HashOk(t, y) && LifeOk(t, y);
    }
    forall s: nat | s < SLOTS ensures SlotOk(u, s) {
      assert SlotOk(t, s);
    }
  }

  /** put_inode for an inode to which VFS refers `count` times, of which all but one have been taken back. */
  function Put(t: Table, x: nat): (u: Table)
    requires Sized(t) && x < INODES && t.ref[x] > 0
    ensures Sized(u)
  {
    var u := t.(ref := t.ref[x := t.ref[x] - 1]);
    if u.ref[x] > 0 then u
    else
      u.(handle := u.handle[x := false],
         free := if u.child[x] != [] then u.free else if u.parent[x] == -1 then [x] + u.free else u.free + [x])
  }

  lemma PutGood(t: Table, x: nat)
    requires Good(t, -1) && x < INODES && t.ref[x] > 0
    ensures Good(Put(t, x), -1)
  {
    assert LifeOk(t, x);
    AppendDistinct(t.free, x);
    var u := Put(t, x);
    forall y: nat | y < INODES ensures TreeOk(u, y) && HashOk(u, y) && LifeOk(u, y) {
      assert TreeOk(t, y) && HashOk(t, y) && LifeOk(t, y);
    }
    forall s: nat | s < SLOTS ensures SlotOk(u, s) {
      assert SlotOk(t, s);
    }
  }

  /** A look-up and the return of its reference undo one another: references, handles, the tree and the hash are as
      before, and the same inodes are free. */
  lemma GetThenPut(t: Table, x: nat)
    requires Good(t, -1) && x < INODES
    ensures var u := Put(Gotten(t, x), x);
      && u == t.(free := u.free) && (forall y :: y in u.free <==> y in t.free)
      && (Referenced(t, x) ==> u == t)
  {
    assert LifeOk(t, x);
    RemoveDistinct(t.free, x);
    assert t.ref[x := t.ref[x] + 1][x := t.ref[x]] == t.ref;
    assert t.ref[x] == 0 ==> t.handle[x := false] == t.handle;
  }

  // ---------------------------------------------------------------- references over whole runs

  /** What happens to references: a look-up gives one, VFS takes some back, get_free_inode gives the first one to an inode
      that has none, and everything else leaves them alone. */
  datatype Op = Look(x: nat) | Forget(x: nat, count: int) | Fresh(x: nat) | Elsewhere

  ghost predicate Stepped(t: Table, op: Op, u: Table) {
    && Sized(t) && Sized(u)
    && match op
       case Look(x) => x < INODES && u == Gotten(t, x)
       case Forget(x, count) =>
         x < INODES && u == if 0 < count <= t.ref[x] then Put(Lowered(t, x, count - 1), x) else t
       case Fresh(x) => x < INODES && t.ref[x] == 0 && u.ref == t.ref[x := 1]
       case Elsewhere => u.ref == t.ref
  }

  ghost predicate Steps(ts: seq<Table>, ops: seq<Op>) {
    |ts| == |ops| + 1 && Sized(ts[0]) && forall i :: 0 <= i < |ops| ==> Stepped(ts[i], ops[i], ts[i + 1])
  }

  /** How many references to `x` the first `n` operations have given. */
  function Given(ops: seq<Op>, n: nat, x: nat): nat
    requires n <= |ops|
  {
    if n == 0 then 0
    else Given(ops, n - 1, x) + if ops[n - 1] == Look(x) || ops[n - 1] == Fresh(x) then 1 else 0
  }

  /** How many they have taken back; a request for more than there are is refused. */
  ghost function TakenBack(ts: seq<Table>, ops: seq<Op>, n: nat, x: nat): nat
    requires n <= |ops| && Steps(ts, ops) && x < INODES
  {
    if n == 0 then 0
    else
      var op := ops[n - 1];
      assert Stepped(ts[n - 1], op, ts[n]);
      TakenBack(ts, ops, n - 1, x) + if op.Forget? && op.x == x && 0 < op.count <= ts[n - 1].ref[x] then op.count else 0
  }

  /** An inode has the references that were given and not taken back, whatever else happens between. */
  lemma {:induction false} ReferencesBalance(ts: seq<Table>, ops: seq<Op>, n: nat, x: nat)
    requires n <= |ops| && Steps(ts, ops) && x < INODES
    ensures Sized(ts[n]) && ts[n].ref[x] + TakenBack(ts, ops, n, x) == ts[0].ref[x] + Given(ops, n, x)
  {
    if n > 0 {
      ReferencesBalance(ts, ops, n - 1, x);
      assert Stepped(ts[n - 1], ops[n - 1], ts[n]);
    }
  }

  /** So an inode that had none is free, in a right table, exactly when all that were given have been taken back and it
      has no children. */
  lemma FreeWhenAllBack(ts: seq<Table>, ops: seq<Op>, n: nat, x: nat)
    requires n <= |ops| && Steps(ts, ops) && x < INODES && ts[0].ref[x] == 0 && Good(ts[n], -1)
    ensures x in ts[n].free <==> Given(ops, n, x) == TakenBack(ts, ops, n, x) && ts[n].child[x] == []
  {
    ReferencesBalance(ts, ops, n, x);
    assert LifeOk(ts[n], x);
  }

  /** add_dentry. */
  function Added(t: Table, p: nat, name: Name, x: nat): (u: Table)
    requires Sized(t) && p < INODES && x < INODES
    ensures Sized(u)
  {
    var slot := Slot(p, name, t.insensitive);
    t.(parent := t.parent[x := p], child := t.child[p := [x] + t.child[p]], name := t.name[x := name],
       hash := t.hash[slot := [x] + t.hash[slot]], depth := t.depth[x := t.depth[p] + 1])
  }

  lemma AddedGood(t: Table, p: nat, name: Name, x: nat)
    requires Good(t, -1) && p < INODES && x < INODES && p != x && x != 0 && t.dir[p] && t.ref[p] > 0 && t.ref[x] > 0
    requires t.parent[x] == -1 && t.child[x] == []
    ensures Good(Added(t, p, name, x), -1)
  {
    var u := Added(t, p, name, x);
    assert TreeOk(t, p) && HashOk(t, x);
    assert x !in t.child[p];
    AppendDistinct(t.child[p], x);
    forall y: nat | y < INODES ensures TreeOk(u, y) {
      assert TreeOk(t, y);
    }
    forall y: nat | y < INODES ensures HashOk(u, y) && LifeOk(u, y) {
      assert HashOk(t, y) && LifeOk(t, y);
    }
    forall s: nat | s < SLOTS ensures SlotOk(u, s) {
      assert SlotOk(t, s);
      AppendDistinct(t.hash[s], x);
    }
  }

  /** get_free_inode: the first inode of the free list, deleted if it was cached. */
  lemma TakenFree(t: Table, x: nat)
    requires Good(t, -1) && t.free != [] && t.free[0] == x && t.ref[0] > 0
    ensures x < INODES && x != 0 && Good(t.(free := t.free[1..]), x) && t.child[x] == [] && t.ref[x] == 0
    ensures Subtree(t, x) == {x}
  {
    assert x in t.free;
    assert LifeOk(t, x) && LifeOk(t, 0);
    var u := t.(free := t.free[1..]);
    assert t.free == [x] + u.free;
    forall y | y in u.free ensures y in t.free && y != x {
    }
    forall y: nat | y < INODES ensures TreeOk(u, y) && HashOk(u, y) && (y != x ==> LifeOk(u, y)) {
      assert TreeOk(t, y) && HashOk(t, y) && LifeOk(t, y);
    }
    forall s: nat | s < SLOTS ensures SlotOk(u, s) {
      assert SlotOk(t, s);
    }
    assert Up(t.parent, x, 0) == x;
    forall y: nat | y < INODES && y != 0 ensures y in Subtree(t, x) ==> y == x {
      if y in Subtree(t, x) {
        var k: nat :| Up(t.parent, y, k) == x;
        LeafOnly(t, x, y, k);
      }
    }
  }

  lemma {:induction false} LeafOnly(t: Table, x: nat, y: nat, k: nat)
    requires Good(t, -1) && x < INODES && t.child[x] == [] && x != 0 && y < INODES && y != 0 && Up(t.parent, y, k) == x
    ensures y == x
    decreases k
  {
    if k > 0 {
      assert TreeOk(t, y);
      UpNone(t.parent, k - 1);
      UpRoot(t.parent, k - 1);
      if t.parent[y] > 0 {
        assert y in t.child[t.parent[y]];
        LeafOnly(t, x, t.parent[y], k - 1);
      }
    }
  }

  /** What get_free_inode leaves. */
  lemma Refreshed(t: Table, x: nat)
    requires Good(t, x) && x < INODES && x != 0 && t.parent[x] == -1
    ensures Good(t.(ref := t.ref[x := 1]), -1)
  {
    var u := t.(ref := t.ref[x := 1]);
    forall y: nat | y < INODES ensures TreeOk(u, y) && HashOk(u, y) && LifeOk(u, y) {
      assert TreeOk(t, y) && HashOk(t, y) && (y != x ==> LifeOk(t, y));
    }
    forall s: nat | s < SLOTS ensures SlotOk(u, s) {
      assert SlotOk(t, s);
    }
  }

  /** An inode found by its name in the slot of a directory is in that directory. */
  lemma FoundThere(t: Table, p: nat, name: Name, x: nat)
    requires Good(t, -1) && p < INODES && x in t.hash[Slot(p, name, t.insensitive)]
    requires x < INODES && !Differ(t.name[x], name, t.insensitive)
    ensures t.parent[x] == p && x in t.child[p]
  {
    assert HashOk(t, x) && TreeOk(t, x);
    if t.parent[x] != p {
      SlotsApart(t.parent[x], p, t.name[x], name, t.insensitive);
    }
  }

  /** And an inode in the directory with such a name is in that slot. */
  lemma InThatSlot(t: Table, p: nat, name: Name, x: nat)
    requires Good(t, -1) && p < INODES && x in t.child[p] && x < INODES && !Differ(t.name[x], name, t.insensitive)
    ensures x in t.hash[Slot(p, name, t.insensitive)]
  {
    assert TreeOk(t, p) && HashOk(t, x);
    SlotsSame(p, t.name[x], name, t.insensitive);
  }

  /** The table with `k` references to an inode less, one being left. */
  function Lowered(t: Table, x: nat, k: nat): (u: Table)
    requires Sized(t) && x < INODES && k < t.ref[x]
    ensures Sized(u) && u.ref[x] > 0
  {
    t.(ref := t.ref[x := t.ref[x] - k])
  }

  lemma FewerGood(t: Table, x: nat, k: nat)
    requires Good(t, -1) && x < INODES && k < t.ref[x]
    ensures Good(Lowered(t, x, k), -1)
  {
    var u := t.(ref := t.ref[x := t.ref[x] - k]);
    forall y: nat | y < INODES ensures TreeOk(u, y) && HashOk(u, y) && LifeOk(u, y) {
      assert TreeOk(t, y) && HashOk(t, y) && LifeOk(t, y);
    }
    forall s: nat | s < SLOTS ensures SlotOk(u, s) {
      assert SlotOk(t, s);
    }
  }

  lemma OpenGood(t: Table, x: nat)
    requires Good(t, -1) && x < INODES && t.ref[x] > 0
    ensures Good(t.(handle := t.handle[x := true]), -1)
  {
    var u := t.(handle := t.handle[x := true]);
    forall y: nat | y < INODES ensures TreeOk(u, y) && HashOk(u, y) && LifeOk(u, y) {
      assert TreeOk(t, y) && HashOk(t, y) && LifeOk(t, y);
    }
    forall s: nat | s < SLOTS ensures SlotOk(u, s) {
      assert SlotOk(t, s);
    }
  }

  /** A new inode is marked as a directory or as something else, and as open or not. */
  lemma MarkedGood(t: Table, x: nat, isDir: bool, open: bool)
    requires Good(t, -1) && x < INODES && t.child[x] == [] && t.ref[x] > 0
    ensures Good(t.(dir := t.dir[x := isDir], handle := t.handle[x := open]), -1)
  {
    var u := t.(dir := t.dir[x := isDir], handle := t.handle[x := open]);
    forall y: nat | y < INODES ensures TreeOk(u, y) && HashOk(u, y) && LifeOk(u, y) {
      assert TreeOk(t, y) && HashOk(t, y) && LifeOk(t, y);
    }
    forall s: nat | s < SLOTS ensures SlotOk(u, s) {
      assert SlotOk(t, s);
    }
  }

  lemma AddedSettled(t: Table, p: nat, name: Name, x: nat)
    requires Sized(t) && Settled(t.parent, t.child) && p < INODES && x < INODES && p != x && t.parent[p] != -1
    ensures Settled(Added(t, p, name, x).parent, Added(t, p, name, x).child)
  {
    var u := Added(t, p, name, x);
    forall y: nat | y < INODES ensures Placed(u.parent, u.child, y) {
      assert Placed(t.parent, t.child, y);
    }
  }
}
