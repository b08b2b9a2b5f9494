/** The inode and dentry cache of the hgfs server, as it is changed in place. */
module InodeTable {
  import opened Lists
  import opened Names
  import opened DentryTree

  class Inodes {
    const insensitive: bool      // opt.case_insens
    var parent: seq<int>         // i_parent, -1 for NULL
    var child: seq<seq<nat>>     // i_child
    var ref: seq<nat>            // i_ref
    var gen: seq<nat>            // i_gen
    var dir: seq<bool>           // I_DIR
    var handle: seq<bool>        // I_HANDLE
    var name: seq<Name>          // i_name
    var hash: seq<seq<nat>>      // hash_table
    var free: seq<nat>           // free_list
    ghost var depth: seq<nat>

    ghost function State(): Table
      reads this
    {
      Table(parent, child, ref, dir, handle, name, hash, free, depth, insensitive)
    }

    ghost predicate Valid()
      reads this
    {
      Good(State(), -1) && |gen| == INODES && forall x :: 0 <= x < INODES ==> gen[x] < 65536
    }

    /** unlink_inode. The inode may have been taken out of its parent's list already. */
    method UnlinkInode(ino: nat)
      requires Sized(State()) && Linked(State(), ino) && 0 <= parent[ino] < INODES
      modifies `parent, `child, `free
      ensures child == old(child)[old(parent)[ino] := Remove(old(child)[old(parent)[ino]], ino)]
      ensures parent == old(parent)[ino := -1]
      ensures var p := old(parent)[ino];
        free == if ref[p] == 0 && child[p] == [] then (if old(parent)[p] == -1 then [p] + old(free) else old(free) + [p]) else old(free)
    {
      var p := parent[ino];
      child := child[p := Remove(child[p], ino)];
      if ref[p] == 0 && child[p] == [] {
        if parent[p] == -1 {
          free := [p] + free;
        } else {
          free := free + [p];
        }
      }
      parent := parent[ino := -1];
    }

    /** del_one_dentry. `t` is the table with the inode still in its parent's list, out of which del_dentry has
        taken it already when it is not the inode that del_dentry was called for. */
    method DelOneDentry(ino: nat, ghost t: Table, ghost but: int)
      requires Good(t, but) && ino < INODES && (ino == 0 || Linked(t, ino))
      requires State() == t || (ino != 0 && 0 <= t.parent[ino] < INODES && State() == Taken(t, ino))
      modifies `parent, `child, `name, `hash, `free
      ensures ino == 0 ==> State() == old(State())
      ensures ino != 0 ==> 0 <= t.parent[ino] < INODES && State() == Deleted(t, ino)
    {
      if ino == 0 {
        return;
      }
      assert TreeOk(t, ino);
      assert TreeOk(t, t.parent[ino]);
      RemoveTwice(t.child[t.parent[ino]], ino);
      var slot := Slot(parent[ino], name[ino], insensitive);
      hash := hash[slot := Remove(hash[slot], ino)];
      name := name[ino := []];
      UnlinkInode(ino);
      assert child == t.child[t.parent[ino] := Remove(t.child[t.parent[ino]], ino)];
    }

    method DelChild(y: nat, ghost but: int)
      requires Good(State(), but) && Linked(State(), y) && 0 <= parent[y] < INODES
      modifies `parent, `child, `name, `hash, `free
      ensures State() == Deleted(old(State()), y)
    {
      ghost var t := State();
      child := child[parent[y] := Remove(child[parent[y]], y)];
      DelOneDentry(y, t, but);
    }

    /** The inner loop of del_dentry: the children of `cur` are deleted, and those that have children themselves are
        put on the work list. */
    method DelChildren(cur: nat, work0: seq<nat>, ghost t0: Table, ghost top: nat, ghost d0: set<nat>, ghost but: int)
      returns (work: seq<nat>, ghost d: set<nat>)
      requires Good(t0, but) && Good(State(), but) && Progress(t0, State(), top, d0, [cur] + work0) && cur < INODES
      requires HaveChildren(State(), work0)
      modifies `parent, `child, `name, `hash, `free
      ensures Good(State(), but) && Progress(t0, State(), top, d, [cur] + work) && HaveChildren(State(), work)
      ensures child[cur] == [] && d0 <= d && (old(child[cur]) != [] ==> d0 != d)
    {
      work, d := work0, d0;
      while child[cur] != []
        invariant Good(State(), but) && Progress(t0, State(), top, d, [cur] + work) && HaveChildren(State(), work)
        invariant d0 <= d && (d0 == d ==> child[cur] == old(child[cur]))
        decreases Subtree(t0, top) - d
      {
        var y := child[cur][0];
        ChildStep(t0, State(), top, d, cur, work, y, but);
        DelChild(y, but);
        d := d + {y};
        if child[y] != [] {
          work := [y] + work;
        }
      }
    }

    /** The outer loop of del_dentry. */
    method DelAll(ino: nat, ghost t0: Table, ghost d0: set<nat>, ghost but: int)
      requires Good(t0, but) && Good(State(), but) && ino < INODES && child[ino] != []
      requires Progress(t0, State(), ino, d0, [ino])
      modifies `parent, `child, `name, `hash, `free
      ensures Good(State(), but) && Detached(t0, State(), Subtree(t0, ino))
    {
      var work: seq<nat> := [ino];
      ghost var d := d0;
      while work != []
        invariant Good(State(), but) && Progress(t0, State(), ino, d, work) && HaveChildren(State(), work)
        decreases Subtree(t0, ino) - d
      {
        PopWork(t0, State(), ino, d, work);
        var cur := work[0];
        work, d := DelChildren(cur, work[1..], t0, ino, d, but);
        ChildrenDone(t0, State(), ino, d, cur, work, but);
      }
      AllDeleted(t0, State(), ino, d, but);
    }

    /** del_dentry. Nothing but the tree, the names, the hash and the free list changes. */
    method DelDentry(ino: nat, ghost but: int)
      requires Good(State(), but) && ino < INODES && (ino == 0 || Linked(State(), ino))
      modifies `parent, `child, `name, `hash, `free
      ensures Good(State(), but) && Detached(old(State()), State(), Subtree(old(State()), ino))
      ensures old(Settled(parent, child)) ==> Settled(parent, child)
    {
      ghost var t0 := State();
      ghost var d := if ino == 0 then {} else {ino};
      FirstDeleted(t0, ino, but);
      DelOneDentry(ino, t0, but);
      if child[ino] == [] {
        ChildrenDone(t0, State(), ino, d, ino, [], but);
        AllDeleted(t0, State(), ino, d, but);
      } else {
        DelAll(ino, t0, d, but);
      }
      if Settled(t0.parent, t0.child) {
        SettledAgain(t0, State(), ino, but);
      }
    }

    /** init_inode and init_dentry: the root has a reference, the other inodes are free. */
    constructor (insensitive: bool)
      ensures this.insensitive == insensitive && Valid() && Settled(parent, child) && ref[0] == 1
      ensures forall x: nat :: 0 < x < INODES ==> parent[x] == -1 && x in free
    {
      this.insensitive := insensitive;
      parent := seq(INODES, i => if i == 0 then 0 else -1);
      child := seq(INODES, _ => []);
      ref := seq(INODES, i => if i == 0 then 1 else 0);
      gen := seq(INODES, i => if i == 0 then 0 else 65535);
      dir := seq(INODES, i => i == 0);
      handle := seq(INODES, _ => false);
      name := seq(INODES, _ => []);
      hash := seq(SLOTS, _ => []);
      free := seq(INODES - 1, i requires 0 <= i => i + 1);
      depth := seq(INODES, _ => 0);
      new;
      forall x: nat | 0 < x < INODES ensures x in free {
        assert free[x - 1] == x;
      }
      assert forall s: nat :: s < SLOTS ==> SlotOk(State(), s);
    }

    /** find_inode, without the message for an inode that VFS should not know. */
    method FindInode(nr: nat) returns (ino: int)
      requires Valid()
      ensures ino == -1 || (0 <= ino < INODES && nr % 256 == ino + 1 && nr / 256 % 65536 == gen[ino])
      ensures forall i: nat :: i < INODES && nr == Number(i) ==> ino == i
    {
      var index := nr % 256 - 1;
      if index < 0 || nr / 256 % 65536 != gen[index] {
        ino := -1;
      } else {
        ino := index;
      }
      forall i: nat | i < INODES && nr == Number(i) ensures ino == i {
        assert nr % 256 == i + 1 && nr / 256 == gen[i];
      }
    }

    /** INODE_NR. */
    ghost function Number(i: nat): nat
      reads `gen
      requires i < |gen|
    {
      gen[i] * 256 + i + 1
    }

    method GetInode(ino: nat)
      requires Valid() && ino < INODES
      modifies `ref, `free
      ensures Valid() && State() == Gotten(old(State()), ino)
      ensures ref == old(ref)[ino := old(ref)[ino] + 1] && OffList(old(free), free, ino)
    {
      assert LifeOk(State(), ino);
      RemoveDistinct(free, ino);
      GottenGood(State(), ino);
      if ref[ino] == 0 && child[ino] == [] {
        free := Remove(free, ino);
      }
      ref := ref[ino := ref[ino] + 1];
    }

    method PutHandle(ino: nat)
      requires |handle| == INODES && ino < INODES
      modifies `handle
      ensures handle == old(handle)[ino := false]
    {
      if !handle[ino] {
        return;
      }
      handle := handle[ino := false];
    }

    method PutInode(ino: nat)
      requires Valid() && ino < INODES && ref[ino] > 0
      modifies `ref, `handle, `free
      ensures Valid() && State() == Put(old(State()), ino)
      ensures ref == old(ref)[ino := old(ref)[ino] - 1]
      ensures handle == if ref[ino] > 0 then old(handle) else old(handle)[ino := false]
      ensures free == if ref[ino] > 0 || child[ino] != [] then old(free)
                      else if parent[ino] == -1 then [ino] + old(free) else old(free) + [ino]
    {
      PutGood(State(), ino);
      ref := ref[ino := ref[ino] - 1];
      if ref[ino] > 0 {
        return;
      }
      PutHandle(ino);
      if child[ino] != [] {
        return;
      }
      if parent[ino] == -1 {
        free := [ino] + free;
      } else {
        free := free + [ino];
      }
    }

    /** do_putnode. */
    method DoPutnode(nr: nat, count: int) returns (ok: bool)
      requires Valid()
      modifies `ref, `handle, `free
      ensures Valid() && (!ok ==> State() == old(State()))
      ensures ok ==> 0 <= nr % 256 - 1 < INODES && 0 < count <= old(ref)[nr % 256 - 1]
      ensures ok ==> State() == Put(Lowered(old(State()), nr % 256 - 1, count - 1), nr % 256 - 1)
      ensures ok ==> ref == old(ref)[nr % 256 - 1 := old(ref)[nr % 256 - 1] - count]
    {
      var ino := FindInode(nr);
      if ino == -1 || count <= 0 || count > ref[ino] {
        return false;
      }
      FewerGood(State(), ino, count - 1);
      assert Lowered(State(), ino, count - 1).ref == ref[ino := ref[ino] - (count - 1)];
      ref := ref[ino := ref[ino] - (count - 1)];
      PutInode(ino);
      ok := true;
    }

    /** link_inode. */
    method LinkInode(p: nat, ino: nat)
      requires Sized(State()) && p < INODES && ino < INODES
      modifies `free, `child, `parent
      ensures free == if ref[p] == 0 && old(child)[p] == [] then Remove(old(free), p) else old(free)
      ensures child == old(child)[p := [ino] + old(child)[p]] && parent == old(parent)[ino := p]
    {
      if ref[p] == 0 && child[p] == [] {
        free := Remove(free, p);
      }
      child := child[p := [ino] + child[p]];
      parent := parent[ino := p];
    }

    /** add_dentry, for an inode from get_free_inode. */
    method AddDentry(p: nat, entry: Name, ino: nat)
      requires Valid() && p < INODES && ino < INODES && p != ino && ino != 0
      requires dir[p] && ref[p] > 0 && ref[ino] > 0 && entry != [] && parent[ino] == -1 && child[ino] == []
      modifies `free, `child, `parent, `name, `hash, `depth
      ensures Valid() && State() == Added(old(State()), p, entry, ino)
      ensures old(Settled(parent, child)) && old(parent[p]) != -1 ==> Settled(parent, child)
    {
      if Settled(parent, child) && parent[p] != -1 {
        AddedSettled(State(), p, entry, ino);
      }
      AddedGood(State(), p, entry, ino);
      LinkInode(p, ino);
      name := name[ino := entry];
      var slot := Slot(p, name[ino], insensitive);
      hash := hash[slot := [ino] + hash[slot]];
      depth := depth[ino := depth[p] + 1];
    }

    /** lookup_dentry compares names only, and finds an entry of the directory all the same. */
    method LookupDentry(p: nat, entry: Name) returns (ino: int)
      requires Valid() && p < INODES && dir[p]
      modifies `ref, `free
      ensures Valid()
      ensures ino == -1 ==> State() == old(State()) && forall x :: x in child[p] && x < INODES ==> Differ(name[x], entry, insensitive)
      ensures ino != -1 ==> 0 <= ino < INODES && ino in child[p] && !Differ(name[ino], entry, insensitive)
      ensures ino != -1 ==> State() == Gotten(old(State()), ino)
      ensures ino != -1 ==> ref == old(ref)[ino := old(ref)[ino] + 1] && OffList(old(free), free, ino)
    {
      var slot := Slot(p, entry, insensitive);
      assert SlotOk(State(), slot);
      forall j | 0 <= j < |hash[slot]| ensures hash[slot][j] < INODES {
        assert hash[slot][j] in hash[slot];
      }
      var i := 0;
      while i < |hash[slot]|
        invariant i <= |hash[slot]| && forall j :: 0 <= j < i ==> Differ(name[hash[slot][j]], entry, insensitive)
      {
        if !Differ(name[hash[slot][i]], entry, insensitive) {
          FoundThere(State(), p, entry, hash[slot][i]);
          ino := hash[slot][i];
          GetInode(ino);
          return;
        }
        i := i + 1;
      }
      forall x | x in child[p] && x < INODES ensures Differ(name[x], entry, insensitive) {
        if !Differ(name[x], entry, insensitive) {
          InThatSlot(State(), p, entry, x);
        }
      }
      ino := -1;
    }

    /** get_free_inode: an inode that is free, or that was cached and is deleted for it. */
    method GetFreeInode() returns (ino: int)
      requires Valid() && ref[0] > 0
      modifies `free, `parent, `child, `name, `hash, `gen, `ref
      ensures Valid() && (ino == -1 <==> old(free) == [])
      ensures ino == -1 ==> State() == old(State()) && gen == old(gen)
      ensures ino != -1 ==> 0 < ino < INODES && ino == old(free)[0] && ref == old(ref)[ino := 1]
      ensures ino != -1 ==> parent == old(parent)[ino := -1] && child[ino] == [] && !handle[ino]
      ensures ino != -1 ==> gen == old(gen)[ino := (old(gen)[ino] + 1) % 65536]
      ensures old(Settled(parent, child)) ==> Settled(parent, child)
    {
      if free == [] {
        return -1;
      }
      ino := free[0];
      ghost var t0 := State();
      TakenFree(t0, ino);
      free := free[1..];
      ghost var t1 := State();
      if parent[ino] != -1 {
        DelDentry(ino, ino);
      }
      assert parent == t0.parent[ino := -1];
      gen := gen[ino := (gen[ino] + 1) % 65536];
      Refreshed(State(), ino);
      ref := ref[ino := 1];
    }

    /** What do_lookup, do_create and do_getdents do for a name that is new to them: a free inode gets the kind that
        the host says, is open if it has just been created, and becomes an entry of the directory. */
    method NewDentry(p: nat, entry: Name, isDir: bool, open: bool) returns (ino: int)
      requires Valid() && Settled(parent, child) && ref[0] > 0 && p < INODES && dir[p] && ref[p] > 0 && parent[p] != -1
      requires entry != []
      modifies this
      ensures Valid() && Settled(parent, child) && (ino == -1 <==> old(free) == [])
      ensures ino == -1 ==> State() == old(State())
      ensures ino != -1 ==> 0 < ino < INODES && parent == old(parent)[ino := p] && ino in child[p] && name[ino] == entry && child[ino] == []
      ensures ino != -1 ==> dir == old(dir)[ino := isDir] && handle == old(handle)[ino := open] && ref == old(ref)[ino := 1]
      ensures ino != -1 ==> ino in hash[Slot(p, entry, insensitive)]
    {
      assert p !in free by {
        assert LifeOk(State(), p);
      }
      assert free != [] ==> free[0] in free;
      ino := GetFreeInode();
      if ino == -1 {
        return;
      }
      MarkedGood(State(), ino, isDir, open);
      dir, handle := dir[ino := isDir], handle[ino := open];
      AddDentry(p, entry, ino);
    }

    /** verify_inode. When the host says that the inode is not there, or not what it was, it is deleted; after another
        error, and when the inode has no path, nothing happens to it. */
    method VerifyInode(ino: nat, host: Host) returns (ok: bool)
      requires Valid() && ino < INODES
      modifies `parent, `child, `name, `hash, `free
      ensures Valid()
      ensures ok <==> old(parent)[ino] != -1 && host == There(dir[ino])
      ensures ok || old(parent)[ino] == -1 || host == Failed ==> State() == old(State())
      ensures !ok && old(parent)[ino] != -1 && host != Failed ==>
        Detached(old(State()), State(), Subtree(old(State()), ino))
      ensures old(Settled(parent, child)) ==> Settled(parent, child)
    {
      if parent[ino] == -1 {               // make_path finds no path
        return false;
      }
      ok := host == There(dir[ino]);
      if !ok && host != Failed {
        DelDentry(ino, -1);
      }
    }

    /** get_handle, for an inode to which VFS refers. `opens` is whether the host can open what it has found. */
    method GetHandle(ino: nat, host: Host, opens: bool) returns (ok: bool)
      requires Valid() && ino < INODES && ref[ino] > 0
      modifies `parent, `child, `name, `hash, `free, `handle
      ensures Valid() && ok == handle[ino]
      ensures ok <==> old(handle)[ino] || (old(parent)[ino] != -1 && host == There(dir[ino]) && opens)
      ensures handle == if ok then old(handle)[ino := true] else old(handle)
      ensures ok ==> parent == old(parent) && child == old(child)
      ensures old(Settled(parent, child)) ==> Settled(parent, child)
    {
      if handle[ino] {
        return true;
      }
      ok := VerifyInode(ino, host);
      if !ok {
        return false;
      }
      ok := opens;
      if ok {
        OpenGood(State(), ino);
        handle := handle[ino := true];
      }
    }
  }

  /** What the host answers about a path: that there is a directory or something else, that there is nothing, or neither. */
  datatype Host = There(isDir: bool) | NotThere | Failed

  /** The inode, and no other, is not on the free list any more. */
  ghost predicate OffList(before: seq<nat>, after: seq<nat>, ino: nat) {
    forall x :: x in after <==> x in before && x != ino
  }
}
