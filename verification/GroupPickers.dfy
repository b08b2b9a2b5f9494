/** How the ext2 server picks the block group for a new inode, by the free counts of groups and superblock. */
module GroupPickers {
  import opened BlockAlloc

  /** No group has a free inode. */
  ghost predicate NoneFree(free: seq<nat>) {
    forall g :: 0 <= g < |free| ==> free[g] == 0
  }

  /** A picked group has a free inode, and none is picked only if no group has one. */
  ghost predicate Picked(free: seq<nat>, group: int) {
    if group == -1 then NoneFree(free) else 0 <= group < |free| && free[group] > 0
  }

  /** Pigeonhole: some group has at least the average. */
  lemma {:induction false} AboveAverage(free: seq<nat>) returns (g: nat)
    requires free != []
    ensures g < |free| && free[g] * |free| >= Sum(free) && forall h :: 0 <= h < |free| ==> free[h] <= free[g]
    decreases |free|
  {
    var n := |free| - 1;
    if n == 0 {
      g := 0;
      assert free[..n] == [];
    } else {
      g := AboveAverage(free[..n]);
      var best := if free[n] > free[g] then free[n] else free[g];
      AtMost(free[g], best, n);
      assert best * |free| == best * n + best;
      if free[n] > free[g] { g := n; }
    }
  }

  lemma AtMost(x: nat, y: nat, n: nat)
    requires x <= y
    ensures x * n <= y * n
  {
  }

  lemma AverageBelow(sum: nat, n: nat, most: nat)
    requires n > 0 && most * n >= sum
    ensures sum / n <= most
  {
    assert (most + 1) * n == most * n + n;
    assert sum == (sum / n) * n + sum % n;
    if sum / n > most {
      AtMost(most + 1, sum / n, n);
    }
  }

  /** Group `g` is among the first `i` from `start` on, in a circle of `n`. */
  predicate Passed(start: nat, i: nat, n: nat, g: nat) {
    start <= g < start + i || g < start + i - n
  }

  /** How many steps from group `start` to group `g`. */
  function Steps(start: nat, g: nat, n: nat): nat
    requires start < n && g < n
  {
    if g >= start then g - start else g + n - start
  }

  class InodeGroups {
    const perGroup: nat          // s_inodes_per_group
    var freeInodes: seq<nat>     // free_inodes_count
    var freeBlocks: seq<nat>     // free_blocks_count
    var dirs: seq<nat>           // used_dirs_count
    var total: nat               // s_free_inodes_count
    var totalBlocks: nat         // s_free_blocks_count
    var igsearch: nat            // s_igsearch

    constructor (perGroup: nat, freeInodes: seq<nat>, freeBlocks: seq<nat>, dirs: seq<nat>, totalBlocks: nat)
      requires freeInodes != [] && |freeBlocks| == |dirs| == |freeInodes|
      ensures Valid() && this.freeInodes == freeInodes
    {
      this.perGroup, this.freeInodes, this.freeBlocks, this.dirs := perGroup, freeInodes, freeBlocks, dirs;
      total, this.totalBlocks, igsearch := Sum(freeInodes), totalBlocks, 0;
    }

    /** No group below s_igsearch has a free inode. */
    ghost predicate Valid()
      reads this
    {
      && freeInodes != [] && |freeBlocks| == |dirs| == |freeInodes| && total == Sum(freeInodes)
      && forall g :: 0 <= g < igsearch && g < |freeInodes| ==> freeInodes[g] == 0
    }

    /** find_group_dir: among the groups with at least the average of free inodes, that with most free blocks. */
    method FindGroupDir() returns (best: int)
      requires Valid()
      ensures Picked(freeInodes, best)
      ensures best != -1 ==> Enough(best, total / |freeInodes|, 0)
      ensures best != -1 ==> forall g :: 0 <= g < |freeInodes| && Enough(g, total / |freeInodes|, 0) ==>
        freeBlocks[g] <= freeBlocks[best] && (g < best ==> freeBlocks[g] < freeBlocks[best])
    {
      var average := total / |freeInodes|;
      best := -1;
      var group := 0;
      while group < |freeInodes|
        invariant group <= |freeInodes| && (best == -1 || (0 <= best < group && Enough(best, average, 0)))
        invariant best == -1 ==> forall g :: 0 <= g < group ==> !Enough(g, average, 0)
        invariant best != -1 ==> forall g :: 0 <= g < group && Enough(g, average, 0) ==>
          freeBlocks[g] <= freeBlocks[best] && (g < best ==> freeBlocks[g] < freeBlocks[best])
      {
        if freeInodes[group] != 0 && freeInodes[group] >= average && (best == -1 || freeBlocks[group] > freeBlocks[best]) {
          best := group;
        }
        group := group + 1;
      }
      ghost var most := AboveAverage(freeInodes);
      AverageBelow(total, |freeInodes|, freeInodes[most]);
      assert best == -1 ==> !Enough(most, average, 0);
    }

    /** A group that has a free inode, and at least so many of them and so many free blocks. */
    predicate Enough(g: nat, inodes: nat, blocks: nat)
      reads `freeInodes, `freeBlocks
      requires g < |freeInodes| == |freeBlocks|
    {
      freeInodes[g] != 0 && freeInodes[g] >= inodes && freeBlocks[g] >= blocks
    }

    /** A linear search around all groups, from `start` on, has found no free inode in `i` steps. */
    ghost predicate SeenAround(start: nat, i: nat)
      reads `freeInodes
    {
      forall g :: 0 <= g < |freeInodes| && Passed(start, i, |freeInodes|, g) ==> freeInodes[g] == 0
    }

    /** find_group_hashalloc. */
    method FindGroupHashalloc(parent: nat, number: nat) returns (group: int)
      requires Valid() && parent < |freeInodes|
      ensures Picked(freeInodes, group)
      ensures freeInodes[parent] != 0 && freeBlocks[parent] != 0 ==> group == parent
      ensures group != -1 && freeBlocks[group] == 0 ==> SeenAround(parent, Steps(parent, group, |freeInodes|))
    {
      var n := |freeInodes|;
      group := parent;
      if freeInodes[group] != 0 && freeBlocks[group] != 0 {
        return;
      }
      group := (parent + number) % n;
      var i := 1;
      while i < n
        invariant 0 <= group < n && i > 0
        decreases n - i
      {
        group := group + i;
        if group >= n {
          group := group - n;
        }
        if freeInodes[group] != 0 && freeBlocks[group] != 0 {
          return;
        }
        i := i * 2;
      }
      group := parent;
      i := 0;
      while i < n
        invariant 0 <= i <= n && 0 <= group && (group == parent + i <= n || group == parent + i - n)
        invariant SeenAround(parent, i)
      {
        if group >= n {
          group := 0;
        }
        if freeInodes[group] != 0 {
          return;
        }
        i, group := i + 1, group + 1;
      }
      group := -1;
    }

    /** find_group_any. */
    method FindGroupAny() returns (group: int)
      requires Valid()
      modifies `igsearch
      ensures Valid() && Picked(freeInodes, group)
      ensures group != -1 ==> forall g :: 0 <= g < group ==> freeInodes[g] == 0
      ensures igsearch == if group == -1 then old(igsearch) else group
    {
      group := igsearch;
      while group < |freeInodes|
        invariant 0 <= group && forall g :: 0 <= g < group && g < |freeInodes| ==> freeInodes[g] == 0
      {
        if freeInodes[group] != 0 {
          igsearch := group;
          return;
        }
        group := group + 1;
      }
      group := -1;
    }

    /** find_group_orlov for a parent at the top; `start` is what random gives. When some group has the averages, a group
        that has them is picked, and one with fewest directories if that is less than its inodes. */
    method FindGroupTop(start: nat) returns (group: int)
      requires Valid()
      ensures Picked(freeInodes, group)
      ensures group == -1 || FewestDirs(group, total / |freeInodes|, totalBlocks / |freeInodes|)
    {
      var average, averageBlocks := total / |freeInodes|, totalBlocks / |freeInodes|;
      group := ScanForTop(start, average, averageBlocks);
    }

    ghost predicate FewestDirs(group: nat, average: nat, averageBlocks: nat)
      reads this
      requires group < |freeInodes| == |freeBlocks| == |dirs|
    {
      forall g :: 0 <= g < |freeInodes| && Enough(g, average, averageBlocks) ==>
        Enough(group, average, averageBlocks) && (dirs[g] < perGroup ==> dirs[group] <= dirs[g])
    }

    method ScanForTop(start: nat, average: nat, averageBlocks: nat) returns (group: int)
      requires Valid()
      ensures Picked(freeInodes, group)
      ensures group == -1 || FewestDirs(group, average, averageBlocks)
    {
      var n := |freeInodes|;
      var fallback, best, bestAverage, bestDirs := -1, -1, -1, perGroup;
      group := start;
      ghost var first := if start >= n then 0 else start;
      var i := 0;
      while i < n
        invariant 0 <= i <= n && 0 <= group && (group == first + i <= n || group == first + i - n || (i == 0 && group >= n && first == 0))
        invariant -1 <= fallback < n && -1 <= best < n && -1 <= bestAverage < n
        invariant if fallback == -1 then SeenAround(first, i) && bestAverage == -1 else freeInodes[fallback] > 0
        invariant if bestAverage == -1 then NoneEnough(first, i, average, averageBlocks) && best == -1
                  else Enough(bestAverage, average, averageBlocks)
        invariant if best == -1 then bestDirs == perGroup else Enough(best, average, averageBlocks) && dirs[best] == bestDirs
        invariant NoneFewer(first, i, average, averageBlocks, bestDirs)
      {
        if group >= n {
          group := 0;
        }
        if freeInodes[group] != 0 {
          fallback := group;
          if freeInodes[group] >= average && freeBlocks[group] >= averageBlocks {
            bestAverage := group;
            if dirs[group] < bestDirs {
              bestDirs := dirs[group];
              best := group;
            }
          }
        }
        i, group := i + 1, group + 1;
      }
      group := if best >= 0 then best else if bestAverage >= 0 then bestAverage else fallback;
    }

    /** None of the first `i` groups from `start` on that has the averages has fewer directories. */
    ghost predicate NoneFewer(start: nat, i: nat, average: nat, averageBlocks: nat, most: nat)
      reads this
      requires |freeInodes| == |freeBlocks| == |dirs|
    {
      forall g :: 0 <= g < |freeInodes| && Passed(start, i, |freeInodes|, g) && Enough(g, average, averageBlocks) ==>
        most <= dirs[g]
    }

    /** None of the first `i` groups from `start` on, in a circle, has enough free inodes and blocks. */
    ghost predicate NoneEnough(start: nat, i: nat, inodes: nat, blocks: nat)
      reads `freeInodes, `freeBlocks
      requires |freeInodes| == |freeBlocks|
    {
      forall g :: 0 <= g < |freeInodes| && Passed(start, i, |freeInodes|, g) ==> !Enough(g, inodes, blocks)
    }

    /** find_group_orlov for any other parent: the first group, from the parent's on, that has half of the averages, if there
        is one. */
    method FindGroupNear(parent: nat) returns (group: int)
      requires Valid() && parent < |freeInodes|
      ensures Picked(freeInodes, group)
      ensures var minInodes, minBlocks := total / |freeInodes| / 2, totalBlocks / |freeInodes| / 2;
        if group != -1 && Enough(group, minInodes, minBlocks)
        then NoneEnough(parent, Steps(parent, group, |freeInodes|), minInodes, minBlocks)
        else NoneEnough(parent, |freeInodes|, minInodes, minBlocks)
    {
      var n := |freeInodes|;
      var minInodes, minBlocks := total / n / 2, totalBlocks / n / 2;
      var fallback := -1;
      group := parent;
      var i := 0;
      while i < n
        invariant 0 <= i <= n && 0 <= group && (group == parent + i <= n || group == parent + i - n)
        invariant NoneEnough(parent, i, minInodes, minBlocks)
        invariant if fallback == -1 then SeenAround(parent, i) else 0 <= fallback < n && freeInodes[fallback] > 0
      {
        if group >= n {
          group := 0;
        }
        if freeInodes[group] != 0 {
          fallback := group;
          if freeInodes[group] >= minInodes && freeBlocks[group] >= minBlocks {
            return;
          }
        }
        i, group := i + 1, group + 1;
      }
      group := fallback;
    }

    /** alloc_inode_bit counts an inode of a picked group as used. */
    method CountTaken(group: nat, isDir: bool)
      requires Valid() && Picked(freeInodes, group)
      modifies `freeInodes, `dirs, `total
      ensures Valid() && freeInodes == old(freeInodes)[group := old(freeInodes)[group] - 1]
      ensures dirs == if isDir then old(dirs)[group := old(dirs)[group] + 1] else old(dirs)
    {
      SumChanged(freeInodes, group, freeInodes[group] - 1);
      freeInodes := freeInodes[group := freeInodes[group] - 1];
      total := total - 1;
      if isDir {
        dirs := dirs[group := dirs[group] + 1];
      }
    }

    /** free_inode_bit counts it as free again and lowers s_igsearch. */
    method CountFreed(group: nat, isDir: bool)
      requires Valid() && group < |freeInodes| && (isDir ==> dirs[group] > 0)
      modifies `freeInodes, `dirs, `total, `igsearch
      ensures Valid() && freeInodes == old(freeInodes)[group := old(freeInodes)[group] + 1]
      ensures dirs == if isDir then old(dirs)[group := old(dirs)[group] - 1] else old(dirs)
      ensures igsearch == if group < old(igsearch) then group else old(igsearch)
    {
      SumChanged(freeInodes, group, freeInodes[group] + 1);
      freeInodes := freeInodes[group := freeInodes[group] + 1];
      total := total + 1;
      if isDir {
        dirs := dirs[group := dirs[group] - 1];
      }
      if group < igsearch {
        igsearch := group;
      }
    }
  }

  lemma {:induction false} SumChanged(s: seq<nat>, i: nat, v: nat)
    requires i < |s|
    ensures var t: seq<nat> := s[i := v]; Sum(t) == Sum(s) - s[i] + v
    decreases |s|
  {
    var n := |s| - 1;
    var t: seq<nat> := s[i := v];
    if i == n {
      assert t[..n] == s[..n];
    } else {
      SumChanged(s[..n], i, v);
      assert t[..n] == s[..n][i := v];
    }
  }
}
