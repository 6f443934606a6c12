/** How the parts of a step keep the paging invariant. */
module PagingInvariant {
  import opened Basics
  import opened Paging

  // ---- the frame table --------------------------------------------------------------------

  lemma WithoutMembers(t: seq<nat>, p: nat)
    requires p in t && NoDuplicates(t)
    ensures NoDuplicates(Without(t, p))
    ensures forall q :: q in Without(t, p) <==> q in t && q != p
  {
    var i := IndexOf(t, p);
    var r := Without(t, p);
    assert forall j | 0 <= j < |r| :: r[j] == if j < i then t[j] else t[j + 1];
    forall q | q in t && q != p ensures q in r {
      var j :| 0 <= j < |t| && t[j] == q;
      assert j < i ==> r[j] == q;
      assert j > i ==> r[j - 1] == q;
    }
  }

  /** The clock hand steps off a freed node onto a live one (or the tail). */
  lemma NextNodeLive(t: seq<nat>, p: nat)
    requires p in t && NoDuplicates(t)
    ensures NextNode(t, p).On? ==> NextNode(t, p).kpage in t && NextNode(t, p).kpage != p
  {
  }

  lemma FreeKeepsTable(table: seq<nat>, frames: map<nat, Frame>, used: seq<bool>, hand: Hand, p: nat)
    requires TableOk(table, frames, used, hand) && p in table
    ensures TableOk(Without(table, p), frames - {p}, used[p := false],
                    if hand == On(p) then NextNode(table, p) else hand)
  {
    hide IndexOf, Without, NextNode;
    WithoutMembers(table, p);
    NextNodeLive(table, p);
  }

  lemma TakeKeepsTable(table: seq<nat>, frames: map<nat, Frame>, used: seq<bool>, hand: Hand, p: nat, f: Frame)
    requires TableOk(table, frames, used, hand) && p < |used| && !used[p]
    ensures TableOk(table + [p], frames[p := f], used[p := true], hand)
  {
  }

  /** Two SPTs that agree on every page but k. */
  ghost predicate SameBut(spt: map<Key, Spte>, spt': map<Key, Spte>, k: Key) {
    && (forall j | j != k :: j in spt' <==> j in spt)
    && (forall j | j != k && j in spt :: spt'[j] == spt[j])
  }

  // ---- ownership ----------------------------------------------------------------------------

  /** A page stops being resident: its entry changes to another status, or disappears. */
  lemma LeaveKeepsOwners(frames: map<nat, Frame>, spt: map<Key, Spte>, spt': map<Key, Spte>, k: Key)
    requires OwnersOk(frames, spt) && k in spt && spt[k].status.Memory?
    requires SameBut(spt, spt', k)
    requires k in spt' ==> !spt'[k].status.Memory?
    ensures OwnersOk(frames - {spt[k].status.kpage}, spt')
  {
  }

  lemma LeaveKeepsDirectory(pd: map<Key, Pte>, spt: map<Key, Spte>, spt': map<Key, Spte>, k: Key)
    requires DirectoryOk(pd, spt)
    requires SameBut(spt, spt', k)
    requires k in spt' ==> !spt'[k].status.Memory?
    ensures DirectoryOk(ClearPage(pd, k), spt')
  {
  }

  /** A page becomes resident in a frame that was free. */
  lemma EnterKeepsOwners(frames: map<nat, Frame>, spt: map<Key, Spte>, k: Key, e: Spte, p: nat, pinned: bool)
    requires OwnersOk(frames, spt) && p !in frames && e.status == Memory(p)
    requires k in spt ==> !spt[k].status.Memory?
    ensures OwnersOk(frames[p := Frame(k, pinned)], spt[k := e])
  {
  }

  lemma EnterKeepsDirectory(pd: map<Key, Pte>, spt: map<Key, Spte>, k: Key, e: Spte, p: nat)
    requires DirectoryOk(pd, spt) && e.status == Memory(p)
    ensures DirectoryOk(pd[k := Pte(p, true, e.writable, false, false)], spt[k := e])
  {
  }

  // ---- swap -----------------------------------------------------------------------------------

  /** Slots stay owned when an entry that is not swapped changes to another such status. */
  lemma SwapUnaffected(swapMap: seq<bool>, spt: map<Key, Spte>, spt': map<Key, Spte>, k: Key)
    requires SwapOk(swapMap, spt)
    requires SameBut(spt, spt', k)
    requires k in spt ==> !spt[k].status.Swap?
    requires k in spt' ==> !spt'[k].status.Swap?
    ensures SwapOk(swapMap, spt')
  {
    forall i | 0 <= i < |swapMap| && swapMap[i] ensures SlotTaken(spt', i) {
      var j :| j in spt && spt[j].status == Swap(i);
      assert j in spt' && spt'[j].status == Swap(i);
    }
  }

  lemma SwapGains(swapMap: seq<bool>, spt: map<Key, Spte>, k: Key, e: Spte, slot: nat)
    requires SwapOk(swapMap, spt) && slot < |swapMap| && !swapMap[slot] && e.status == Swap(slot) && !e.mmap
    requires k in spt ==> !spt[k].status.Swap?
    ensures SwapOk(swapMap[slot := true], spt[k := e])
  {
    var m, spt' := swapMap[slot := true], spt[k := e];
    forall i | 0 <= i < |m| && m[i] ensures SlotTaken(spt', i) {
      if i == slot {
        assert spt'[k].status == Swap(i);
      } else {
        assert SlotTaken(spt, i);
        var j :| j in spt && spt[j].status == Swap(i);
        assert j in spt' && spt'[j].status == Swap(i);
      }
    }
  }

  lemma SwapLoses(swapMap: seq<bool>, spt: map<Key, Spte>, spt': map<Key, Spte>, k: Key, slot: nat)
    requires SwapOk(swapMap, spt) && k in spt && spt[k].status == Swap(slot)
    requires SameBut(spt, spt', k)
    requires k in spt' ==> !spt'[k].status.Swap?
    ensures slot < |swapMap| && SwapOk(swapMap[slot := false], spt')
  {
    var m := swapMap[slot := false];
    forall i | 0 <= i < |m| && m[i] ensures SlotTaken(spt', i) {
      assert SlotTaken(spt, i);
      var j :| j in spt && spt[j].status == Swap(i);
      assert j in spt' && spt'[j].status == Swap(i);
    }
  }

  // ---- files ----------------------------------------------------------------------------------

  /** Open files that differ in their positions only. */
  ghost predicate SameFiles(files: map<nat, OpenFile>, files': map<nat, OpenFile>) {
    && files.Keys == files'.Keys
    && (forall f | f in files :: files'[f].inode == files[f].inode && files'[f].denyWrite == files[f].denyWrite)
  }

  ghost predicate SameLengths(inodes: map<nat, Bytes>, inodes': map<nat, Bytes>) {
    && inodes.Keys == inodes'.Keys
    && (forall n | n in inodes :: |inodes'[n]| == |inodes[n]|)
  }

  lemma SameDenied(files: map<nat, OpenFile>, files': map<nat, OpenFile>, inode: nat)
    requires SameFiles(files, files')
    ensures Denied(files', inode) <==> Denied(files, inode)
  {
    if Denied(files, inode) {
      var f :| f in files && files[f].inode == inode && files[f].denyWrite;
      assert f in files';
    }
    if Denied(files', inode) {
      var f :| f in files' && files'[f].inode == inode && files'[f].denyWrite;
      assert f in files;
    }
  }

  lemma FilesMove(spt: map<Key, Spte>, files: map<nat, OpenFile>, inodes: map<nat, Bytes>,
                  files': map<nat, OpenFile>, inodes': map<nat, Bytes>)
    requires BackedOk(spt, files, inodes) && ProtectedOk(spt, files)
    requires SameFiles(files, files') && SameLengths(inodes, inodes')
    ensures BackedOk(spt, files', inodes') && ProtectedOk(spt, files')
  {
    forall k | k in spt && FromExecutable(spt[k]) ensures Denied(files', files'[spt[k].file].inode) {
      SameDenied(files, files', files[spt[k].file].inode);
    }
  }

  lemma EntryMoves(spt: map<Key, Spte>, spt': map<Key, Spte>, files: map<nat, OpenFile>, inodes: map<nat, Bytes>,
      k: Key)
    requires BackedOk(spt, files, inodes) && ProtectedOk(spt, files) && SameBut(spt, spt', k)
    requires k in spt' ==> EntryOk(spt'[k], files, inodes) && !FromExecutable(spt'[k])
    requires k in spt' && spt'[k].mmap ==> k in spt && spt[k].mmap && spt'[k].file == spt[k].file
    ensures BackedOk(spt', files, inodes) && ProtectedOk(spt', files)
  {
  }

  /** A write-back changes positions and bytes, nothing else. */
  lemma FlushKeeps(s: Vm, k: Key)
    requires Sound(s) && k in s.spt && s.spt[k].mmap && s.spt[k].status.Memory?
    requires EntryOk(s.spt[k], s.files, s.inodes)
    ensures SameFiles(s.files, Flush(s, k).files) && SameLengths(s.inodes, Flush(s, k).inodes)
    ensures Flush(s, k) == s.(files := Flush(s, k).files, inodes := Flush(s, k).inodes)
  {
    hide PoolOk, TableOk, OwnersOk, SwapSized;
  }
}
