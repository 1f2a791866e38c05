/** Two descriptors open at the same time, on different files, used in any order. */
module Interleaving {
  import opened Basics
  import opened Bitmap
  import opened Clusters
  import opened Ownership
  import opened Inodes
  import opened FileViews
  import opened AllocationSteps
  import opened FlatFile
  import opened CachePages
  import opened Storage
  import opened TableImage
  import opened OpenFiles

  /** What cache and disk hold of a file stays while its record and its clusters read the same. */
  lemma HoldsStill(disk: seq<Cluster>, disk': seq<Cluster>, used: seq<bool>, used': seq<bool>,
                   table: seq<Inode>, table': seq<Inode>, reserved: nat, id: nat, bytes: seq<byte>, slots: seq<CacheSlot>)
    requires Holds(disk, used, table, reserved, id, bytes, slots)
    requires TableOk(table') && Sound(Volume(disk', used', TableRoots(table'), reserved))
    requires id < |table'| && table'[id] == table[id] && SameFile(disk, disk', table[id], table[id])
    ensures Holds(disk', used', table', reserved, id, bytes, slots)
  {
    hide Sound, TableRoots, ViewOf, HoldsPages;
    var ino := table[id];
    forall k: nat | k < |bytes| && !DirtyAt(slots, k / CLUSTER_SIZE)
      ensures ByteAt(disk', ino, k) == ByteAt(disk, ino, k)
    {
      assert k / CLUSTER_SIZE < MAX_FILE_CLUSTERS;
    }
  }

  /** What is done to one file leaves what cache and disk hold of another. */
  lemma HoldsElsewhere(disk: seq<Cluster>, disk': seq<Cluster>, used: seq<bool>, used': seq<bool>,
                       table: seq<Inode>, table': seq<Inode>, reserved: nat, id: nat, other: nat,
                       bytes: seq<byte>, slots: seq<CacheSlot>)
    requires Holds(disk, used, table, reserved, other, bytes, slots) && other != id
    requires TableOk(table') && Sound(Volume(disk', used', TableRoots(table'), reserved))
    requires OthersKept(disk, disk', table, table', id)
    ensures Holds(disk', used', table', reserved, other, bytes, slots)
    ensures other < |table'| && table'[other] == table[other]
  {
    hide Sound, TableRoots, SameFile, Coherent;
    HoldsStill(disk, disk', used, used', table, table', reserved, other, bytes, slots);
  }

  /** Whose turn it is, and what it does. */
  datatype Turn = Turn(first: bool, op: Op)

  function OpsOf(turns: seq<Turn>, first: bool): seq<Op> {
    if turns == [] then []
    else (if turns[0].first == first then [turns[0].op] else []) + OpsOf(turns[1..], first)
  }

  ghost predicate Apart(a: OpenFile, b: OpenFile) {
    a != b && a.storage == b.storage && a.slots != b.slots
  }

  /** One operation on a; b stays what it was. */
  method TakeTurn(a: OpenFile, b: OpenFile, op: Op) returns (ok: bool, reply: Reply)
    requires Apart(a, b) && a.isOpen && b.isOpen && a.Valid() && b.Valid() && a.inodeId != b.inodeId
    requires a.allowWrite ==> Allowed(Plain(a.bytes, a.position), op)
    modifies a, a.slots, b`tidy, a.storage`disk, a.storage`table, a.storage`dirty, a.storage.bitmap.buffer
    ensures a.isOpen && a.Valid() && b.Valid()
    ensures a.inodeId == old(a.inodeId) && a.allowRead == old(a.allowRead) && a.allowWrite == old(a.allowWrite)
    ensures ok ==> (Plain(a.bytes, a.position), reply) == PlainStep(old(Plain(a.bytes, a.position)), a.allowRead, a.allowWrite, op)
    ensures !ok ==> a.DiskFull()
  {
    hide Image, Coherent, Recent, Keeps, Holds, OthersKept, AllUsed, Flags, Splice, ReadBytes, Sound, TableRoots;
    ghost var disk, used, table := a.storage.disk, a.storage.bitmap.Used(), a.storage.table;
    ok, reply := a.RunOne(op);
    HoldsFacts(a.storage.disk, a.storage.bitmap.Used(), a.storage.table, a.storage.reserved, a.inodeId, a.bytes,
               a.slots[..a.validCount]);
    KeepsFacts(disk, used, table, b.storage.reserved, b.inodeId, b.bytes, b.found, b.tidy);
    HoldsElsewhere(disk, b.storage.disk, used, b.storage.bitmap.Used(), table, b.storage.table, b.storage.reserved,
                   a.inodeId, b.inodeId, b.bytes, b.slots[..b.validCount]);
    b.tidy := false;
    KeepsLabels(b.storage.disk, b.storage.bitmap.Used(), b.storage.table, b.storage.reserved, b.inodeId, b.bytes, b.found);
  }

  lemma KeepsLabels(disk: seq<Cluster>, used: seq<bool>, table: seq<Inode>, reserved: nat, id: nat, bytes: seq<byte>,
                    found: Inode)
    requires TableOk(table) && id < |table| && SameLabels(found, table[id])
    ensures Keeps(disk, used, table, reserved, id, bytes, found, false)
  {
  }

  /**
   Operations on two files in any order: each descriptor gets the replies of its own plain byte sequence, as if the
   other were not there, unless the disk fills up.
   */
  method Interleave(a: OpenFile, b: OpenFile, turns: seq<Turn>) returns (done: bool, repliesA: seq<Reply>,
                    repliesB: seq<Reply>)
    requires Apart(a, b) && a.isOpen && b.isOpen && a.Valid() && b.Valid() && a.inodeId != b.inodeId
    requires AllAllowed(Plain(a.bytes, a.position), a.allowRead, a.allowWrite, OpsOf(turns, true))
    requires AllAllowed(Plain(b.bytes, b.position), b.allowRead, b.allowWrite, OpsOf(turns, false))
    modifies a, a.slots, b, b.slots, a.storage`disk, a.storage`table, a.storage`dirty, a.storage.bitmap.buffer
    ensures a.isOpen && b.isOpen && a.Valid() && b.Valid()
    ensures done ==>
              && (Plain(a.bytes, a.position), repliesA) ==
                 PlainRun(old(Plain(a.bytes, a.position)), old(a.allowRead), old(a.allowWrite), OpsOf(turns, true))
              && (Plain(b.bytes, b.position), repliesB) ==
                 PlainRun(old(Plain(b.bytes, b.position)), old(b.allowRead), old(b.allowWrite), OpsOf(turns, false))
    ensures !done ==> a.DiskFull() || b.DiskFull()
    decreases |turns|
  {
    hide Image, Coherent, Recent, Keeps, Holds, OthersKept, AllUsed, Flags, Splice, ReadBytes, Sound, TableRoots, PlainStep;
    if turns == [] {
      return true, [], [];
    }
    var op, rest := turns[0].op, turns[1..];
    var ok, reply;
    if turns[0].first {
      assert OpsOf(turns, true) == [op] + OpsOf(rest, true) && OpsOf(turns, false) == OpsOf(rest, false);
      assert OpsOf(turns, true)[1..] == OpsOf(rest, true);
      ok, reply := TakeTurn(a, b, op);
    } else {
      assert OpsOf(turns, false) == [op] + OpsOf(rest, false) && OpsOf(turns, true) == OpsOf(rest, true);
      assert OpsOf(turns, false)[1..] == OpsOf(rest, false);
      ok, reply := TakeTurn(b, a, op);
    }
    if !ok {
      return false, [], [];
    }
    done, repliesA, repliesB := Interleave(a, b, rest);
    if turns[0].first {
      repliesA := [reply] + repliesA;
    } else {
      repliesB := [reply] + repliesB;
    }
  }
}
