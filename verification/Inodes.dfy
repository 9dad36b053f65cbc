/** What the blocks of the disk mean to fs.c: which block belongs to which inode,
    which bits of the free map are set, and which bytes a file holds. */
module Inodes {
  import opened Blocks

  const NDIRECT: nat := 11
  const NINDIRECT: nat := 128
  const MAXFILE: nat := 139     // NDIRECT + NINDIRECT
  const NSLOTS: nat := 140      // the direct addresses, the indirect one, the indirect block's entries
  const IPB: nat := 8           // inodes per block
  const DINODE: nat := 16       // words of an on-disk inode: size is word 2, the addresses are 3..14

  type Addrs = a: seq<Word> | |a| == 12 witness seq(12, i => 0)

  /** The fields of struct inode that concern its contents. */
  datatype Inode = Inode(size: Word, addrs: Addrs)

  /** A place where a block number can be stored: slot k of inode inum. Slots 0..10 are
      the direct addresses, 11 the indirect block, 12.. its entries. */
  datatype Slot = Slot(inum: nat, k: nat)

  /** nmeta is sb.size - sb.nblocks: the boot block, super block, log, inodes and bitmap. */
  datatype Super = Super(size: nat, nmeta: nat, inodestart: nat, bmapstart: nat) {
    predicate Ok() {
      inodestart <= bmapstart && bmapstart + size / BPB < nmeta <= size < 0x1_0000_0000
    }
    function BBlock(b: nat): nat {
      b / BPB + bmapstart
    }
    function IBlock(inum: nat): nat {
      inum / IPB + inodestart
    }
    /** The inode blocks have room for n inodes. */
    predicate HasInodes(n: nat) {
      n + inodestart * IPB <= bmapstart * IPB
    }
  }

  /** Is block b marked in use in the free map? */
  predicate InUse(sb: Super, view: seq<Block>, b: nat)
    requires sb.Ok() && |view| == sb.size && b < sb.size
  {
    GetBit(view[sb.BBlock(b)], b % BPB)
  }

  /** The block number stored in slot k, 0 if none. */
  function Ref(view: seq<Block>, ino: Inode, k: nat): (b: Word)
  {
    if k <= NDIRECT then ino.addrs[k]
    else if ino.addrs[NDIRECT] == 0 || ino.addrs[NDIRECT] >= |view| || k >= NSLOTS then 0
    else GetWord(view[ino.addrs[NDIRECT]], k - 12)
  }

  /** The slot of the bn-th data block. */
  function DataSlot(bn: nat): nat {
    if bn < NDIRECT then bn else bn + 1
  }

  /** One of the first skip entries of the indirect block of inode gone. */
  predicate Skipped(i: nat, k: nat, gone: nat, skip: nat) {
    i == gone && 12 <= k < 12 + skip
  }

  /** Block ownership: owner inverts Ref, and the free map marks exactly the metadata and
      the owned blocks. The slots that are Skipped are left out of account. */
  ghost predicate OwnedBut(sb: Super, view: seq<Block>, inodes: seq<Inode>, owner: map<nat, Slot>, gone: nat, skip: nat) {
    && sb.Ok() && |view| == sb.size
    && (forall b :: b in owner ==>
          && sb.nmeta <= b < sb.size
          && owner[b].inum < |inodes| && owner[b].k < NSLOTS
          && !Skipped(owner[b].inum, owner[b].k, gone, skip)
          && Ref(view, inodes[owner[b].inum], owner[b].k) == b)
    && (forall i, k: nat :: 0 <= i < |inodes| && k < NSLOTS && !Skipped(i, k, gone, skip)
                            && Ref(view, inodes[i], k) != 0 ==>
          && Ref(view, inodes[i], k) in owner
          && owner[Ref(view, inodes[i], k)] == Slot(i, k))
    && (forall b: nat :: b < sb.size ==> (InUse(sb, view, b) <==> b < sb.nmeta || b in owner))
  }

  ghost predicate Owned(sb: Super, view: seq<Block>, inodes: seq<Inode>, owner: map<nat, Slot>) {
    OwnedBut(sb, view, inodes, owner, 0, 0)
  }

  /** Every block a file's size reaches has been allocated. */
  ghost predicate Dense(view: seq<Block>, ino: Inode) {
    && ino.size <= MAXFILE * BSIZE
    && forall bn: nat :: bn * BSIZE < ino.size ==> Ref(view, ino, DataSlot(bn)) != 0
  }

  // ---- inodes on disk ----

  /** The n words from word w on. */
  function GetWords(b: Block, w: nat, n: nat): (a: seq<Word>)
    requires w + n <= WORDS
    ensures |a| == n && forall k :: 0 <= k < n ==> a[k] == GetWord(b, w + k)
  {
    if n == 0 then [] else GetWords(b, w, n - 1) + [GetWord(b, w + n - 1)]
  }

  function GetInode(b: Block, slot: nat): Inode
    requires slot < IPB
  {
    Inode(GetWord(b, DINODE * slot + 2), GetWords(b, DINODE * slot + 3, 12))
  }

  /** The first k addresses stored; the other words stay. */
  function PutAddrs(b: Block, slot: nat, addrs: Addrs, k: nat): (r: Block)
    requires slot < IPB && k <= 12
    ensures forall m: nat :: m < k ==> GetWord(r, DINODE * slot + 3 + m) == addrs[m]
    ensures forall w: nat :: w < WORDS && !(DINODE * slot + 3 <= w < DINODE * slot + 3 + k) ==> GetWord(r, w) == GetWord(b, w)
  {
    if k == 0 then b else PutWord(PutAddrs(b, slot, addrs, k - 1), DINODE * slot + 2 + k, addrs[k - 1])
  }

  function PutInode(b: Block, slot: nat, ino: Inode): (r: Block)
    requires slot < IPB
  {
    PutAddrs(PutWord(b, DINODE * slot + 2, ino.size), slot, ino.addrs, 12)
  }

  /** Storing an inode makes it readable back and disturbs neither the other inodes of the block
      nor the remaining words of its own. */
  lemma StoredInode(b: Block, slot: nat, ino: Inode)
    requires slot < IPB
    ensures GetInode(PutInode(b, slot, ino), slot) == ino
    ensures forall m: nat :: m < IPB && m != slot ==> GetInode(PutInode(b, slot, ino), m) == GetInode(b, m)
    ensures forall w: nat :: w < WORDS && !(DINODE * slot + 2 <= w < DINODE * slot + 15) ==>
              GetWord(PutInode(b, slot, ino), w) == GetWord(b, w)
  {
    var r := PutInode(b, slot, ino);
    assert GetInode(r, slot).addrs == ino.addrs;
    forall m: nat | m < IPB && m != slot
      ensures GetInode(r, m) == GetInode(b, m)
    {
      assert GetInode(r, m).addrs == GetInode(b, m).addrs;
    }
  }

  /** The inode block holds the inode. */
  ghost predicate StoredAt(sb: Super, view: seq<Block>, inodes: seq<Inode>, i: nat) {
    i < |inodes| && sb.IBlock(i) < |view| && GetInode(view[sb.IBlock(i)], i % IPB) == inodes[i]
  }

  /** A consistent file system: block ownership, dense files, and every inode on disk. */
  ghost predicate Consistent(sb: Super, view: seq<Block>, inodes: seq<Inode>, owner: map<nat, Slot>) {
    && Owned(sb, view, inodes, owner) && sb.HasInodes(|inodes|)
    && (forall i :: 0 <= i < |inodes| ==> Dense(view, inodes[i]))
    && (forall i: nat :: i < |inodes| ==> StoredAt(sb, view, inodes, i))
  }

  lemma InodeBlock(sb: Super, n: nat, i: nat)
    requires sb.Ok() && sb.HasInodes(n) && i < n
    ensures sb.inodestart <= sb.IBlock(i) < sb.bmapstart
  {
  }

  /** iupdate on the blocks. */
  function Updated(sb: Super, view: seq<Block>, i: nat, ino: Inode): seq<Block>
    requires sb.IBlock(i) < |view|
  {
    view[sb.IBlock(i) := PutInode(view[sb.IBlock(i)], i % IPB, ino)]
  }

  lemma UpdatedStored(sb: Super, view: seq<Block>, inodes: seq<Inode>, i: nat)
    requires sb.Ok() && |view| == sb.size && sb.HasInodes(|inodes|) && i < |inodes|
    requires forall j: nat :: j < |inodes| && j != i ==> StoredAt(sb, view, inodes, j)
    ensures sb.IBlock(i) < |view| && forall j: nat :: j < |inodes| ==> StoredAt(sb, Updated(sb, view, i, inodes[i]), inodes, j)
  {
    InodeBlock(sb, |inodes|, i);
    StoredInode(view[sb.IBlock(i)], i % IPB, inodes[i]);
    forall j: nat | j < |inodes|
      ensures StoredAt(sb, Updated(sb, view, i, inodes[i]), inodes, j)
    {
      if j != i {
        assert StoredAt(sb, view, inodes, j);
        assert j / IPB == i / IPB ==> j % IPB != i % IPB;
      }
    }
  }

  /** Blocks of the inode area stay. */
  ghost predicate SameInodes(sb: Super, view: seq<Block>, view': seq<Block>) {
    |view'| == |view| && forall c :: sb.inodestart <= c < sb.bmapstart && c < |view| ==> view'[c] == view[c]
  }

  lemma StoredStays(sb: Super, view: seq<Block>, view': seq<Block>, inodes: seq<Inode>, i: nat)
    requires sb.Ok() && sb.HasInodes(|inodes|) && SameInodes(sb, view, view') && StoredAt(sb, view, inodes, i)
    ensures StoredAt(sb, view', inodes, i)
  {
    InodeBlock(sb, |inodes|, i);
  }

  // ---- the free map ----

  function Mark(sb: Super, view: seq<Block>, b: nat, v: bool): (r: seq<Block>)
    requires sb.Ok() && |view| == sb.size && b < sb.size
    ensures |r| == |view|
  {
    view[sb.BBlock(b) := PutBit(view[sb.BBlock(b)], b % BPB, v)]
  }

  lemma MarkBits(sb: Super, view: seq<Block>, b: nat, v: bool)
    requires sb.Ok() && |view| == sb.size && b < sb.size
    ensures forall c: nat :: c < sb.size ==> InUse(sb, Mark(sb, view, b, v), c) == if c == b then v else InUse(sb, view, c)
    ensures sb.BBlock(b) < sb.nmeta
    ensures forall c :: 0 <= c < |view| && c != sb.BBlock(b) ==> Mark(sb, view, b, v)[c] == view[c]
  {
    forall c: nat | c < sb.size
      ensures InUse(sb, Mark(sb, view, b, v), c) == if c == b then v else InUse(sb, view, c)
    {
      if c != b && sb.BBlock(c) == sb.BBlock(b) {
        assert c % BPB != b % BPB;
      }
    }
  }

  lemma SameBits(sb: Super, view: seq<Block>, view': seq<Block>)
    requires sb.Ok() && |view| == sb.size == |view'|
    requires forall c :: 0 <= c < sb.nmeta ==> view'[c] == view[c]
    ensures forall c: nat :: c < sb.size ==> InUse(sb, view', c) == InUse(sb, view, c)
  {
    forall c: nat | c < sb.size
      ensures InUse(sb, view', c) == InUse(sb, view, c)
    {
      assert sb.BBlock(c) < sb.nmeta;
    }
  }

  /** balloc's effect on the blocks: b is marked and zeroed. */
  function Taken(sb: Super, view: seq<Block>, b: nat): (r: seq<Block>)
    requires sb.Ok() && |view| == sb.size && b < sb.size
    ensures |r| == |view|
  {
    Mark(sb, view, b, true)[b := ZeroBlock()]
  }

  /** An indirect block is owned through slot 11, so it is neither metadata, nor free, nor
      a data block. */
  lemma IndirectBlocks(sb: Super, view: seq<Block>, inodes: seq<Inode>, owner: map<nat, Slot>, gone: nat, skip: nat, i: nat)
    requires OwnedBut(sb, view, inodes, owner, gone, skip) && i < |inodes| && inodes[i].addrs[NDIRECT] != 0
    ensures var a := inodes[i].addrs[NDIRECT];
            sb.nmeta <= a < sb.size && a in owner && owner[a] == Slot(i, NDIRECT)
  {
    assert Ref(view, inodes[i], NDIRECT) == inodes[i].addrs[NDIRECT];
  }

  /** Changing blocks that are not indirect blocks changes no Ref. */
  lemma SameRefs(view: seq<Block>, view': seq<Block>, ino: Inode)
    requires |view'| == |view|
    requires 0 < ino.addrs[NDIRECT] < |view| ==> view'[ino.addrs[NDIRECT]] == view[ino.addrs[NDIRECT]]
    ensures forall k: nat :: Ref(view', ino, k) == Ref(view, ino, k)
  {
  }

  lemma AllSameRefs(sb: Super, view: seq<Block>, view': seq<Block>, inodes: seq<Inode>, owner: map<nat, Slot>, gone: nat, skip: nat)
    requires OwnedBut(sb, view, inodes, owner, gone, skip) && |view'| == |view|
    requires forall b :: b in owner && owner[b].k == NDIRECT ==> view'[b] == view[b]
    ensures forall i, k: nat :: 0 <= i < |inodes| ==> Ref(view', inodes[i], k) == Ref(view, inodes[i], k)
  {
    forall i, k: nat | 0 <= i < |inodes|
      ensures Ref(view', inodes[i], k) == Ref(view, inodes[i], k)
    {
      if inodes[i].addrs[NDIRECT] != 0 {
        IndirectBlocks(sb, view, inodes, owner, gone, skip, i);
      }
      SameRefs(view, view', inodes[i]);
    }
  }

  /** Taking a free block disturbs no reference. */
  lemma TakenRefs(sb: Super, view: seq<Block>, inodes: seq<Inode>, owner: map<nat, Slot>, b: nat)
    requires Owned(sb, view, inodes, owner) && b < sb.size && !InUse(sb, view, b)
    ensures b >= sb.nmeta && b !in owner
    ensures forall i, k: nat :: 0 <= i < |inodes| ==> Ref(Taken(sb, view, b), inodes[i], k) == Ref(view, inodes[i], k)
    ensures forall c: nat :: c < sb.size ==> InUse(sb, Taken(sb, view, b), c) == (c == b || InUse(sb, view, c))
    ensures forall c :: c in owner ==> Taken(sb, view, b)[c] == view[c]
  {
    MarkBits(sb, view, b, true);
    AllSameRefs(sb, view, Taken(sb, view, b), inodes, owner, 0, 0);
  }

  // ---- attaching a fresh block ----

  function WithAddr(ino: Inode, k: nat, b: Word): Inode
    requires k <= NDIRECT
  {
    ino.(addrs := ino.addrs[k := b])
  }

  /** Exactly slot k of inode i changes, to b. */
  ghost predicate OneRef(view: seq<Block>, inodes: seq<Inode>, view': seq<Block>, inodes': seq<Inode>, i: nat, k: nat, b: nat) {
    && |inodes'| == |inodes|
    && forall j, m: nat :: 0 <= j < |inodes| && m < NSLOTS ==>
         Ref(view', inodes'[j], m) == if j == i && m == k then b else Ref(view, inodes[j], m)
  }

  /** Data blocks that were there keep their place and their contents. */
  ghost predicate Keeps(view: seq<Block>, inodes: seq<Inode>, view': seq<Block>, inodes': seq<Inode>) {
    && |view'| == |view| && |inodes'| == |inodes|
    && forall j, bn: nat :: 0 <= j < |inodes| && bn < MAXFILE && Ref(view, inodes[j], DataSlot(bn)) != 0 ==>
         && Ref(view', inodes'[j], DataSlot(bn)) == Ref(view, inodes[j], DataSlot(bn)) < |view|
         && view'[Ref(view, inodes[j], DataSlot(bn))] == view[Ref(view, inodes[j], DataSlot(bn))]
  }

  lemma NewOwner(sb: Super, view: seq<Block>, inodes: seq<Inode>, owner: map<nat, Slot>,
                 view': seq<Block>, inodes': seq<Inode>, i: nat, k: nat, b: nat)
    requires Owned(sb, view, inodes, owner) && i < |inodes| && k < NSLOTS && |view'| == |view|
    requires sb.nmeta <= b < sb.size && b !in owner && Ref(view, inodes[i], k) == 0
    requires OneRef(view, inodes, view', inodes', i, k, b)
    requires forall c: nat :: c < sb.size ==> InUse(sb, view', c) == (c == b || InUse(sb, view, c))
    ensures Owned(sb, view', inodes', owner[b := Slot(i, k)])
  {
  }

  lemma KeepsOwned(sb: Super, view: seq<Block>, inodes: seq<Inode>, owner: map<nat, Slot>,
                   view': seq<Block>, inodes': seq<Inode>, i: nat, k: nat, b: nat)
    requires Owned(sb, view, inodes, owner) && i < |inodes| && |view'| == |view|
    requires Ref(view, inodes[i], k) == 0 && OneRef(view, inodes, view', inodes', i, k, b)
    requires forall c :: c in owner && owner[c].k != NDIRECT ==> view'[c] == view[c]
    ensures Keeps(view, inodes, view', inodes')
  {
  }

  lemma EntryRefs(sb: Super, view: seq<Block>, view': seq<Block>, inodes: seq<Inode>, owner: map<nat, Slot>, i: nat, k: nat, b: Word)
    requires Owned(sb, view, inodes, owner) && i < |inodes| && 12 <= k < NSLOTS && |view'| == |view|
    requires 0 < inodes[i].addrs[NDIRECT] < |view|
    requires view'[inodes[i].addrs[NDIRECT]] == PutWord(view[inodes[i].addrs[NDIRECT]], k - 12, b)
    requires forall c :: c in owner && c != inodes[i].addrs[NDIRECT] ==> view'[c] == view[c]
    ensures OneRef(view, inodes, view', inodes, i, k, b)
  {
    IndirectBlocks(sb, view, inodes, owner, 0, 0, i);
    forall j, m: nat | 0 <= j < |inodes| && m < NSLOTS
      ensures Ref(view', inodes[j], m) == if j == i && m == k then b else Ref(view, inodes[j], m)
    {
      if j != i && inodes[j].addrs[NDIRECT] != 0 {
        IndirectBlocks(sb, view, inodes, owner, 0, 0, j);
        SameRefs(view, view', inodes[j]);
      }
    }
  }

  /** A direct address, or the indirect block itself. */
  lemma AttachAddr(sb: Super, view: seq<Block>, inodes: seq<Inode>, owner: map<nat, Slot>, i: nat, k: nat, b: Word)
    requires Owned(sb, view, inodes, owner) && i < |inodes| && k <= NDIRECT
    requires inodes[i].addrs[k] == 0 && b < sb.size && !InUse(sb, view, b)
    ensures var view', inodes' := Taken(sb, view, b), inodes[i := WithAddr(inodes[i], k, b)];
            && Owned(sb, view', inodes', owner[b := Slot(i, k)])
            && OneRef(view, inodes, view', inodes', i, k, b)
            && Keeps(view, inodes, view', inodes')
  {
    var view', inodes' := Taken(sb, view, b), inodes[i := WithAddr(inodes[i], k, b)];
    TakenRefs(sb, view, inodes, owner, b);
    forall j, m: nat | 0 <= j < |inodes| && m < NSLOTS
      ensures Ref(view', inodes'[j], m) == if j == i && m == k then b else Ref(view, inodes[j], m)
    {
      if j == i && m >= 12 && k == NDIRECT {
        ZeroWords(m - 12);
      }
    }
    NewOwner(sb, view, inodes, owner, view', inodes', i, k, b);
  }

  /** An entry of the indirect block. */
  lemma AttachEntry(sb: Super, view: seq<Block>, inodes: seq<Inode>, owner: map<nat, Slot>, i: nat, k: nat, b: Word)
    requires Owned(sb, view, inodes, owner) && i < |inodes| && 12 <= k < NSLOTS
    requires inodes[i].addrs[NDIRECT] != 0 && Ref(view, inodes[i], k) == 0
    requires b < sb.size && !InUse(sb, view, b)
    ensures var a := inodes[i].addrs[NDIRECT];
            && a < sb.size && a != b && Taken(sb, view, b)[a] == view[a]
            && var view' := Taken(sb, view, b)[a := PutWord(view[a], k - 12, b)];
               && Owned(sb, view', inodes, owner[b := Slot(i, k)])
               && OneRef(view, inodes, view', inodes, i, k, b)
               && Keeps(view, inodes, view', inodes)
  {
    var a := inodes[i].addrs[NDIRECT];
    IndirectBlocks(sb, view, inodes, owner, 0, 0, i);
    TakenRefs(sb, view, inodes, owner, b);
    var taken := Taken(sb, view, b);
    EntryTaken(sb, view, inodes, owner, i, k, b, a, taken, taken[a := PutWord(view[a], k - 12, b)]);
  }

  lemma EntryTaken(sb: Super, view: seq<Block>, inodes: seq<Inode>, owner: map<nat, Slot>, i: nat, k: nat, b: Word, a: Word,
                   taken: seq<Block>, view': seq<Block>)
    requires Owned(sb, view, inodes, owner) && i < |inodes| && 12 <= k < NSLOTS && sb.nmeta <= b < sb.size && b !in owner
    requires a == inodes[i].addrs[NDIRECT] && sb.nmeta <= a < sb.size && a in owner && owner[a].k == NDIRECT && Ref(view, inodes[i], k) == 0
    requires |taken| == |view| && (forall c :: c in owner ==> taken[c] == view[c])
    requires forall c: nat :: c < sb.size ==> InUse(sb, taken, c) == (c == b || InUse(sb, view, c))
    requires view' == taken[a := PutWord(view[a], k - 12, b)]
    ensures Owned(sb, view', inodes, owner[b := Slot(i, k)])
    ensures OneRef(view, inodes, view', inodes, i, k, b) && Keeps(view, inodes, view', inodes)
  {
    EntryRefs(sb, view, view', inodes, owner, i, k, b);
    KeepsOwned(sb, view, inodes, owner, view', inodes, i, k, b);
    SameBits(sb, taken, view');
    NewOwner(sb, view, inodes, owner, view', inodes, i, k, b);
  }

  // ---- the bytes of a file ----

  /** Byte p of a file, whether or not its size reaches it; 0 where no block is allocated. */
  function ByteAt(view: seq<Block>, ino: Inode, p: nat): Byte {
    var b := Ref(view, ino, DataSlot(p / BSIZE));
    if 0 < b < |view| then view[b][p % BSIZE] else 0
  }

  /** A file is a byte sequence. */
  function Content(view: seq<Block>, ino: Inode): (c: seq<Byte>)
    ensures |c| == ino.size
  {
    seq(ino.size, p requires 0 <= p < ino.size => ByteAt(view, ino, p))
  }

  /** What a write of src at off makes of the contents. */
  function Spliced(was: seq<Byte>, off: nat, src: seq<Byte>): seq<Byte>
    requires off <= |was|
  {
    was[..off] + src + if off + |src| <= |was| then was[off + |src|..] else []
  }

  /** Storing into a data block changes that block's bytes and nothing else. */
  lemma StoreData(sb: Super, view: seq<Block>, inodes: seq<Inode>, owner: map<nat, Slot>, i: nat, bn: nat, data: Block)
    requires Owned(sb, view, inodes, owner) && i < |inodes| && bn < MAXFILE
    requires Ref(view, inodes[i], DataSlot(bn)) != 0
    ensures var b := Ref(view, inodes[i], DataSlot(bn));
            && sb.nmeta <= b < sb.size
            && Owned(sb, view[b := data], inodes, owner)
            && (forall j, k: nat :: 0 <= j < |inodes| ==> Ref(view[b := data], inodes[j], k) == Ref(view, inodes[j], k))
            && (forall j, m: nat :: 0 <= j < |inodes| && m < MAXFILE && !(j == i && m == bn) ==>
                  Ref(view, inodes[j], DataSlot(m)) != b)
  {
    var b := Ref(view, inodes[i], DataSlot(bn));
    AllSameRefs(sb, view, view[b := data], inodes, owner, 0, 0);
    SameBits(sb, view, view[b := data]);
    SameOwners(sb, view, view[b := data], inodes, owner);
  }

  lemma SameOwners(sb: Super, view: seq<Block>, view': seq<Block>, inodes: seq<Inode>, owner: map<nat, Slot>)
    requires Owned(sb, view, inodes, owner) && |view'| == |view|
    requires forall j, k: nat :: 0 <= j < |inodes| ==> Ref(view', inodes[j], k) == Ref(view, inodes[j], k)
    requires forall c: nat :: c < sb.size ==> InUse(sb, view', c) == InUse(sb, view, c)
    ensures Owned(sb, view', inodes, owner)
  {
  }

  // ---- releasing blocks ----

  lemma Unmark(sb: Super, view: seq<Block>, inodes: seq<Inode>, owner: map<nat, Slot>, gone: nat, skip: nat, b: nat)
    returns (view': seq<Block>)
    requires OwnedBut(sb, view, inodes, owner, gone, skip) && b in owner
    ensures b < sb.size && InUse(sb, view, b) && view' == Mark(sb, view, b, false)
    ensures forall i, k: nat :: 0 <= i < |inodes| ==> Ref(view', inodes[i], k) == Ref(view, inodes[i], k)
    ensures forall c: nat :: c < sb.size ==> InUse(sb, view', c) == (c != b && InUse(sb, view, c))
    ensures forall c :: sb.nmeta <= c < |view| ==> view'[c] == view[c]
  {
    MarkBits(sb, view, b, false);
    view' := Mark(sb, view, b, false);
    AllSameRefs(sb, view, view', inodes, owner, gone, skip);
  }

  lemma DropOwner(sb: Super, view: seq<Block>, inodes: seq<Inode>, owner: map<nat, Slot>, gone: nat, skip: nat, b: nat,
                  view': seq<Block>, inodes': seq<Inode>, gone': nat, skip': nat)
    requires OwnedBut(sb, view, inodes, owner, gone, skip) && b in owner
    requires |view'| == |view| && |inodes'| == |inodes|
    requires forall j, m: nat :: 0 <= j < |inodes| && m < NSLOTS && !Skipped(j, m, gone', skip') && Ref(view', inodes'[j], m) != 0 ==>
               && Ref(view', inodes'[j], m) == Ref(view, inodes[j], m)
               && !Skipped(j, m, gone, skip) && Slot(j, m) != owner[b]
    requires forall c :: c in owner && c != b ==>
               && Ref(view', inodes'[owner[c].inum], owner[c].k) == Ref(view, inodes[owner[c].inum], owner[c].k)
               && !Skipped(owner[c].inum, owner[c].k, gone', skip')
    requires forall c: nat :: c < sb.size ==> InUse(sb, view', c) == (c != b && InUse(sb, view, c))
    ensures OwnedBut(sb, view', inodes', owner - {b}, gone', skip')
  {
  }

  /** itrunc gives up a direct block. */
  lemma ReleaseDirect(sb: Super, view: seq<Block>, inodes: seq<Inode>, owner: map<nat, Slot>, i: nat, k: nat)
    requires Owned(sb, view, inodes, owner) && i < |inodes| && k < NDIRECT && inodes[i].addrs[k] != 0
    ensures var b := inodes[i].addrs[k];
            && b in owner && owner[b] == Slot(i, k) && b < sb.size && InUse(sb, view, b)
            && Owned(sb, Mark(sb, view, b, false), inodes[i := WithAddr(inodes[i], k, 0)], owner - {b as nat})
  {
    var b := inodes[i].addrs[k];
    assert Ref(view, inodes[i], k) == b;
    var view' := Unmark(sb, view, inodes, owner, 0, 0, b);
    var inodes' := inodes[i := WithAddr(inodes[i], k, 0)];
    OneAddrLess(view, view', inodes, i, k);
    DropOwner(sb, view, inodes, owner, 0, 0, b, view', inodes', 0, 0);
  }

  lemma OneAddrLess(view: seq<Block>, view': seq<Block>, inodes: seq<Inode>, i: nat, k: nat)
    requires i < |inodes| && k < NDIRECT && |view'| == |view|
    requires forall j, m: nat :: 0 <= j < |inodes| ==> Ref(view', inodes[j], m) == Ref(view, inodes[j], m)
    ensures forall j, m: nat :: 0 <= j < |inodes| && m < NSLOTS ==>
              Ref(view', inodes[i := WithAddr(inodes[i], k, 0)][j], m) == if j == i && m == k then 0 else Ref(view, inodes[j], m)
  {
    forall m: nat | m < NSLOTS
      ensures Ref(view', WithAddr(inodes[i], k, 0), m) == if m == k then 0 else Ref(view, inodes[i], m)
    {
      assert Ref(view', inodes[i], m) == Ref(view, inodes[i], m);
    }
  }

  /** itrunc passes an unused entry of the indirect block. */
  lemma SkipEntry(sb: Super, view: seq<Block>, inodes: seq<Inode>, owner: map<nat, Slot>, i: nat, j: nat)
    requires OwnedBut(sb, view, inodes, owner, i, j) && i < |inodes| && j < NINDIRECT && Ref(view, inodes[i], 12 + j) == 0
    ensures OwnedBut(sb, view, inodes, owner, i, j + 1)
  {
  }

  /** itrunc gives up entry j of the indirect block, which still lists it. */
  lemma ReleaseEntry(sb: Super, view: seq<Block>, inodes: seq<Inode>, owner: map<nat, Slot>, i: nat, j: nat)
    requires OwnedBut(sb, view, inodes, owner, i, j) && i < |inodes| && j < NINDIRECT && Ref(view, inodes[i], 12 + j) != 0
    ensures var b := Ref(view, inodes[i], 12 + j);
            && b in owner && owner[b] == Slot(i, 12 + j) && b < sb.size && InUse(sb, view, b)
            && OwnedBut(sb, Mark(sb, view, b, false), inodes, owner - {b as nat}, i, j + 1)
  {
    var b := Ref(view, inodes[i], 12 + j);
    assert !Skipped(i, 12 + j, i, j);
    var view' := Unmark(sb, view, inodes, owner, i, j, b);
    forall n, m: nat | 0 <= n < |inodes| && m < NSLOTS && !Skipped(n, m, i, j + 1) && Ref(view', inodes[n], m) != 0
      ensures Ref(view', inodes[n], m) == Ref(view, inodes[n], m) && !Skipped(n, m, i, j) && Slot(n, m) != owner[b]
    {
    }
    forall c | c in owner && c != b
      ensures Ref(view', inodes[owner[c].inum], owner[c].k) == Ref(view, inodes[owner[c].inum], owner[c].k)
      ensures !Skipped(owner[c].inum, owner[c].k, i, j + 1)
    {
      assert owner[c] != Slot(i, 12 + j);
    }
    DropOwner(sb, view, inodes, owner, i, j, b, view', inodes, i, j + 1);
  }

  /** itrunc gives up the indirect block after all its entries. */
  lemma ReleaseIndirect(sb: Super, view: seq<Block>, inodes: seq<Inode>, owner: map<nat, Slot>, i: nat)
    requires OwnedBut(sb, view, inodes, owner, i, NINDIRECT) && i < |inodes| && inodes[i].addrs[NDIRECT] != 0
    ensures var a := inodes[i].addrs[NDIRECT];
            && a in owner && owner[a] == Slot(i, NDIRECT) && a < sb.size && InUse(sb, view, a)
            && Owned(sb, Mark(sb, view, a, false), inodes[i := WithAddr(inodes[i], NDIRECT, 0)], owner - {a as nat})
  {
    var a := inodes[i].addrs[NDIRECT];
    IndirectBlocks(sb, view, inodes, owner, i, NINDIRECT, i);
    var view' := Unmark(sb, view, inodes, owner, i, NINDIRECT, a);
    var inodes' := inodes[i := WithAddr(inodes[i], NDIRECT, 0)];
    NoIndirect(view, view', inodes, i);
    DropOwner(sb, view, inodes, owner, i, NINDIRECT, a, view', inodes', 0, 0);
  }

  lemma NoIndirect(view: seq<Block>, view': seq<Block>, inodes: seq<Inode>, i: nat)
    requires i < |inodes| && |view'| == |view|
    requires forall j, m: nat :: 0 <= j < |inodes| ==> Ref(view', inodes[j], m) == Ref(view, inodes[j], m)
    ensures forall j, m: nat :: 0 <= j < |inodes| && m < NSLOTS ==>
              Ref(view', inodes[i := WithAddr(inodes[i], NDIRECT, 0)][j], m) == if j == i && m >= NDIRECT then 0 else Ref(view, inodes[j], m)
  {
    forall m: nat | m < NSLOTS
      ensures Ref(view', WithAddr(inodes[i], NDIRECT, 0), m) == if m >= NDIRECT then 0 else Ref(view, inodes[i], m)
    {
      assert Ref(view', inodes[i], m) == Ref(view, inodes[i], m);
    }
  }
}
