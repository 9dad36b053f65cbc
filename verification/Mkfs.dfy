/** mkfs.c: the program that builds the first file system image. */
module Mkfs {
  import opened Blocks
  import opened Inodes
  import opened Growth
  import W = Writing
  import Fs
  import opened Options

  /** Exactly the first n bits of the bitmap block are set. */
  ghost predicate Marks(blk: Block, n: nat) {
    forall i: nat :: i < BPB ==> GetBit(blk, i) == (i < n)
  }

  lemma NoMarks()
    ensures Marks(ZeroBlock(), 0)
  {
    forall i: nat | i < BPB
      ensures !GetBit(ZeroBlock(), i)
    {
      ZeroBit(i % 8);
    }
  }

  lemma ZeroBit(k: nat)
    ensures !ByteBit(0, k)
  {
  }

  lemma MoreMarks(blk: Block, n: nat)
    requires Marks(blk, n) && n < BPB
    ensures !GetBit(blk, n) && Marks(PutBit(blk, n, true), n + 1)
  {
  }

  /** img is the image view except for a bitmap recording that the first n blocks are in use. */
  ghost predicate Bitmapped(sb: Super, view: seq<Block>, img: seq<Block>, n: nat) {
    && |img| == |view| && sb.bmapstart < |view|
    && Marks(img[sb.bmapstart], n)
    && forall b :: 0 <= b < |view| && b != sb.bmapstart ==> img[b] == view[b]
  }

  /** No block is allocated beyond the end of the file. */
  ghost predicate Tight(view: seq<Block>, ino: Inode) {
    forall bn: nat :: bn < MAXFILE && Ref(view, ino, DataSlot(bn)) != 0 ==> bn * BSIZE < ino.size
  }

  lemma BitmapGrows(sb: Super, view: seq<Block>, img: seq<Block>, b: nat)
    requires sb.Ok() && sb.size <= BPB && |view| == sb.size && sb.nmeta <= b < sb.size && view[b] == ZeroBlock()
    requires Bitmapped(sb, view, img, b)
    ensures !InUse(sb, img, b) && Bitmapped(sb, view, Taken(sb, img, b), b + 1)
  {
    assert b / BPB == 0 && b % BPB == b;
    MoreMarks(img[sb.bmapstart], b);
  }

  lemma UsedBelow(sb: Super, view: seq<Block>, img: seq<Block>, n: nat, b: nat)
    requires sb.Ok() && sb.size <= BPB && |view| == sb.size && b < sb.size
    requires Bitmapped(sb, view, img, n) && InUse(sb, img, b)
    ensures b < n
  {
    assert b / BPB == 0 && b % BPB == b;
  }

  /** Rounding the root directory's size up to whole blocks leaves it dense exactly if the
      size was not a whole number of blocks already. */
  lemma RoundedDense(view: seq<Block>, ino: Inode)
    requires Dense(view, ino) && Tight(view, ino)
    ensures Dense(view, ino.(size := (ino.size / BSIZE + 1) * BSIZE)) <==> ino.size % BSIZE != 0
  {
    var size := (ino.size / BSIZE + 1) * BSIZE;
    var ino' := ino.(size := size);
    assert forall k: nat :: Ref(view, ino', k) == Ref(view, ino, k);
    if ino.size % BSIZE != 0 {
      forall bn: nat | bn * BSIZE < size
        ensures Ref(view, ino', DataSlot(bn)) != 0
      {
        assert bn <= ino.size / BSIZE;
        assert bn * BSIZE < ino.size;
      }
    } else if size <= MAXFILE * BSIZE {
      var bn := ino.size / BSIZE;
      assert bn * BSIZE == ino.size < size;
      assert Ref(view, ino, DataSlot(bn)) == 0;
    }
  }

  /** The bitmap block as the loop of mkfs's balloc builds it. */
  function FirstBits(n: nat): (b: Block)
    requires n <= BPB
    ensures Marks(b, n)
  {
    if n == 0 then NoMarks(); ZeroBlock() else
    var k := n - 1;
    var before := FirstBits(k);
    MoreMarks(before, k);
    PutBit(before, k, true)
  }

  function BootImage(sb: Super): (img: seq<Block>)
    requires sb.Ok() && sb.size <= BPB
    ensures |img| == sb.size
  {
    seq(sb.size, i => ZeroBlock())[sb.bmapstart := FirstBits(sb.nmeta)]
  }

  function NoAddrs(): Addrs {
    [0, 0, 0, 0, 0, 0, 0, 0, 0, 0, 0, 0]
  }

  /** An inode block of zeroes holds empty inodes. */
  lemma ZeroInode(slot: nat)
    requires slot < IPB
    ensures GetInode(ZeroBlock(), slot) == Inode(0, NoAddrs())
  {
    var got := GetWords(ZeroBlock(), DINODE * slot + 3, 12);
    forall k | 0 <= k < 12
      ensures got[k] == NoAddrs()[k]
    {
      ZeroWords(DINODE * slot + 3 + k);
    }
    assert got == NoAddrs();
    ZeroWords(DINODE * slot + 2);
  }

  /** The zeroed image with its metadata marked, and ninodes empty inodes, is consistent. */
  lemma BootConsistent(sb: Super, inodes: seq<Inode>)
    requires sb.Ok() && sb.size <= BPB && sb.HasInodes(|inodes|)
    requires forall i :: 0 <= i < |inodes| ==> inodes[i] == Inode(0, NoAddrs())
    ensures Consistent(sb, BootImage(sb), inodes, map[])
  {
    var img := BootImage(sb);
    forall i: nat | i < |inodes|
      ensures StoredAt(sb, img, inodes, i)
    {
      InodeBlock(sb, |inodes|, i);
      ZeroInode(i % IPB);
    }
    forall b: nat | b < sb.size
      ensures InUse(sb, img, b) == (b < sb.nmeta)
    {
      assert b / BPB == 0 && b % BPB == b;
    }
  }

  /** The loop of mkfs's balloc. */
  method BitmapBlock(used: nat) returns (buf: Block)
    requires used <= BPB
    ensures Marks(buf, used)
  {
    buf := ZeroBlock();
    NoMarks();
    var i := 0;
    while i < used
      invariant 0 <= i <= used && Marks(buf, i)
    {
      MoreMarks(buf, i);
      buf := buf[i / 8 := PutByteBit(buf[i / 8], i % 8, true)];
      i := i + 1;
    }
  }

  class Image {
    const sb: Super
    var view: seq<Block>
    var inodes: seq<Inode>      // what rinode gives, while iappend runs the inode it works on
    var freeblock: nat
    ghost var owner: map<nat, Slot>
    ghost var img: seq<Block>   // the image with the bitmap that balloc will write in the end

    ghost function Now(): W.Stage
      reads this
    {
      W.Stage(img, inodes, owner, 0)
    }

    /** Blocks are handed out in order; the bitmap will mark exactly the first freeblock. */
    ghost predicate Sound()
      reads this
    {
      && sb.Ok() && sb.size <= BPB && |view| == sb.size && sb.nmeta <= freeblock <= sb.size
      && Bitmapped(sb, view, img, freeblock)
      && Owned(sb, img, inodes, owner)
      && (forall b :: freeblock <= b < sb.size ==> view[b] == ZeroBlock())
    }

    ghost predicate Valid()
      reads this
    {
      && Sound() && Consistent(sb, img, inodes, owner)
      && forall i :: 0 <= i < |inodes| ==> Tight(img, inodes[i])
    }

    /** All sectors zero; ninodes empty inodes. */
    constructor (sb: Super, ninodes: nat)
      requires sb.Ok() && sb.size <= BPB && sb.HasInodes(ninodes)
      ensures Valid() && this.sb == sb && freeblock == sb.nmeta
      ensures |inodes| == ninodes && forall i :: 0 <= i < ninodes ==> Content(img, inodes[i]) == []
    {
      this.sb := sb;
      view := seq(sb.size, i => ZeroBlock());
      inodes := seq(ninodes, i => Inode(0, NoAddrs()));
      freeblock := sb.nmeta;
      owner := map[];
      img := BootImage(sb);
      BootConsistent(sb, seq(ninodes, i => Inode(0, NoAddrs())));
    }

    /** The next block in order becomes address k of inode i. */
    method TakeAddr(i: nat, k: nat)
      requires Sound() && i < |inodes| && k <= NDIRECT && inodes[i].addrs[k] == 0 && freeblock < sb.size
      modifies this`inodes, this`freeblock, this`owner, this`img
      ensures Sound() && W.Fills(sb, old(img), old(inodes), old(owner), img, inodes, owner, i, {k})
      ensures inodes[i].addrs[k] != 0
    {
      BitmapGrows(sb, view, img, freeblock);
      W.AddrFills(sb, img, inodes, owner, i, k, freeblock);
      inodes := inodes[i := WithAddr(inodes[i], k, freeblock)];
      owner := owner[freeblock := Slot(i, k)];
      img := Taken(sb, img, freeblock);
      freeblock := freeblock + 1;
    }

    /** The next block in order becomes an entry of the indirect block, which is written back. */
    method TakeEntry(i: nat, k: nat)
      requires Sound() && i < |inodes| && 12 <= k < NSLOTS && inodes[i].addrs[NDIRECT] != 0
      requires Ref(img, inodes[i], k) == 0 && freeblock < sb.size
      modifies this`view, this`freeblock, this`owner, this`img
      ensures Sound() && W.Fills(sb, old(img), inodes, old(owner), img, inodes, owner, i, {k})
      ensures Ref(img, inodes[i], k) != 0
    {
      var a := inodes[i].addrs[NDIRECT];
      ghost var img' := NextEntry(sb, view, img, freeblock, inodes, owner, i, k);
      view := view[a := PutWord(view[a], k - 12, freeblock)];
      img := img';
      owner := owner[freeblock := Slot(i, k)];
      freeblock := freeblock + 1;
    }

    /** The block of iappend's fbn, handed out if it is not there; false if the image is full. */
    method MapBlock(i: nat, fbn: nat) returns (ok: bool, ghost got: set<nat>)
      requires Sound() && i < |inodes| && fbn < MAXFILE
      modifies this`view, this`inodes, this`freeblock, this`owner, this`img
      ensures Sound() && W.Fills(sb, old(img), old(inodes), old(owner), img, inodes, owner, i, got)
      ensures ok ==> got == MapNeed(old(img), old(inodes)[i], fbn) && Ref(img, inodes[i], DataSlot(fbn)) != 0
      ensures !ok ==> got < MapNeed(old(img), old(inodes)[i], fbn) && freeblock == sb.size
    {
      ok, got := true, {};
      W.FillsNothing(sb, img, inodes, owner, i);
      if fbn < NDIRECT {
        if inodes[i].addrs[fbn] == 0 {
          if freeblock == sb.size {
            ok := false;
            return;
          }
          TakeAddr(i, fbn);
          got := {fbn};
        }
      } else {
        ok, got := MapFar(i, fbn);
      }
    }

    /** The block of fbn beyond the direct ones. */
    method MapFar(i: nat, fbn: nat) returns (ok: bool, ghost got: set<nat>)
      requires Sound() && i < |inodes| && NDIRECT <= fbn < MAXFILE
      modifies this`view, this`inodes, this`freeblock, this`owner, this`img
      ensures Sound() && W.Fills(sb, old(img), old(inodes), old(owner), img, inodes, owner, i, got)
      ensures ok ==> got == MapNeed(old(img), old(inodes)[i], fbn) && Ref(img, inodes[i], DataSlot(fbn)) != 0
      ensures !ok ==> got < MapNeed(old(img), old(inodes)[i], fbn) && freeblock == sb.size
    {
      ghost var s0 := Now();
      got := {};
      W.FillsNothing(sb, img, inodes, owner, i);
      if inodes[i].addrs[NDIRECT] == 0 {
        if freeblock == sb.size {
          FullAtIndirect(img, inodes[i], fbn);
          ok := false;
          return;
        }
        TakeAddr(i, NDIRECT);
        got := {NDIRECT};
      }
      ghost var s1, more := Now(), {};
      ok, more := MapEntry(i, DataSlot(fbn));
      W.Joined(sb, s0.view, s0.inodes, s0.owner, s1.view, s1.inodes, s1.owner, img, inodes, owner, i, fbn, got, more,
               {}, MapLog(sb, s1.view, s1.inodes[i], got), MapLog(sb, s1.view, s1.inodes[i], got) + MapLog(sb, img, inodes[i], more));
      got := got + more;
    }

    /** An entry of the indirect block, handed out if it is not there. */
    method MapEntry(i: nat, k: nat) returns (ok: bool, ghost got: set<nat>)
      requires Sound() && i < |inodes| && 12 <= k < NSLOTS && inodes[i].addrs[NDIRECT] != 0
      modifies this`view, this`freeblock, this`owner, this`img
      ensures Sound() && W.Fills(sb, old(img), inodes, old(owner), img, inodes, owner, i, got)
      ensures got == if ok && Ref(old(img), inodes[i], k) == 0 then {k} else {}
      ensures if ok then Ref(img, inodes[i], k) != 0 else Ref(old(img), inodes[i], k) == 0 && freeblock == sb.size
    {
      var a := inodes[i].addrs[NDIRECT];
      IndirectBlocks(sb, img, inodes, owner, 0, 0, i);
      ok, got := true, {};
      W.FillsNothing(sb, img, inodes, owner, i);
      if GetWord(view[a], k - 12) == 0 {
        if freeblock == sb.size {
          ok := false;
          return;
        }
        TakeEntry(i, k);
        got := {k};
      }
    }

    /** The block number of fbn, from the inode or from its indirect block. */
    method BlockOf(i: nat, fbn: nat) returns (x: Word)
      requires Sound() && i < |inodes| && fbn < MAXFILE && Ref(img, inodes[i], DataSlot(fbn)) != 0
      ensures x == Ref(img, inodes[i], DataSlot(fbn))
    {
      if fbn < NDIRECT {
        return inodes[i].addrs[fbn];
      }
      IndirectBlocks(sb, img, inodes, owner, 0, 0, i);
      x := GetWord(view[inodes[i].addrs[NDIRECT]], fbn - NDIRECT);
    }

    /** The block is read, the chunk copied into it, and it is written back. */
    method PatchBlock(i: nat, chunk: seq<Byte>, at: nat, fbn: nat, ghost s0: W.Stage, ghost off: nat, ghost done: seq<Byte>)
      requires Sound() && i < |inodes| && fbn == at / BSIZE < MAXFILE && Ref(img, inodes[i], DataSlot(fbn)) != 0
      requires W.Written(s0.view, s0.inodes, img, inodes, i, off, done) && s0.inodes[i].size <= MAXFILE * BSIZE
      requires at == off + |done| && 0 < |chunk| && at % BSIZE + |chunk| <= BSIZE && at + |chunk| <= MAXFILE * BSIZE
      modifies this`view, this`img
      ensures Sound() && W.Written(s0.view, s0.inodes, img, inodes, i, off, done + chunk)
      ensures GrownBy(sb, old(img), inodes, owner, img, inodes, owner, i, {})
    {
      var x := BlockOf(i, fbn);
      UsedBelow(sb, view, img, freeblock, x);
      var data := W.Patched(view[x], at % BSIZE, chunk);
      StoreData(sb, img, inodes, owner, i, fbn, data);
      GrownStore(sb, img, inodes, owner, i, x, data);
      StoreBitmapped(sb, view, img, freeblock, x, data);
      ghost var img1 := img;
      view := view[x := data];
      img := img[x := data];
      W.WrittenStored(sb, owner, s0.view, s0.inodes, img1, inodes, i, off, done, chunk, at, x, img);
    }

    /** MapBlock, as a step from the stage s1. */
    method MapFrom(i: nat, fbn: nat, ghost s1: W.Stage) returns (ok: bool, ghost got: set<nat>)
      requires Sound() && i < |inodes| && fbn < MAXFILE && s1 == Now()
      modifies this`view, this`inodes, this`freeblock, this`owner, this`img
      ensures Sound() && i < |inodes| && W.Fills(sb, s1.view, s1.inodes, s1.owner, img, inodes, owner, i, got)
      ensures ok ==> got == MapNeed(s1.view, s1.inodes[i], fbn) && Ref(img, inodes[i], DataSlot(fbn)) != 0
      ensures !ok ==> got < MapNeed(s1.view, s1.inodes[i], fbn) && Free(sb, img) == {}
    {
      ok, got := MapBlock(i, fbn);
      if !ok {
        NoneFree(sb, view, img, freeblock);
      }
    }

    /** The rest of a round once its block is there. */
    method PatchMapped(i: nat, ghost xp: seq<Byte>, chunk: seq<Byte>, at: nat, fbn: nat, ghost s0: W.Stage, ghost s1: W.Stage,
                       ghost off: nat, ghost tot: nat, ghost m: nat, ghost next: nat, ghost got: set<nat>, ghost done: seq<Byte>)
      requires Sound() && i < |inodes| && fbn == at / BSIZE < MAXFILE && Ref(img, inodes[i], DataSlot(fbn)) != 0
      requires W.Fills(sb, s1.view, s1.inodes, s1.owner, img, inodes, owner, i, got) && i < |s0.inodes| && s0.inodes[i].size <= MAXFILE * BSIZE
      requires at == off + |done| && 0 < |chunk| && at % BSIZE + |chunk| <= BSIZE && at + |chunk| <= MAXFILE * BSIZE
      requires W.Doing(sb, s0, s1, i, off, xp, tot) && next == tot + m <= |xp| && W.Round(off, tot, m, fbn)
      requires W.Aligned(off, next, |xp|) && done == xp[..tot] && chunk == xp[tot..next]
      requires got == MapNeed(s1.view, s1.inodes[i], fbn)
      modifies this`view, this`img
      ensures Sound() && W.Doing(sb, s0, Now(), i, off, xp, next)
    {
      ghost var s2 := Now();
      W.WrittenMapped(s0.view, s0.inodes, s1.view, s1.inodes, img, inodes, i, off, done);
      PatchBlock(i, chunk, at, fbn, s0, off, done);
      W.RoundOver(sb, s0, s1, s2, Now(), i, off, xp, tot, m, next, fbn, got, done, chunk);
    }

    /** One round of iappend's loop: find the block, patch it. */
    method AppendRound(i: nat, xp: seq<Byte>, off: nat, tot: nat, ghost s0: W.Stage) returns (ok: bool, next: nat)
      requires Sound() && W.Started(sb, s0, i, off) && tot < |xp| && W.Doing(sb, s0, Now(), i, off, xp, tot)
      requires (off + tot) / BSIZE < MAXFILE
      modifies this`view, this`inodes, this`freeblock, this`owner, this`img
      ensures tot < next <= |xp|
      ensures ok ==> Sound() && W.Doing(sb, s0, Now(), i, off, xp, next) && off + next <= MAXFILE * BSIZE
      ensures !ok ==> W.TooFew(sb, s0.view, s0.inodes, i, off, |xp|)
    {
      var at, fbn, m;
      at, fbn, m, next := NextRound(off, tot, |xp|);
      var chunk := xp[tot..next];
      ghost var done, s1 := xp[..tot], Now();
      ghost var got;
      assert |done| == tot && |chunk| == m;
      ok, got := MapFrom(i, fbn, s1);
      if ok {
        PatchMapped(i, xp, chunk, at, fbn, s0, s1, off, tot, m, next, got, done);
      } else {
        W.OutOf(sb, s0, s1, Now(), i, off, xp, tot, m, next, fbn, got);
      }
    }

    /** iappend: the file grows by xp; the other files stay. It fails exactly when the file would
        become too large or the image has too few blocks left. */
    method Iappend(i: nat, xp: seq<Byte>) returns (ok: bool)
      requires Valid() && i < |inodes|
      modifies this
      ensures ok <==> old(inodes[i].size + |xp| <= MAXFILE * BSIZE && |Need(img, inodes[i], inodes[i].size, |xp|)| <= sb.size - freeblock)
      ensures ok ==>
                && Valid() && |inodes| == |old(inodes)|
                && Content(img, inodes[i]) == old(Content(img, inodes[i])) + xp
                && (forall j :: 0 <= j < |inodes| && j != i ==>
                      inodes[j] == old(inodes)[j] && Content(img, inodes[j]) == Content(old(img), old(inodes)[j]))
    {
      ghost var s0 := Now();
      var off := inodes[i].size;
      LeftFree(sb, view, img, freeblock);
      W.DoingStart(sb, s0, i, off, xp);
      var tot := 0;
      while tot < |xp|
        invariant 0 <= tot <= |xp| && Sound() && W.Doing(sb, s0, Now(), i, off, xp, tot) && off + tot <= MAXFILE * BSIZE
      {
        if (off + tot) / BSIZE >= MAXFILE {
          return false;
        }
        ok, tot := AppendRound(i, xp, off, tot, s0);
        if !ok {
          return false;
        }
      }
      W.EnoughFree(sb, s0, Now(), i, off, xp);
      SetSize(i, off, xp, s0);
      return true;
    }

    /** The new size goes into the inode, and winode writes it. */
    method SetSize(i: nat, off: nat, xp: seq<Byte>, ghost s0: W.Stage)
      requires Sound() && W.Started(sb, s0, i, off) && off == s0.inodes[i].size && W.Doing(sb, s0, Now(), i, off, xp, |xp|)
      requires off + |xp| <= MAXFILE * BSIZE && forall j :: 0 <= j < |s0.inodes| ==> Tight(s0.view, s0.inodes[j])
      modifies this`inodes, this`view, this`img
      ensures Valid() && |inodes| == |s0.inodes|
      ensures Content(img, inodes[i]) == Content(s0.view, s0.inodes[i]) + xp
      ensures forall j :: 0 <= j < |inodes| && j != i ==> inodes[j] == s0.inodes[j] && Content(img, inodes[j]) == Content(s0.view, s0.inodes[j])
    {
      ghost var s1 := Now();
      assert xp[..|xp|] == xp;
      inodes := inodes[i := inodes[i].(size := off + |xp|)];
      W.StoredOthers(sb, s0, s1, i, inodes);
      Winode(i);
      W.GrownDone(sb, s0, s1, Now(), i, off, xp);
      StillTight(s0, s1, Now(), i, off, xp);
      Appended(Content(s0.view, s0.inodes[i]), xp);
      assert Owned(sb, img, inodes, owner);
    }

    /** winode: the inode into its place in its block. */
    method Winode(i: nat)
      requires sb.Ok() && |view| == sb.size && Bitmapped(sb, view, img, freeblock) && sb.nmeta <= freeblock
      requires sb.HasInodes(|inodes|) && i < |inodes| && forall j: nat :: j < |inodes| && j != i ==> StoredAt(sb, img, inodes, j)
      requires forall b :: freeblock <= b < sb.size ==> view[b] == ZeroBlock()
      modifies this`view, this`img
      ensures sb.IBlock(i) < |old(img)| && img == Updated(sb, old(img), i, inodes[i]) && |view| == sb.size
      ensures Bitmapped(sb, view, img, freeblock) && forall j: nat :: j < |inodes| ==> StoredAt(sb, img, inodes, j)
      ensures forall b :: freeblock <= b < sb.size ==> view[b] == ZeroBlock()
    {
      InodeBlock(sb, |inodes|, i);
      UpdatedStored(sb, img, inodes, i);
      var bn := sb.IBlock(i);
      StoreBitmapped(sb, view, img, freeblock, bn, PutInode(view[bn], i % IPB, inodes[i]));
      img := img[bn := PutInode(view[bn], i % IPB, inodes[i])];
      view := view[bn := PutInode(view[bn], i % IPB, inodes[i])];
    }

    /** The end of main: the root directory's size goes up to the next multiple of BSIZE. */
    method FixRoot(root: nat)
      requires Valid() && root < |inodes|
      modifies this`inodes, this`view, this`img
      ensures Sound() && |inodes| == |old(inodes)| && sb.HasInodes(|inodes|)
      ensures inodes[root].size == (old(inodes)[root].size / BSIZE + 1) * BSIZE
      ensures forall j: nat :: j < |inodes| ==> StoredAt(sb, img, inodes, j)
      ensures forall j :: 0 <= j < |inodes| && j != root ==> Dense(img, inodes[j])
      ensures Dense(img, inodes[root]) <==> old(inodes)[root].size % BSIZE != 0
    {
      ghost var s0 := Now();
      var off := (inodes[root].size / BSIZE + 1) * BSIZE;
      assert inodes[root].size <= MAXFILE * BSIZE;
      RoundedDense(img, inodes[root]);
      inodes := inodes[root := inodes[root].(size := off)];
      W.ResizeOwned(sb, img, s0.inodes, owner, root, off);
      W.StoredOthers(sb, s0, s0, root, inodes);
      Winode(root);
      InodeBlock(sb, |inodes|, root);
      W.UpdatedKeeps(sb, s0.view, inodes, owner, sb.IBlock(root), img[sb.IBlock(root)]);
      assert img == s0.view[sb.IBlock(root) := img[sb.IBlock(root)]];
      SameDense(s0.view, img, inodes);
    }

    /** mkfs's own balloc: the image on disk now satisfies what fs.c relies on. */
    method WriteBitmap() returns (ok: bool)
      requires Sound() && sb.HasInodes(|inodes|) && forall j: nat :: j < |inodes| ==> StoredAt(sb, img, inodes, j)
      modifies this`view
      ensures ok <==> freeblock < BPB
      ensures ok ==> Owned(sb, view, inodes, owner) && forall j: nat :: j < |inodes| ==> StoredAt(sb, view, inodes, j)
      ensures ok ==> forall j :: 0 <= j < |inodes| ==> (Dense(view, inodes[j]) <==> Dense(img, inodes[j]))
    {
      if freeblock >= BPB {
        return false;
      }
      var buf := BitmapBlock(freeblock);
      view := view[sb.bmapstart := buf];
      SameImage(sb, img, view, inodes, owner, freeblock);
      return true;
    }

    /** The end of mkfs, and the file system that the kernel then finds: it satisfies the
        invariant of fs.c if and only if the root directory did not end on a block boundary. */
    method Finish(root: nat) returns (fs: Option<Fs.FileSystem>)
      requires Valid() && root < |inodes|
      modifies this`inodes, this`view, this`img
      ensures fs.None? <==> freeblock >= BPB
      ensures fs.Some? ==> (fs.value.Valid() <==> old(inodes)[root].size % BSIZE != 0)
    {
      FixRoot(root);
      var ok := WriteBitmap();
      if !ok {
        return None;
      }
      var f := new Fs.FileSystem(sb, view, inodes, owner);
      return Some(f);
    }
  }

  lemma FullAtIndirect(view: seq<Block>, ino: Inode, bn: nat)
    requires ino.addrs[NDIRECT] == 0 && NDIRECT <= bn < MAXFILE
    ensures {} < MapNeed(view, ino, bn)
  {
    assert Ref(view, ino, DataSlot(bn)) == 0;
    assert NDIRECT in MapNeed(view, ino, bn);
  }

  /** How far the next round of iappend goes: to the end of the block or of the data. */
  method NextRound(off: nat, tot: nat, n: nat) returns (at: nat, bn: nat, m: nat, next: nat)
    requires tot < n && W.Aligned(off, tot, n) && (off + tot) / BSIZE < MAXFILE
    ensures at == off + tot && bn == at / BSIZE && next == tot + m
    ensures W.Round(off, tot, m, bn) && tot < next <= n && W.Aligned(off, next, n)
    ensures at % BSIZE + m <= BSIZE && at + m <= MAXFILE * BSIZE && off + next <= MAXFILE * BSIZE
  {
    at := off + tot;
    bn := at / BSIZE;
    m := if n - tot < (bn + 1) * BSIZE - at then n - tot else (bn + 1) * BSIZE - at;
    next := tot + m;
    assert at == bn * BSIZE + at % BSIZE;
    assert (bn + 1) * BSIZE - at == BSIZE - at % BSIZE;
  }

  /** The free blocks are those not handed out. */
  lemma LeftFree(sb: Super, view: seq<Block>, img: seq<Block>, n: nat)
    requires sb.Ok() && sb.size <= BPB && |view| == sb.size && Bitmapped(sb, view, img, n) && n <= sb.size
    ensures |Free(sb, img)| == sb.size - n
  {
    forall b: nat | b < sb.size
      ensures InUse(sb, img, b) == (b < n)
    {
      assert b / BPB == 0 && b % BPB == b;
    }
    assert Free(sb, img) == Interval(n, sb.size);
  }

  lemma NoneFree(sb: Super, view: seq<Block>, img: seq<Block>, n: nat)
    requires sb.Ok() && sb.size <= BPB && |view| == sb.size && Bitmapped(sb, view, img, n) && n == sb.size
    ensures Free(sb, img) == {}
  {
    LeftFree(sb, view, img, n);
  }

  lemma Appended(c: seq<Byte>, xp: seq<Byte>)
    ensures Spliced(c, |c|, xp) == c + xp
  {
  }

  /** Only slots that the write spans have been filled. */
  lemma StillTight(s0: W.Stage, s1: W.Stage, s: W.Stage, i: nat, off: nat, xp: seq<Byte>)
    requires i < |s0.inodes| && off == s0.inodes[i].size && RefsFilled(s0.view, s0.inodes, s1.view, s1.inodes, i, Need(s0.view, s0.inodes[i], off, |xp|))
    requires OnlyAddrs(s0.inodes, s1.inodes, i) && off + |xp| <= MAXFILE * BSIZE && s.inodes == s1.inodes[i := s1.inodes[i].(size := off + |xp|)]
    requires forall j :: 0 <= j < |s0.inodes| ==> Tight(s0.view, s0.inodes[j])
    requires forall j, k: nat :: 0 <= j < |s.inodes| ==> Ref(s.view, s.inodes[j], k) == Ref(s1.view, s1.inodes[j], k)
    ensures forall j :: 0 <= j < |s.inodes| ==> Tight(s.view, s.inodes[j])
  {
    forall j, bn: nat | 0 <= j < |s.inodes| && bn < MAXFILE && Ref(s.view, s.inodes[j], DataSlot(bn)) != 0
      ensures bn * BSIZE < s.inodes[j].size
    {
      assert Ref(s1.view, s1.inodes[j], DataSlot(bn)) != 0;
      if j == i && DataSlot(bn) in Need(s0.view, s0.inodes[i], off, |xp|) {
        assert bn <= (off + |xp| - 1) / BSIZE;
      } else {
        assert Tight(s0.view, s0.inodes[j]) && Ref(s0.view, s0.inodes[j], DataSlot(bn)) != 0;
      }
    }
  }

  lemma SameDense(view: seq<Block>, view': seq<Block>, inodes: seq<Inode>)
    requires forall j, k: nat :: 0 <= j < |inodes| ==> Ref(view', inodes[j], k) == Ref(view, inodes[j], k)
    ensures forall j :: 0 <= j < |inodes| ==> (Dense(view', inodes[j]) <==> Dense(view, inodes[j]))
  {
  }

  lemma NextEntry(sb: Super, view: seq<Block>, img: seq<Block>, n: nat, inodes: seq<Inode>, owner: map<nat, Slot>, i: nat, k: nat)
    returns (img': seq<Block>)
    requires sb.Ok() && sb.size <= BPB && |view| == sb.size && sb.nmeta <= n < sb.size && view[n] == ZeroBlock()
    requires Bitmapped(sb, view, img, n) && Owned(sb, img, inodes, owner)
    requires i < |inodes| && 12 <= k < NSLOTS && inodes[i].addrs[NDIRECT] != 0 && Ref(img, inodes[i], k) == 0
    ensures inodes[i].addrs[NDIRECT] < n
    ensures Bitmapped(sb, view[inodes[i].addrs[NDIRECT] := PutWord(view[inodes[i].addrs[NDIRECT]], k - 12, n)], img', n + 1)
    ensures Owned(sb, img', inodes, owner[n := Slot(i, k)])
    ensures Ref(img', inodes[i], k) != 0 && W.Fills(sb, img, inodes, owner, img', inodes, owner[n := Slot(i, k)], i, {k})
  {
    var a := inodes[i].addrs[NDIRECT];
    IndirectBlocks(sb, img, inodes, owner, 0, 0, i);
    UsedBelow(sb, view, img, n, a);
    BitmapGrows(sb, view, img, n);
    var owner';
    img', owner' := W.EntryFills(sb, img, inodes, owner, i, k, n);
    StoreBitmapped(sb, view, Taken(sb, img, n), n + 1, a, PutWord(view[a], k - 12, n));
  }

  lemma SameImage(sb: Super, img: seq<Block>, view: seq<Block>, inodes: seq<Inode>, owner: map<nat, Slot>, n: nat)
    requires sb.size <= BPB && Owned(sb, img, inodes, owner) && |view| == |img|
    requires Marks(img[sb.bmapstart], n) && Marks(view[sb.bmapstart], n)
    requires forall b :: 0 <= b < |view| && b != sb.bmapstart ==> img[b] == view[b]
    requires sb.HasInodes(|inodes|) && forall j: nat :: j < |inodes| ==> StoredAt(sb, img, inodes, j)
    ensures Owned(sb, view, inodes, owner) && forall j: nat :: j < |inodes| ==> StoredAt(sb, view, inodes, j)
    ensures forall j :: 0 <= j < |inodes| ==> (Dense(view, inodes[j]) <==> Dense(img, inodes[j]))
  {
    AllSameRefs(sb, img, view, inodes, owner, 0, 0);
    forall c: nat | c < sb.size
      ensures InUse(sb, view, c) == InUse(sb, img, c)
    {
      assert c / BPB == 0 && c % BPB == c;
    }
    SameOwners(sb, img, view, inodes, owner);
    SameDense(img, view, inodes);
    forall j: nat | j < |inodes|
      ensures StoredAt(sb, view, inodes, j)
    {
      StoredStays(sb, img, view, inodes, j);
    }
  }

  lemma StoreBitmapped(sb: Super, view: seq<Block>, img: seq<Block>, n: nat, a: nat, x: Block)
    requires Bitmapped(sb, view, img, n) && a < |view| && a != sb.bmapstart
    ensures img[a] == view[a] && Bitmapped(sb, view[a := x], img[a := x], n)
  {
  }
}
