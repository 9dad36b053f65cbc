/** fs.c's block allocator and inode contents, on the blocks as the cache shows them,
    and the chunked write of file.c. */
module Fs {
  import opened Blocks
  import opened Inodes
  import opened Growth
  import opened Writing
  import opened Options
  import LogMachine
  import Transactions

  class FileSystem {
    const sb: Super
    var view: seq<Block>       // what bread shows
    var inodes: seq<Inode>     // the in-memory inodes
    ghost var owner: map<nat, Slot>
    ghost var base: seq<Block>              // the blocks at begin_op
    ghost var trace: seq<LogMachine.Write>  // the log_writes since then
    ghost var logged: set<nat>              // the blocks among them

    constructor (sb: Super, view: seq<Block>, inodes: seq<Inode>, ghost owner: map<nat, Slot>)
      ensures this.sb == sb && this.view == view && this.inodes == inodes
      ensures this.owner == owner && base == view && trace == [] && logged == {} && Traced()
    {
      this.sb, this.view, this.inodes := sb, view, inodes;
      this.owner, base, trace, logged := owner, view, [], {};
    }

    /** Every change since begin_op has gone through log_write. */
    ghost predicate Traced()
      reads this`view, this`base, this`trace, this`logged
    {
      && |base| == |view| && view == LogMachine.Apply(base, trace)
      && (forall b: nat :: b in logged <==> b in Transactions.Listed(trace))
    }

    /** A consistent file system, the in-memory inodes being what the inode blocks say. */
    ghost predicate Valid()
      reads this
    {
      Consistent(sb, view, inodes, owner) && Traced()
    }

    /** Block ownership alone: what holds also in the middle of an operation. */
    ghost predicate Sound()
      reads this
    {
      Owned(sb, view, inodes, owner) && Traced()
    }

    /** The holder of a buffer has changed it and calls log_write. */
    method LogWrite(b: nat, v: Block)
      requires b < |view| < 0x1_0000_0000 && Traced()
      modifies this`view, this`trace, this`logged
      ensures view == old(view)[b := v] && logged == old(logged) + {b} && trace == old(trace) + [(b, v)] && Traced()
    {
      view := view[b := v];
      trace := trace + [(b, v)];
      logged := logged + {b};
      assert trace[..|trace| - 1] == old(trace);
    }

    /** None is the panic "balloc: out of blocks". */
    method Balloc() returns (r: Option<Word>)
      requires sb.Ok() && |view| == sb.size && Traced()
      modifies this`view, this`trace, this`logged
      ensures Traced()
      ensures r.None? ==> view == old(view) && logged == old(logged) && trace == old(trace) && Free(sb, view) == {}
      ensures r.Some? ==>
                && r.value < sb.size && !InUse(sb, old(view), r.value)
                && (forall b: nat :: b < r.value ==> InUse(sb, old(view), b))
                && view == Taken(sb, old(view), r.value)
                && logged == old(logged) + {sb.BBlock(r.value), r.value}
    {
      var b := 0;
      while b < sb.size
        invariant b % BPB == 0 && 0 <= b
        invariant view == old(view) && logged == old(logged) && trace == old(trace)
        invariant forall c: nat :: c < b && c < sb.size ==> InUse(sb, view, c)
      {
        var bi := FindBit(b);
        if bi.Some? {
          BitmapPosition(sb, b, bi.value);
          TakeBlock(sb.BBlock(b), bi.value, b + bi.value);
          return Some(b + bi.value);
        }
        NextBlock(b);
        b := b + BPB;
      }
      return None;
    }

    /** The inner loop of balloc: the first clear bit of one bitmap block. */
    method FindBit(b: nat) returns (r: Option<nat>)
      requires sb.Ok() && |view| == sb.size && b < sb.size && b % BPB == 0
      ensures r.Some? ==> r.value < BPB && b + r.value < sb.size && !InUse(sb, view, b + r.value)
      ensures forall c: nat :: b <= c < b + (if r.Some? then r.value else BPB) && c < sb.size ==> InUse(sb, view, c)
    {
      var bp := sb.BBlock(b);
      var bi := 0;
      while bi < BPB && b + bi < sb.size
        invariant 0 <= bi <= BPB
        invariant forall c: nat :: b <= c < b + bi && c < sb.size ==> InUse(sb, view, c)
      {
        BitmapPosition(sb, b, bi);
        if !ByteBit(view[bp][bi / 8], bi % 8) {
          return Some(bi);
        }
        bi := bi + 1;
      }
      return None;
    }

    /** The bit is set, and the block cleared. */
    method TakeBlock(bp: nat, bi: nat, b: nat)
      requires sb.Ok() && |view| == sb.size && b < sb.size && bp == sb.BBlock(b) < |view| && bi == b % BPB && Traced()
      modifies this`view, this`trace, this`logged
      ensures view == Taken(sb, old(view), b) && logged == old(logged) + {bp, b} && Traced()
    {
      LogWrite(bp, view[bp][bi / 8 := PutByteBit(view[bp][bi / 8], bi % 8, true)]);
      Bzero(b);
    }

    method Bzero(b: nat)
      requires b < |view| < 0x1_0000_0000 && Traced()
      modifies this`view, this`trace, this`logged
      ensures view == old(view)[b := ZeroBlock()] && logged == old(logged) + {b} && Traced()
    {
      LogWrite(b, ZeroBlock());
    }

    /** The precondition is that the "freeing free block" panic does not strike. */
    method Bfree(b: nat)
      requires sb.Ok() && |view| == sb.size && b < sb.size && InUse(sb, view, b) && Traced()
      modifies this`view, this`trace, this`logged
      ensures view == Mark(sb, old(view), b, false) && logged == old(logged) + {sb.BBlock(b)} && Traced()
    {
      var bp, bi := sb.BBlock(b), b % BPB;
      LogWrite(bp, view[bp][bi / 8 := PutByteBit(view[bp][bi / 8], bi % 8, false)]);
    }

    /** bmap for a direct block, and the allocation of the indirect block. got is what it fills. */
    method MapAddr(i: nat, k: nat) returns (r: Option<Word>, ghost got: set<nat>)
      requires Sound() && i < |inodes| && k <= NDIRECT
      modifies this`view, this`inodes, this`owner, this`trace, this`logged
      ensures Sound() && Fills(sb, old(view), old(inodes), old(owner), view, inodes, owner, i, got)
      ensures got == if old(inodes[i].addrs[k]) == 0 && r.Some? then {k} else {}
      ensures r.Some? ==> inodes[i].addrs[k] == r.value != 0
      ensures r.None? ==> old(inodes[i].addrs[k]) == 0 && Free(sb, view) == {}
      ensures logged == old(logged) + MapLog(sb, view, inodes[i], got)
      ensures got == {} ==> view == old(view) && inodes == old(inodes) && owner == old(owner) && trace == old(trace)
    {
      FillsNothing(sb, view, inodes, owner, i);
      MapLogNone(sb, view, inodes[i]);
      got := {};
      if inodes[i].addrs[k] == 0 {
        ghost var view0, inodes0, owner0 := view, inodes, owner;
        r := Balloc();
        if r.Some? {
          got := {k};
          AddrFills(sb, view0, inodes0, owner0, i, k, r.value);
          inodes := inodes[i := WithAddr(inodes[i], k, r.value)];
          owner := owner[r.value := Slot(i, k)];
        }
      } else {
        r := Some(inodes[i].addrs[k]);
      }
    }

    /** bmap beyond the direct blocks, the indirect block being there. */
    method MapEntry(i: nat, k: nat) returns (r: Option<Word>, ghost got: set<nat>)
      requires Sound() && i < |inodes| && 12 <= k < NSLOTS && inodes[i].addrs[NDIRECT] != 0
      modifies this`view, this`owner, this`trace, this`logged
      ensures Sound() && Fills(sb, old(view), inodes, old(owner), view, inodes, owner, i, got)
      ensures got == if Ref(old(view), inodes[i], k) == 0 && r.Some? then {k} else {}
      ensures r.Some? ==> Ref(view, inodes[i], k) == r.value != 0
      ensures r.None? ==> Ref(old(view), inodes[i], k) == 0 && Free(sb, view) == {}
      ensures logged == old(logged) + MapLog(sb, view, inodes[i], got)
      ensures got == {} ==> view == old(view) && owner == old(owner) && trace == old(trace)
    {
      IndirectBlocks(sb, view, inodes, owner, 0, 0, i);
      var a := inodes[i].addrs[NDIRECT];
      var w := GetWord(view[a], k - 12);
      if w != 0 {
        FillsNothing(sb, view, inodes, owner, i);
        MapLogNone(sb, view, inodes[i]);
        r, got := Some(w), {};
      } else {
        r, got := FillEntry(i, k);
      }
    }

    /** A block is allocated for entry k, and the entry stored and logged. */
    method FillEntry(i: nat, k: nat) returns (r: Option<Word>, ghost got: set<nat>)
      requires Sound() && i < |inodes| && 12 <= k < NSLOTS && inodes[i].addrs[NDIRECT] != 0
      requires Ref(view, inodes[i], k) == 0
      modifies this`view, this`owner, this`trace, this`logged
      ensures Sound() && Fills(sb, old(view), inodes, old(owner), view, inodes, owner, i, got)
      ensures got == if r.Some? then {k} else {}
      ensures r.Some? ==> Ref(view, inodes[i], k) == r.value != 0
      ensures r.None? ==> Free(sb, view) == {}
      ensures logged == old(logged) + MapLog(sb, view, inodes[i], got)
      ensures got == {} ==> view == old(view) && owner == old(owner) && trace == old(trace)
    {
      ghost var view0 := view;
      FillsNothing(sb, view, inodes, owner, i);
      MapLogNone(sb, view, inodes[i]);
      got := {};
      r := Balloc();
      if r.Some? {
        got := {k};
        StoreEntry(i, k, r.value, view0, old(logged));
      }
    }

    /** The newly allocated block b becomes entry k. */
    method StoreEntry(i: nat, k: nat, b: Word, ghost view0: seq<Block>, ghost logged0: set<nat>)
      requires Traced() && Owned(sb, view0, inodes, owner) && i < |inodes| && 12 <= k < NSLOTS && inodes[i].addrs[NDIRECT] != 0
      requires Ref(view0, inodes[i], k) == 0 && b < sb.size && !InUse(sb, view0, b) && view == Taken(sb, view0, b)
      requires logged == logged0 + {sb.BBlock(b), b}
      modifies this`view, this`owner, this`trace, this`logged
      ensures Sound() && Fills(sb, view0, inodes, old(owner), view, inodes, owner, i, {k}) && Ref(view, inodes[i], k) == b != 0
      ensures logged == logged0 + MapLog(sb, view, inodes[i], {k})
    {
      var a := inodes[i].addrs[NDIRECT];
      ghost var view1, owner1 := EntryFills(sb, view0, inodes, owner, i, k, b);
      LogWrite(a, PutWord(view[a], k - 12, b));
      owner := owner[b := Slot(i, k)];
      assert view == view1 && owner == owner1;
    }

    /** The block holding the bn-th block of file i, allocated if it is not there. It fills exactly
        the slots it needs, or panics, there being too few free blocks for them. */
    method Bmap(i: nat, bn: nat) returns (r: Option<Word>, ghost got: set<nat>)
      requires Sound() && i < |inodes| && bn < MAXFILE
      modifies this`view, this`inodes, this`owner, this`trace, this`logged
      ensures Sound() && Fills(sb, old(view), old(inodes), old(owner), view, inodes, owner, i, got)
      ensures r.Some? ==> Ref(view, inodes[i], DataSlot(bn)) == r.value != 0
      ensures r.Some? ==> got == MapNeed(old(view), old(inodes)[i], bn)
      ensures r.None? ==> got < MapNeed(old(view), old(inodes)[i], bn) && Free(sb, view) == {}
      ensures logged == old(logged) + MapLog(sb, view, inodes[i], got)
      ensures got == {} ==> view == old(view) && inodes == old(inodes) && owner == old(owner) && trace == old(trace)
    {
      if bn < NDIRECT {
        r, got := MapAddr(i, bn);
      } else {
        r, got := MapFar(i, bn);
      }
    }

    /** bmap beyond the direct blocks. */
    method MapFar(i: nat, bn: nat) returns (r: Option<Word>, ghost got: set<nat>)
      requires Sound() && i < |inodes| && NDIRECT <= bn < MAXFILE
      modifies this`view, this`inodes, this`owner, this`trace, this`logged
      ensures Sound() && Fills(sb, old(view), old(inodes), old(owner), view, inodes, owner, i, got)
      ensures r.Some? ==> Ref(view, inodes[i], DataSlot(bn)) == r.value != 0
      ensures r.Some? ==> got == MapNeed(old(view), old(inodes)[i], bn)
      ensures r.None? ==> got < MapNeed(old(view), old(inodes)[i], bn) && Free(sb, view) == {}
      ensures logged == old(logged) + MapLog(sb, view, inodes[i], got)
      ensures got == {} ==> view == old(view) && inodes == old(inodes) && owner == old(owner) && trace == old(trace)
    {
      ghost var view0, inodes0, owner0, logged0 := view, inodes, owner, logged;
      var a;
      a, got := MapAddr(i, NDIRECT);
      if a.None? {
        return None, got;
      }
      ghost var view1, inodes1, owner1, logged1, more := view, inodes, owner, logged, {};
      r, more := MapEntry(i, DataSlot(bn));
      Joined(sb, view0, inodes0, owner0, view1, inodes1, owner1, view, inodes, owner, i, bn, got, more, logged0, logged1, logged);
      got := got + more;
    }

    /** bmap of a block that is there. */
    method MapExisting(i: nat, bn: nat) returns (b: Word)
      requires Sound() && i < |inodes| && bn < MAXFILE && Ref(view, inodes[i], DataSlot(bn)) != 0
      modifies this`view, this`inodes, this`owner, this`trace, this`logged
      ensures view == old(view) && inodes == old(inodes) && owner == old(owner) && trace == old(trace) && logged == old(logged)
      ensures b == Ref(view, inodes[i], DataSlot(bn)) && 0 < b < |view|
    {
      MapLogNone(sb, view, inodes[i]);
      var r, got := Bmap(i, bn);
      b := r.value;
      assert b in owner;
    }

    /** One round of readi's copy loop. */
    method ReadRound(i: nat, at: nat, m: nat) returns (piece: seq<Byte>)
      requires Valid() && i < |inodes| && 0 < m && at + m <= inodes[i].size && at % BSIZE + m <= BSIZE
      modifies this`view, this`inodes, this`owner, this`trace, this`logged
      ensures view == old(view) && inodes == old(inodes) && owner == old(owner) && trace == old(trace) && logged == old(logged)
      ensures piece == Content(view, inodes[i])[at..at + m]
    {
      DenseAt(view, inodes[i], at);
      var b := MapExisting(i, at / BSIZE);
      ReadChunk(view, inodes[i], at, m);
      piece := view[b][at % BSIZE..at % BSIZE + m];
    }

    /** readi on a file or directory: None is the -1. Density means that bmap allocates nothing. */
    method Readi(i: nat, off: Word, count: Word) returns (r: Option<seq<Byte>>)
      requires Valid() && i < |inodes|
      modifies this`view, this`inodes, this`owner, this`trace, this`logged
      ensures view == old(view) && inodes == old(inodes) && owner == old(owner) && trace == old(trace) && logged == old(logged)
      ensures r.None? <==> off > inodes[i].size || off + count >= 0x1_0000_0000
      ensures r.Some? ==>
                var end := if off + count > inodes[i].size then inodes[i].size else off + count;
                r.value == Content(view, inodes[i])[off..end]
    {
      if off > inodes[i].size || off + count >= 0x1_0000_0000 {
        return None;
      }
      var n := if off + count > inodes[i].size then inodes[i].size - off else count;
      var dst: seq<Byte>, tot := [], 0;
      ghost var c := Content(view, inodes[i]);
      while tot < n
        invariant 0 <= tot <= n
        invariant view == old(view) && inodes == old(inodes) && owner == old(owner) && trace == old(trace) && logged == old(logged)
        invariant dst == c[off..off + tot]
      {
        var at := off + tot;
        var m := if n - tot < BSIZE - at % BSIZE then n - tot else BSIZE - at % BSIZE;
        var piece := ReadRound(i, at, m);
        Append(c, off, at, at + m, dst, piece);
        dst, tot := dst + piece, tot + m;
      }
      return Some(dst);
    }

    /** ilock's reading of an inode that is not in memory: the copy in memory loses nothing. */
    method ReadInode(i: nat) returns (ino: Inode)
      requires Valid() && i < |inodes|
      ensures ino == inodes[i]
    {
      InodeBlock(sb, |inodes|, i);
      assert StoredAt(sb, view, inodes, i);
      ino := GetInode(view[sb.IBlock(i)], i % IPB);
    }

    /** iupdate: the inode block then holds the in-memory inode again, and the others it held. */
    method Iupdate(i: nat)
      requires sb.Ok() && |view| == sb.size && sb.HasInodes(|inodes|) && i < |inodes| && Traced()
      requires forall j: nat :: j < |inodes| && j != i ==> StoredAt(sb, view, inodes, j)
      modifies this`view, this`trace, this`logged
      ensures sb.IBlock(i) < |old(view)| && view == Updated(sb, old(view), i, inodes[i])
      ensures forall j: nat :: j < |inodes| ==> StoredAt(sb, view, inodes, j)
      ensures logged == old(logged) + {sb.IBlock(i)} && Traced()
    {
      InodeBlock(sb, |inodes|, i);
      UpdatedStored(sb, view, inodes, i);
      LogWrite(sb.IBlock(i), PutInode(view[sb.IBlock(i)], i % IPB, inodes[i]));
    }

    ghost function Now(done: nat): Stage
      reads this
    {
      Stage(view, inodes, owner, done)
    }

    /** bmap in the middle of a write, as a step from the stage s1. */
    method MapForWrite(i: nat, bn: nat, ghost s1: Stage, ghost logged1: set<nat>) returns (b: Option<Word>, ghost got: set<nat>)
      requires Sound() && i < |inodes| && bn < MAXFILE && s1 == Now(0) && logged1 == logged
      modifies this`view, this`inodes, this`owner, this`trace, this`logged
      ensures Sound() && i < |inodes| && Fills(sb, s1.view, s1.inodes, s1.owner, view, inodes, owner, i, got)
      ensures logged == logged1 + MapLog(sb, view, inodes[i], got)
      ensures b.Some? ==> Ref(view, inodes[i], DataSlot(bn)) == b.value && 0 < b.value < |view|
      ensures b.Some? ==> got == MapNeed(s1.view, s1.inodes[i], bn)
      ensures b.None? ==> got < MapNeed(s1.view, s1.inodes[i], bn) && Free(sb, view) == {}
    {
      b, got := Bmap(i, bn);
      if b.Some? {
        RefRange(sb, view, inodes, owner, i, DataSlot(bn));
      }
    }

    /** The next chunk goes into its block, and the block into the log. */
    method PatchBlock(i: nat, b: Word, at: nat, ghost bn: nat, chunk: seq<Byte>, ghost s0: Stage, ghost off: nat, ghost done: seq<Byte>)
      requires Sound() && i < |inodes| && Written(s0.view, s0.inodes, view, inodes, i, off, done)
      requires s0.inodes[i].size <= MAXFILE * BSIZE && at == off + |done| && at + |chunk| <= MAXFILE * BSIZE
      requires 0 < |chunk| && at % BSIZE + |chunk| <= BSIZE
      requires bn == at / BSIZE && b == Ref(view, inodes[i], DataSlot(bn)) && 0 < b < |view|
      modifies this`view, this`trace, this`logged
      ensures Sound() && Written(s0.view, s0.inodes, view, inodes, i, off, done + chunk)
      ensures GrownBy(sb, old(view), inodes, owner, view, inodes, owner, i, {})
      ensures logged == old(logged) + {b as nat}
    {
      ghost var view1 := view;
      var data := Patched(view[b], at % BSIZE, chunk);
      StoreData(sb, view, inodes, owner, i, at / BSIZE, data);
      GrownStore(sb, view, inodes, owner, i, b, data);
      LogWrite(b, data);
      WrittenStored(sb, owner, s0.view, s0.inodes, view1, inodes, i, off, done, chunk, at, b, view);
    }

    /** Where writei's loop stands: what is written, what is allocated, what is logged. */
    ghost predicate Progress(s0: Stage, logged0: set<nat>, i: nat, off: nat, src: seq<Byte>, tot: nat)
      reads this
    {
      Sound() && Going(sb, s0, Now(0), logged0, logged, i, off, src, tot)
    }

    /** One round of writei's copy loop; false is balloc's panic. */
    method WriteStep(i: nat, src: seq<Byte>, off: nat, tot: nat, ghost s0: Stage, ghost logged0: set<nat>)
      returns (ok: bool, next: nat)
      requires Started(sb, s0, i, off) && off + |src| <= MAXFILE * BSIZE && tot < |src| && Progress(s0, logged0, i, off, src, tot)
      modifies this`view, this`inodes, this`owner, this`trace, this`logged
      ensures tot < next <= |src|
      ensures ok ==> Progress(s0, logged0, i, off, src, next)
      ensures !ok ==> Sound() && TooFew(sb, s0.view, s0.inodes, i, off, |src|) && Bounded(sb, logged0, logged, off, |src|)
    {
      var at, bn, m;
      at, bn, m, next := NextRound(off, tot, |src|);
      ok := RoundFrom(i, src, src[tot..next], at, bn, off, tot, m, next, s0, Now(0), logged0, logged);
    }

    /** A round from the stage s1: find the block, patch it. */
    method RoundFrom(i: nat, ghost src: seq<Byte>, chunk: seq<Byte>, at: nat, bn: nat, ghost off: nat, ghost tot: nat, ghost m: nat, ghost next: nat,
                     ghost s0: Stage, ghost s1: Stage, ghost logged0: set<nat>, ghost logged1: set<nat>)
      returns (ok: bool)
      requires Sound() && s1 == Now(0) && logged1 == logged && i < |inodes|
      requires Started(sb, s0, i, off) && off + |src| <= MAXFILE * BSIZE && Going(sb, s0, s1, logged0, logged1, i, off, src, tot)
      requires at == off + tot && bn == at / BSIZE && next == tot + m <= |src| && Round(off, tot, m, bn) && Aligned(off, next, |src|)
      requires at % BSIZE + m <= BSIZE && at + m <= MAXFILE * BSIZE && chunk == src[tot..next]
      modifies this`view, this`inodes, this`owner, this`trace, this`logged
      ensures ok ==> Progress(s0, logged0, i, off, src, next)
      ensures !ok ==> Sound() && TooFew(sb, s0.view, s0.inodes, i, off, |src|) && Bounded(sb, logged0, logged, off, |src|)
    {
      ghost var done := src[..tot];
      assert |done| == tot && |chunk| == m;
      var b;
      ghost var got;
      b, got := MapForWrite(i, bn, s1, logged1);
      if b.None? {
        Short(sb, s0, s1, Now(0), logged0, logged1, logged, i, off, src, tot, m, next, bn, got);
        ok := false;
        return;
      }
      PatchMapped(i, src, chunk, b.value, at, bn, s0, s1, logged0, logged1, off, tot, m, next, got, done);
      ok := true;
    }

    /** The rest of a round once its block is there. */
    method PatchMapped(i: nat, ghost src: seq<Byte>, chunk: seq<Byte>, b: Word, at: nat, ghost bn: nat, ghost s0: Stage, ghost s1: Stage,
                       ghost logged0: set<nat>, ghost logged1: set<nat>, ghost off: nat, ghost tot: nat, ghost m: nat, ghost next: nat,
                       ghost got: set<nat>, ghost done: seq<Byte>)
      requires Sound() && i < |inodes| && b == Ref(view, inodes[i], DataSlot(bn)) && 0 < b < |view|
      requires Fills(sb, s1.view, s1.inodes, s1.owner, view, inodes, owner, i, got) && i < |s0.inodes| && s0.inodes[i].size <= MAXFILE * BSIZE
      requires at == off + |done| && bn == at / BSIZE && 0 < |chunk| && at % BSIZE + |chunk| <= BSIZE && at + |chunk| <= MAXFILE * BSIZE
      requires Going(sb, s0, s1, logged0, logged1, i, off, src, tot) && next == tot + m <= |src| && Round(off, tot, m, bn)
      requires Aligned(off, next, |src|) && done == src[..tot] && chunk == src[tot..next]
      requires got == MapNeed(s1.view, s1.inodes[i], bn) && logged == logged1 + MapLog(sb, view, inodes[i], got)
      modifies this`view, this`trace, this`logged
      ensures Progress(s0, logged0, i, off, src, next)
    {
      ghost var s2, logged2 := Now(0), logged;
      WrittenMapped(s0.view, s0.inodes, s1.view, s1.inodes, view, inodes, i, off, done);
      PatchBlock(i, b, at, bn, chunk, s0, off, done);
      RoundDone(sb, s0, s1, s2, Now(0), logged0, logged1, logged2, logged, i, off, src, tot, m, next, bn, b, got, done, chunk);
    }

    /** writei's copy loop. */
    method CopyLoop(i: nat, src: seq<Byte>, off: nat, ghost s0: Stage, ghost logged0: set<nat>) returns (ok: bool)
      requires Started(sb, s0, i, off) && off + |src| <= MAXFILE * BSIZE && Progress(s0, logged0, i, off, src, 0)
      modifies this`view, this`inodes, this`owner, this`trace, this`logged
      ensures ok ==> Progress(s0, logged0, i, off, src, |src|)
      ensures !ok ==> Sound() && TooFew(sb, s0.view, s0.inodes, i, off, |src|) && Bounded(sb, logged0, logged, off, |src|)
    {
      var tot := 0;
      while tot < |src|
        invariant 0 <= tot <= |src| && Progress(s0, logged0, i, off, src, tot)
      {
        ok, tot := WriteStep(i, src, off, tot, s0, logged0);
        if !ok {
          return;
        }
      }
      ok := true;
    }

    /** writei on a file or directory. It runs out of blocks exactly if there are fewer free ones
        than empty slots to fill; what it logs is known exactly. */
    method Writei(i: nat, src: seq<Byte>, off: Word) returns (r: WriteResult)
      requires Valid() && i < |inodes| && |src| < 0x1_0000_0000
      modifies this`view, this`inodes, this`owner, this`trace, this`logged
      ensures r == Refused <==> old(off > inodes[i].size || off + |src| >= 0x1_0000_0000 || off + |src| > MAXFILE * BSIZE)
      ensures r == Refused ==> view == old(view) && inodes == old(inodes) && owner == old(owner) && trace == old(trace) && logged == old(logged)
      ensures r != Refused ==> (r == OutOfBlocks <==> TooFew(sb, old(view), old(inodes), i, off, |src|))
      ensures r == OutOfBlocks ==> Sound() && Bounded(sb, old(logged), logged, off, |src|)
      ensures r == Wrote ==>
                && Valid() && WroteAt(old(view), old(inodes), view, inodes, i, off, src)
                && Allocates(old(view), old(inodes), old(owner), view, inodes, owner, i, Need(old(view), old(inodes)[i], off, |src|))
                && logged == old(logged) + WriteLog(sb, old(view), old(inodes)[i], view, inodes[i], i, off, |src|)
                && |WriteLog(sb, old(view), old(inodes)[i], view, inodes[i], i, off, |src|)| <= WriteCost(off, |src|)
    {
      if off > inodes[i].size || off + |src| >= 0x1_0000_0000 {
        return Refused;
      }
      if off + |src| > MAXFILE * BSIZE {
        return Refused;
      }
      ghost var s0, logged0 := Now(0), logged;
      GoingStart(sb, s0, logged0, i, off, src);
      var ok := CopyLoop(i, src, off, s0, logged0);
      if !ok {
        return OutOfBlocks;
      }
      EnoughFree(sb, s0, Now(0), i, off, src);
      SetSize(i, src, off, s0, logged0);
      LogBound(sb, s0.view, s0.inodes[i], view, inodes[i], i, off, |src|);
      return Wrote;
    }

    /** The end of writei: a file that has grown gets its new size, and iupdate. */
    method SetSize(i: nat, src: seq<Byte>, off: nat, ghost s0: Stage, ghost logged0: set<nat>)
      requires Started(sb, s0, i, off) && off + |src| <= MAXFILE * BSIZE && Progress(s0, logged0, i, off, src, |src|)
      modifies this`view, this`inodes, this`trace, this`logged
      ensures Valid() && WroteAt(s0.view, s0.inodes, view, inodes, i, off, src)
      ensures Allocates(s0.view, s0.inodes, s0.owner, view, inodes, owner, i, Need(s0.view, s0.inodes[i], off, |src|))
      ensures logged == logged0 + WriteLog(sb, s0.view, s0.inodes[i], view, inodes[i], i, off, |src|)
    {
      ghost var need := Need(s0.view, s0.inodes[i], off, |src|);
      assert src[..|src|] == src;
      if |src| > 0 && off + |src| > inodes[i].size {
        Enlarge(i, src, off, s0, need);
      } else {
        NotGrown(sb, s0, Now(0), i, off, src);
      }
    }

    method Enlarge(i: nat, src: seq<Byte>, off: nat, ghost s0: Stage, ghost need: set<nat>)
      requires Started(sb, s0, i, off) && 0 < |src| && s0.inodes[i].size < off + |src| <= MAXFILE * BSIZE
      requires Sound() && i < |inodes| && Written(s0.view, s0.inodes, view, inodes, i, off, src) && SameInodes(sb, s0.view, view)
      requires Allocates(s0.view, s0.inodes, s0.owner, view, inodes, owner, i, need)
      modifies this`view, this`inodes, this`trace, this`logged
      ensures Valid() && WroteAt(s0.view, s0.inodes, view, inodes, i, off, src)
      ensures Allocates(s0.view, s0.inodes, s0.owner, view, inodes, owner, i, need)
      ensures logged == old(logged) + {sb.IBlock(i)}
      ensures MapLog(sb, view, inodes[i], need) == MapLog(sb, old(view), old(inodes)[i], need)
      ensures DataLog(view, inodes[i], off, |src|) == DataLog(old(view), old(inodes)[i], off, |src|)
    {
      ghost var s1 := Now(0);
      inodes := inodes[i := inodes[i].(size := off + |src|)];
      StoredOthers(sb, s0, s1, i, inodes);
      Iupdate(i);
      GrownDone(sb, s0, s1, Now(0), i, off, src);
      SameLog(sb, s1.view, s1.inodes[i], view, inodes[i], off, |src|, need);
      SameFilled(s0, s1, Now(0), i, need);
    }

    /** filewrite on an inode, one transaction per chunk. foff is the file's offset, at first
        off. The stages are the file systems after 0, 1, 2, .. transactions, and txns what each
        transaction has logged; torn is what the one that panics has. */
    method FileWrite(i: nat, addr: seq<Byte>, off: Word)
      returns (r: FileResult, foff: Word, ghost stages: seq<Stage>, ghost txns: seq<seq<LogMachine.Write>>, ghost torn: seq<LogMachine.Write>)
      requires Valid() && i < |inodes| && |addr| < 0x8000_0000
      modifies this
      ensures off <= foff <= off + |addr| && (r == Count <==> foff == off + |addr|)
      ensures Chronicle(sb, stages, txns, i, off, addr) && stages[0] == old(Now(0)) && stages[|txns|].done == foff - off
      ensures r != Panicked ==> Valid() && stages[|txns|] == Now(foff - off)
      ensures r == MinusOne ==> ChunkRefused(old(inodes)[i], off, foff, |addr|)
      ensures r == Panicked ==> TooFew(sb, stages[|txns|].view, stages[|txns|].inodes, i, foff, ChunkSize(off + |addr| - foff))
      ensures r == Panicked ==> Within(sb, torn)
    {
      r, foff, stages, txns, torn := Count, off, [Now(0)], [], [];
      var n := 0;
      ChronicleStart(sb, Now(0), i, off, addr);
      while n < |addr| && r == Count
        invariant 0 <= n <= |addr| && foff == off + n && (r != Count ==> n < |addr|)
        invariant Chronicle(sb, stages, txns, i, off, addr) && stages[0] == old(Now(0)) && stages[|txns|].done == n
        invariant r != Panicked ==> Valid() && stages[|txns|] == Now(n)
        invariant r == MinusOne ==> ChunkRefused(old(inodes)[i], off, foff, |addr|)
        invariant r == Panicked ==> TooFew(sb, stages[|txns|].view, stages[|txns|].inodes, i, foff, ChunkSize(|addr| - n))
        invariant r == Panicked ==> Within(sb, torn)
        decreases |addr| - n, if r == Count then 1 else 0
      {
        r, n, foff, stages, txns, torn := NextChunk(i, addr, off, n, foff, stages, txns);
      }
    }

    /** One pass through the loop of filewrite. */
    method NextChunk(i: nat, addr: seq<Byte>, off: Word, n: nat, foff: Word, ghost stages: seq<Stage>, ghost txns: seq<seq<LogMachine.Write>>)
      returns (r: FileResult, n': nat, foff': Word, ghost stages': seq<Stage>, ghost txns': seq<seq<LogMachine.Write>>, ghost torn: seq<LogMachine.Write>)
      requires n < |addr| < 0x8000_0000 && foff == off + n
      requires Chronicle(sb, stages, txns, i, off, addr) && Valid() && stages[|txns|] == Now(n)
      modifies this
      ensures n' <= |addr| && foff' == off + n' && if r == Count then n' > n else n' == n
      ensures Chronicle(sb, stages', txns', i, off, addr) && stages'[0] == stages[0] && stages'[|txns'|].done == n'
      ensures r != Panicked ==> Valid() && stages'[|txns'|] == Now(n')
      ensures r == MinusOne ==> ChunkRefused(stages[0].inodes[i], off, foff', |addr|)
      ensures r == Panicked ==> TooFew(sb, stages'[|txns'|].view, stages'[|txns'|].inodes, i, foff', ChunkSize(|addr| - n'))
      ensures r == Panicked ==> Within(sb, torn)
    {
      var n1 := ChunkSize(|addr| - n);
      n' := n + n1;
      var src := addr[n..n'];
      var w := WriteChunk(i, src, foff);
      torn, stages', txns' := trace, stages, txns;
      if w == Wrote {
        r, foff' := Count, foff + n1;
        stages', txns' := Extended(sb, stages, txns, i, off, addr, n, n', foff, n1, src, Now(n'), trace);
      } else {
        r := if w == Refused then MinusOne else Panicked;
        n', foff' := n, foff;
        if w == Refused {
          RefusedHere(sb, stages, txns, i, off, addr, n, foff, n1);
        }
      }
    }

    /** One transaction of filewrite, between begin_op and end_op. */
    method WriteChunk(i: nat, src: seq<Byte>, foff: Word) returns (w: WriteResult)
      requires Valid() && i < |inodes| && 0 < |src| <= CHUNK
      modifies this
      ensures base == old(view) && Traced()
      ensures w == Refused <==> old(foff > inodes[i].size || foff + |src| > MAXFILE * BSIZE)
      ensures w == Refused ==> Valid() && view == old(view) && inodes == old(inodes) && owner == old(owner)
      ensures w != Refused ==> (w == OutOfBlocks <==> TooFew(sb, old(view), old(inodes), i, foff, |src|))
      ensures w == Wrote ==>
                && Valid() && WroteAt(old(view), old(inodes), view, inodes, i, foff, src)
                && Allocates(old(view), old(inodes), old(owner), view, inodes, owner, i, Need(old(view), old(inodes)[i], foff, |src|))
                && logged == WriteLog(sb, old(view), old(inodes)[i], view, inodes[i], i, foff, |src|)
                && |logged| <= WriteCost(foff, |src|)
                && Txn(sb, old(view), view, trace)
      ensures w == OutOfBlocks ==> Within(sb, trace)
    {
      base, trace, logged := view, [], {};
      ChunkCost(foff, |src|);
      ghost var s0 := Now(0);
      w := Writei(i, src, foff);
      ListedSize(trace, logged);
      if w == Wrote {
        TxnLogged(sb, s0, Now(0), i, foff, |src|, trace, logged);
      }
    }

    /** The first loop of itrunc. */
    method FreeDirect(i: nat)
      requires Sound() && i < |inodes|
      modifies this`view, this`inodes, this`owner, this`trace, this`logged
      ensures Sound() && Trimmed(sb, old(view), old(inodes), old(owner), view, inodes, owner, i)
      ensures forall k :: 0 <= k < NDIRECT ==> inodes[i].addrs[k] == 0
      ensures inodes[i].addrs[NDIRECT] == old(inodes[i].addrs[NDIRECT])
    {
      var k := 0;
      while k < NDIRECT
        invariant 0 <= k <= NDIRECT && i < |inodes|
        invariant Sound() && Trimmed(sb, old(view), old(inodes), old(owner), view, inodes, owner, i)
        invariant forall m :: 0 <= m < k ==> inodes[i].addrs[m] == 0
        invariant inodes[i].addrs[NDIRECT] == old(inodes[i].addrs[NDIRECT])
      {
        if inodes[i].addrs[k] != 0 {
          ghost var view1, inodes1, owner1 := view, inodes, owner;
          FreeAddr(i, k);
          TrimmedChain(sb, old(view), old(inodes), old(owner), view1, inodes1, owner1, view, inodes, owner, i);
        }
        k := k + 1;
      }
    }

    method FreeAddr(i: nat, k: nat)
      requires Sound() && i < |inodes| && k < NDIRECT && inodes[i].addrs[k] != 0
      modifies this`view, this`inodes, this`owner, this`trace, this`logged
      ensures Sound() && Trimmed(sb, old(view), old(inodes), old(owner), view, inodes, owner, i)
      ensures inodes == old(inodes)[i := WithAddr(old(inodes)[i], k, 0)]
    {
      ReleaseDirect(sb, view, inodes, owner, i, k);
      TrimmedMark(sb, view, inodes, owner, 0, 0, i, inodes[i].addrs[k], WithAddr(inodes[i], k, 0));
      Bfree(inodes[i].addrs[k]);
      owner := owner - {inodes[i].addrs[k] as nat};
      inodes := inodes[i := WithAddr(inodes[i], k, 0)];
    }

    /** The loop over the indirect block. */
    method FreeEntries(i: nat)
      requires Sound() && i < |inodes| && 0 < inodes[i].addrs[NDIRECT] < |view|
      modifies this`view, this`owner, this`trace, this`logged
      ensures OwnedBut(sb, view, inodes, owner, i, NINDIRECT) && Traced()
      ensures Trimmed(sb, old(view), inodes, old(owner), view, inodes, owner, i)
    {
      ghost var view0, owner0 := view, owner;
      var j := 0;
      while j < NINDIRECT
        invariant 0 <= j <= NINDIRECT
        invariant OwnedBut(sb, view, inodes, owner, i, j) && Traced()
        invariant Trimmed(sb, view0, inodes, owner0, view, inodes, owner, i)
      {
        ghost var view1, owner1 := view, owner;
        FreeEntry(i, j);
        TrimmedChain(sb, view0, inodes, owner0, view1, inodes, owner1, view, inodes, owner, i);
        j := j + 1;
      }
    }

    method FreeEntry(i: nat, j: nat)
      requires OwnedBut(sb, view, inodes, owner, i, j) && Traced() && i < |inodes| && j < NINDIRECT
      requires 0 < inodes[i].addrs[NDIRECT] < |view|
      modifies this`view, this`owner, this`trace, this`logged
      ensures OwnedBut(sb, view, inodes, owner, i, j + 1) && Traced()
      ensures Trimmed(sb, old(view), inodes, old(owner), view, inodes, owner, i)
    {
      var b := GetWord(view[inodes[i].addrs[NDIRECT]], j);
      assert b == Ref(view, inodes[i], 12 + j);
      if b != 0 {
        ReleaseEntry(sb, view, inodes, owner, i, j);
        TrimmedMark(sb, view, inodes, owner, i, j, i, b, inodes[i]);
        Bfree(b);
        owner := owner - {b as nat};
      } else {
        SkipEntry(sb, view, inodes, owner, i, j);
      }
    }

    /** The indirect block with all its entries. */
    method FreeIndirect(i: nat)
      requires Sound() && i < |inodes| && inodes[i].addrs[NDIRECT] != 0
      modifies this`view, this`inodes, this`owner, this`trace, this`logged
      ensures Sound() && Trimmed(sb, old(view), old(inodes), old(owner), view, inodes, owner, i)
      ensures inodes == old(inodes)[i := WithAddr(old(inodes)[i], NDIRECT, 0)]
    {
      ghost var view0, inodes0, owner0 := view, inodes, owner;
      IndirectBlocks(sb, view, inodes, owner, 0, 0, i);
      FreeEntries(i);
      ghost var view1, owner1 := view, owner;
      FreeEmptied(i);
      TrimmedChain(sb, view0, inodes0, owner0, view1, inodes0, owner1, view, inodes, owner, i);
    }

    /** The indirect block itself. */
    method FreeEmptied(i: nat)
      requires OwnedBut(sb, view, inodes, owner, i, NINDIRECT) && Traced() && i < |inodes| && inodes[i].addrs[NDIRECT] != 0
      modifies this`view, this`inodes, this`owner, this`trace, this`logged
      ensures Sound() && Trimmed(sb, old(view), old(inodes), old(owner), view, inodes, owner, i)
      ensures inodes == old(inodes)[i := WithAddr(old(inodes)[i], NDIRECT, 0)]
    {
      var a := inodes[i].addrs[NDIRECT];
      ReleaseIndirect(sb, view, inodes, owner, i);
      TrimmedMark(sb, view, inodes, owner, i, NINDIRECT, i, a, WithAddr(inodes[i], NDIRECT, 0));
      Bfree(a);
      owner := owner - {a as nat};
      inodes := inodes[i := WithAddr(inodes[i], NDIRECT, 0)];
    }

    /** itrunc: the file becomes empty, exactly its blocks become free, nothing is freed
        twice, and the other files keep their contents. */
    method Itrunc(i: nat)
      requires Valid() && i < |inodes|
      modifies this`view, this`inodes, this`owner, this`trace, this`logged
      ensures Valid() && |inodes| == |old(inodes)|
      ensures Content(view, inodes[i]) == [] && forall k :: 0 <= k <= NDIRECT ==> inodes[i].addrs[k] == 0
      ensures forall j :: 0 <= j < |inodes| && j != i ==>
                inodes[j] == old(inodes)[j] && Content(view, inodes[j]) == Content(old(view), old(inodes)[j])
      ensures forall b: nat :: b < sb.size ==>
                (InUse(sb, view, b) <==> InUse(sb, old(view), b) && !(b in old(owner) && old(owner)[b].inum == i))
    {
      ghost var s0 := Now(0);
      FreeAll(i);
      ghost var s1 := Now(0);
      inodes := inodes[i := inodes[i].(size := 0)];
      StoredOthers(sb, s0, s1, i, inodes);
      Iupdate(i);
      TruncDone(sb, s0, s1, Now(0), i);
    }

    method FreeAll(i: nat)
      requires Sound() && i < |inodes|
      modifies this`view, this`inodes, this`owner, this`trace, this`logged
      ensures Sound() && Trimmed(sb, old(view), old(inodes), old(owner), view, inodes, owner, i)
      ensures forall k :: 0 <= k <= NDIRECT ==> inodes[i].addrs[k] == 0
    {
      ghost var view0, inodes0, owner0 := view, inodes, owner;
      FreeDirect(i);
      if inodes[i].addrs[NDIRECT] != 0 {
        ghost var view1, inodes1, owner1 := view, inodes, owner;
        FreeIndirect(i);
        TrimmedChain(sb, view0, inodes0, owner0, view1, inodes1, owner1, view, inodes, owner, i);
      }
    }
  }
}
