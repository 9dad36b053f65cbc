/** pipe.c: a ring of 512 bytes between counters that wrap at 2^32. A system call that has to
    sleep releases the lock, so a call is one or more sections, and sections of different
    readers and writers interleave freely. */
module Pipe {

  const PIPESIZE: nat := 512
  const WRAP: nat := 0x1_0000_0000

  type Byte = b: nat | b < 256

  /** All bytes ever put in and ever taken out. */
  datatype History = History(stored: seq<Byte>, taken: seq<Byte>)

  ghost predicate Fifo(h: History) {
    h.taken <= h.stored && |h.stored| - |h.taken| <= PIPESIZE
  }

  /** The counters tell how full the ring is, wherever they have wrapped. */
  lemma Counters(stored: nat, taken: nat)
    requires taken <= stored <= taken + PIPESIZE
    ensures stored % WRAP == taken % WRAP <==> stored == taken
    ensures stored % WRAP == (taken % WRAP + PIPESIZE) % WRAP <==> stored == taken + PIPESIZE
    ensures stored % WRAP % PIPESIZE == stored % PIPESIZE && taken % WRAP % PIPESIZE == taken % PIPESIZE
    ensures (stored % WRAP + 1) % WRAP == (stored + 1) % WRAP && (taken % WRAP + 1) % WRAP == (taken + 1) % WRAP
  {
    var q := stored / WRAP;
    var p := taken / WRAP;
    assert stored == q * WRAP + stored % WRAP && taken == p * WRAP + taken % WRAP;
    assert p == q || q == p + 1;
    ModMod(stored);
    ModMod(taken);
    SuccMod(stored);
    SuccMod(taken);
  }

  lemma ModMod(n: nat)
    ensures n % WRAP % PIPESIZE == n % PIPESIZE
  {
    assert n == (n / WRAP) * WRAP + n % WRAP;
    assert WRAP == 8388608 * PIPESIZE;
  }

  lemma SuccMod(n: nat)
    ensures (n % WRAP + 1) % WRAP == (n + 1) % WRAP
  {
    assert n == (n / WRAP) * WRAP + n % WRAP;
  }

  /** Two bytes less than a ring apart have different places in it. */
  lemma Places(a: nat, b: nat)
    requires a < b < a + PIPESIZE
    ensures a % PIPESIZE != b % PIPESIZE
  {
    assert a == (a / PIPESIZE) * PIPESIZE + a % PIPESIZE && b == (b / PIPESIZE) * PIPESIZE + b % PIPESIZE;
  }

  /** n bytes from place from on, going round. */
  function Around(data: seq<Byte>, from: nat, n: nat): (r: seq<Byte>)
    requires |data| == PIPESIZE
    ensures |r| == n && forall k: nat :: k < n ==> r[k] == data[(from + k) % PIPESIZE]
  {
    if n == 0 then [] else Around(data, from, n - 1) + [data[(from + n - 1) % PIPESIZE]]
  }

  datatype Outcome = Done | Sleep | Fail

  class Ring {
    const data: array<Byte>
    var nread: nat
    var nwrite: nat
    var readopen: bool
    var writeopen: bool
    ghost var h: History

    /** The difference between stored and taken is exactly what the ring holds. */
    ghost predicate Valid()
      reads this, data
    {
      && data.Length == PIPESIZE && Fifo(h)
      && nwrite == |h.stored| % WRAP && nread == |h.taken| % WRAP
      && forall k: nat :: |h.taken| <= k < |h.stored| ==> data[k % PIPESIZE] == h.stored[k]
    }

    /** The bytes between the two counters. */
    ghost function Contents(): seq<Byte>
      requires data.Length == PIPESIZE && nread < WRAP
      reads this, data
    {
      Around(data[..], nread, (nwrite + WRAP - nread) % WRAP)
    }

    constructor ()
      ensures Valid() && fresh(data) && h == History([], []) && readopen && writeopen
    {
      data := new Byte[PIPESIZE](i => 0);
      nread, nwrite, readopen, writeopen := 0, 0, true, true;
      h := History([], []);
    }

    method PutByte(b: Byte)
      requires Valid() && |h.stored| < |h.taken| + PIPESIZE
      modifies this, data
      ensures Valid() && h == History(old(h.stored) + [b], old(h.taken))
      ensures readopen == old(readopen) && writeopen == old(writeopen)
    {
      ghost var n := |h.stored|;
      Counters(n, |h.taken|);
      forall k: nat | |h.taken| <= k < n
        ensures k % PIPESIZE != n % PIPESIZE
      {
        Places(k, n);
      }
      data[nwrite % PIPESIZE] := b;
      nwrite := (nwrite + 1) % WRAP;
      h := h.(stored := h.stored + [b]);
    }

    method GetByte() returns (b: Byte)
      requires Valid() && |h.taken| < |h.stored|
      modifies this
      ensures Valid() && b == old(h.stored)[|old(h.taken)|] && h == History(old(h.stored), old(h.taken) + [b])
      ensures readopen == old(readopen) && writeopen == old(writeopen)
    {
      Counters(|h.stored|, |h.taken|);
      b := data[nread % PIPESIZE];
      nread := (nread + 1) % WRAP;
      h := h.(taken := h.taken + [b]);
    }

    /** pipewrite from byte start on, until all is stored, the ring is full and it must sleep, or
        the reader or the caller is gone. The bytes stored are the next ones of addr, in order. */
    method Write(addr: seq<Byte>, start: nat, killed: bool) returns (i: nat, r: Outcome)
      requires Valid() && start <= |addr|
      modifies this, data
      ensures Valid() && start <= i <= |addr|
      ensures h == History(old(h.stored) + addr[start..i], old(h.taken))
      ensures r.Done? <==> i == |addr|
      ensures !r.Done? ==> |h.stored| == |h.taken| + PIPESIZE
      ensures r.Fail? ==> !readopen || killed
      ensures r.Sleep? ==> readopen && !killed
      ensures readopen == old(readopen) && writeopen == old(writeopen)
    {
      i := start;
      while i < |addr|
        invariant start <= i <= |addr| && Valid() && readopen == old(readopen) && writeopen == old(writeopen)
        invariant h == History(old(h.stored) + addr[start..i], old(h.taken))
      {
        Counters(|h.stored|, |h.taken|);
        if nwrite == (nread + PIPESIZE) % WRAP {
          return i, if !readopen || killed then Fail else Sleep;
        }
        PutByte(addr[i]);
        i := i + 1;
      }
      r := Done;
    }

    /** piperead: sleeps only on an empty pipe that still has a writer; else takes as many bytes
        as are there and asked for, the oldest first. */
    method Read(n: nat, killed: bool) returns (got: seq<Byte>, r: Outcome)
      requires Valid()
      modifies this
      ensures Valid() && h == History(old(h.stored), old(h.taken) + got)
      ensures !r.Done? <==> |old(h.taken)| == |h.stored| && writeopen
      ensures !r.Done? ==> got == [] && (r.Fail? <==> killed)
      ensures r.Done? ==> |got| == if |h.stored| - |old(h.taken)| < n then |h.stored| - |old(h.taken)| else n
      ensures readopen == old(readopen) && writeopen == old(writeopen)
    {
      Counters(|h.stored|, |h.taken|);
      got := [];
      if nread == nwrite && writeopen {
        return got, if killed then Fail else Sleep;
      }
      ghost var avail := |h.stored| - |h.taken|;
      while |got| < n
        invariant |got| <= n && |got| <= avail && Valid() && readopen == old(readopen) && writeopen == old(writeopen)
        invariant h == History(old(h.stored), old(h.taken) + got)
        decreases n - |got|
      {
        Counters(|h.stored|, |h.taken|);
        if nread == nwrite {
          break;
        }
        var b := GetByte();
        got := got + [b];
      }
      r := Done;
    }

    method Close(writable: bool) returns (freed: bool)
      requires Valid()
      modifies this
      ensures Valid() && h == old(h) && freed == (!readopen && !writeopen)
      ensures readopen == (old(readopen) && writable) && writeopen == (old(writeopen) && !writable)
    {
      if writable {
        writeopen := false;
      } else {
        readopen := false;
      }
      freed := !readopen && !writeopen;
    }
  }

  // ---- any interleaving of sections ----

  /** The ring between its counters, as a reader would find it. */
  lemma RestInRing(ring: Ring)
    requires ring.Valid()
    ensures ring.Contents() == ring.h.stored[|ring.h.taken|..]
  {
    var stored, taken := |ring.h.stored|, |ring.h.taken|;
    CountLeft(stored, taken);
    var got, want := ring.Contents(), ring.h.stored[taken..];
    forall k: nat | k < |want|
      ensures got[k] == want[k]
    {
      PlaceOf(taken, k);
      assert ring.data[(taken + k) % PIPESIZE] == ring.h.stored[taken + k];
    }
  }

  lemma CountLeft(stored: nat, taken: nat)
    requires taken <= stored <= taken + PIPESIZE
    ensures (stored % WRAP + WRAP - taken % WRAP) % WRAP == stored - taken
  {
    var q, p := stored / WRAP, taken / WRAP;
    assert stored == q * WRAP + stored % WRAP && taken == p * WRAP + taken % WRAP;
    assert p == q || q == p + 1;
  }

  lemma PlaceOf(n: nat, k: nat)
    ensures (n % WRAP + k) % PIPESIZE == (n + k) % PIPESIZE
  {
    assert n == (n / WRAP) * WRAP + n % WRAP;
    assert WRAP == 8388608 * PIPESIZE;
    assert n + k == (n / WRAP) * 8388608 * PIPESIZE + (n % WRAP + k);
    Multiples((n / WRAP) * 8388608, n % WRAP + k);
  }

  lemma Multiples(m: nat, r: nat)
    ensures (m * PIPESIZE + r) % PIPESIZE == r % PIPESIZE
  {
  }

  /** A section of some writer with these bytes left to store, of some reader, or a close of one
      end. A writer or reader that has to sleep comes back with another section. */
  datatype Call = Store(bytes: seq<Byte>, killed: bool) | Fetch(n: nat, killed: bool) | Shut(writable: bool)

  /** Each end is closed at most once, and not used afterwards. */
  predicate Disciplined(calls: seq<Call>) {
    forall i, j :: 0 <= i < j < |calls| && calls[i].Shut? ==>
      && calls[j] != calls[i]
      && (if calls[i].writable then !calls[j].Store? else !calls[j].Fetch?)
  }

  /** What the calls stored, one after the other: moved[k] is what call k has moved. */
  function Stored(calls: seq<Call>, moved: seq<seq<Byte>>): seq<Byte>
    requires |moved| == |calls|
  {
    if calls == [] then [] else
    Stored(calls[..|calls| - 1], moved[..|moved| - 1]) + if calls[|calls| - 1].Store? then moved[|moved| - 1] else []
  }

  function Fetched(calls: seq<Call>, moved: seq<seq<Byte>>): seq<Byte>
    requires |moved| == |calls|
  {
    if calls == [] then [] else
    Fetched(calls[..|calls| - 1], moved[..|moved| - 1]) + if calls[|calls| - 1].Fetch? then moved[|moved| - 1] else []
  }

  /** A writer has moved the first of its bytes, a reader no more than it asked for. */
  predicate Proper(c: Call, bytes: seq<Byte>) {
    match c
    case Store(all, _) => bytes <= all
    case Fetch(n, _) => |bytes| <= n
    case Shut(_) => bytes == []
  }

  /** One section. */
  method OneCall(ring: Ring, c: Call) returns (bytes: seq<Byte>, freed: bool)
    requires ring.Valid()
    modifies ring, ring.data
    ensures ring.Valid() && Proper(c, bytes)
    ensures ring.h.stored == old(ring.h.stored) + (if c.Store? then bytes else [])
    ensures ring.h.taken == old(ring.h.taken) + (if c.Fetch? then bytes else [])
    ensures ring.readopen == (old(ring.readopen) && c != Shut(false)) && ring.writeopen == (old(ring.writeopen) && c != Shut(true))
    ensures freed == (c.Shut? && !ring.readopen && !ring.writeopen)
  {
    bytes, freed := [], false;
    match c
    case Store(all, killed) =>
      var i, r := ring.Write(all, 0, killed);
      bytes := all[..i];
      assert all[0..i] == all[..i];
    case Fetch(n, killed) =>
      var r;
      bytes, r := ring.Read(n, killed);
    case Shut(writable) =>
      freed := ring.Close(writable);
  }

  /** Where a pipe is after these calls. */
  ghost predicate Ran(calls: seq<Call>, moved: seq<seq<Byte>>, h: History, readopen: bool, writeopen: bool, frees: nat) {
    && |moved| == |calls| && (forall m :: 0 <= m < |calls| ==> Proper(calls[m], moved[m]))
    && h == History(Stored(calls, moved), Fetched(calls, moved))
    && readopen == (Shut(false) !in calls) && writeopen == (Shut(true) !in calls)
    && frees == (if !readopen && !writeopen then 1 else 0)
    && (frees == 1 ==> |calls| > 0 && calls[|calls| - 1].Shut?)
  }

  lemma RanNext(calls: seq<Call>, moved: seq<seq<Byte>>, h: History, readopen: bool, writeopen: bool, frees: nat,
                c: Call, bytes: seq<Byte>, h': History, readopen': bool, writeopen': bool, freed: bool, calls': seq<Call>, moved': seq<seq<Byte>>)
    requires Ran(calls, moved, h, readopen, writeopen, frees) && frees == 0 && Proper(c, bytes)
    requires h'.stored == h.stored + (if c.Store? then bytes else []) && h'.taken == h.taken + (if c.Fetch? then bytes else [])
    requires readopen' == (readopen && c != Shut(false)) && writeopen' == (writeopen && c != Shut(true))
    requires freed == (c.Shut? && !readopen' && !writeopen') && calls' == calls + [c] && moved' == moved + [bytes]
    ensures Ran(calls', moved', h', readopen', writeopen', if freed then 1 else 0)
  {
    assert calls'[..|calls'| - 1] == calls && moved'[..|moved'| - 1] == moved;
  }

  /** A pipe from its creation on, under any interleaving of its readers and writers. The bytes
      fetched are the first of those stored, in the order in which they were stored, and the ring
      holds all the others; the memory is freed once, by the last call, when both ends are shut,
      and not before. */
  method Drive(calls: seq<Call>) returns (ring: Ring, moved: seq<seq<Byte>>, frees: nat)
    requires Disciplined(calls)
    ensures ring.Valid() && |moved| == |calls| && forall k :: 0 <= k < |calls| ==> Proper(calls[k], moved[k])
    ensures Stored(calls, moved) == Fetched(calls, moved) + ring.Contents()
    ensures frees == if Shut(true) in calls && Shut(false) in calls then 1 else 0
    ensures frees == 1 ==> calls[|calls| - 1].Shut?
  {
    ring := new Ring();
    moved, frees := [], 0;
    ghost var done: seq<Call> := [];
    var k := 0;
    while k < |calls|
      invariant 0 <= k <= |calls| && done == calls[..k] && ring.Valid() && fresh(ring) && fresh(ring.data)
      invariant Ran(done, moved, ring.h, ring.readopen, ring.writeopen, frees)
    {
      NotAfterBoth(calls, k);
      moved, frees := NextCall(ring, calls[k], done, moved, frees);
      done := done + [calls[k]];
      k := k + 1;
    }
    assert done == calls;
    RestInRing(ring);
  }

  method NextCall(ring: Ring, c: Call, ghost done: seq<Call>, moved: seq<seq<Byte>>, frees: nat) returns (moved': seq<seq<Byte>>, frees': nat)
    requires ring.Valid() && Ran(done, moved, ring.h, ring.readopen, ring.writeopen, frees) && (ring.readopen || ring.writeopen)
    modifies ring, ring.data
    ensures ring.Valid() && Ran(done + [c], moved', ring.h, ring.readopen, ring.writeopen, frees')
  {
    ghost var h, ro, wo := ring.h, ring.readopen, ring.writeopen;
    var bytes, freed := OneCall(ring, c);
    moved' := moved + [bytes];
    frees' := frees + if freed then 1 else 0;
    RanNext(done, moved, h, ro, wo, frees, c, bytes, ring.h, ring.readopen, ring.writeopen, freed, done + [c], moved');
  }

  lemma NotAfter(calls: seq<Call>, k: nat, w: bool)
    requires Disciplined(calls) && k < |calls| && Shut(w) in calls[..k]
    ensures calls[k] != Shut(w) && if w then !calls[k].Store? else !calls[k].Fetch?
  {
    var i :| 0 <= i < k && calls[i] == Shut(w);
  }

  /** Nothing is called after both ends have been shut. */
  lemma NotAfterBoth(calls: seq<Call>, k: nat)
    requires Disciplined(calls) && k < |calls|
    ensures !(Shut(true) in calls[..k] && Shut(false) in calls[..k])
  {
    if Shut(true) in calls[..k] {
      NotAfter(calls, k, true);
    }
    if Shut(false) in calls[..k] {
      NotAfter(calls, k, false);
    }
  }
}
