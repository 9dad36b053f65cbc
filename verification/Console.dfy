/** The line discipline of console.c: consoleintr edits at the end of a ring of 128 characters,
    consoleread takes from its front; the three indices wrap at 2^32. */
module Console {

  const INPUT_BUF: nat := 128
  const WRAP: nat := 0x1_0000_0000

  const NEWLINE: nat := 10
  const RETURN: nat := 13
  const CTRL_D: nat := 4
  const CTRL_H: nat := 8
  const CTRL_P: nat := 16
  const CTRL_U: nat := 21
  const DELETE: nat := 127

  // ---- the pure line editor ----

  /** All characters ever handed over to readers, how many of them were read, and the line
      being typed. */
  datatype Editor = Editor(committed: seq<nat>, read: nat, line: seq<nat>)

  predicate Room(ed: Editor)
    requires ed.read <= |ed.committed|
  {
    |ed.committed| + |ed.line| - ed.read < INPUT_BUF
  }

  /** A character that belongs into a line and ends no line. */
  predicate Plain(c: nat) {
    c != 0 && c != NEWLINE && c != CTRL_D
  }

  ghost predicate Sane(ed: Editor) {
    && ed.read <= |ed.committed| && |ed.committed| + |ed.line| - ed.read <= INPUT_BUF
    && forall k :: 0 <= k < |ed.line| ==> Plain(ed.line[k])
  }

  /** One key. A line is handed over by newline, control-D or a full buffer. */
  function Key(ed: Editor, c: nat): Editor
    requires ed.read <= |ed.committed|
  {
    if c == CTRL_P then ed
    else if c == CTRL_U then ed.(line := [])
    else if c == CTRL_H || c == DELETE then
      if ed.line == [] then ed else ed.(line := ed.line[..|ed.line| - 1])
    else if c == 0 || !Room(ed) then ed
    else
      var d := if c == RETURN then NEWLINE else c;
      var line := ed.line + [d];
      if d == NEWLINE || d == CTRL_D || !Room(ed.(line := line)) then
        ed.(committed := ed.committed + line, line := [])
      else ed.(line := line)
  }

  function Keys(ed: Editor, cs: seq<nat>): (r: Editor)
    requires ed.read <= |ed.committed|
    ensures r.read == ed.read && ed.committed <= r.committed
    decreases |cs|
  {
    if cs == [] then ed else
    var before := Keys(ed, cs[..|cs| - 1]);
    Key(before, cs[|cs| - 1])
  }

  /** What a call of consoleread has, how far it has read, and whether it returns. */
  datatype Reading = Reading(got: seq<nat>, used: nat, done: bool)

  /** consoleread with got already delivered and n wanted in all: it stops after a newline, at
      control-D, which it takes away only when it has nothing to return, or with n characters;
      when nothing is left it sleeps. */
  function Deliver(avail: seq<nat>, got: seq<nat>, n: nat): (r: Reading)
    ensures r.used <= |avail| && got <= r.got
  {
    if |got| >= n then Reading(got, 0, true)
    else if avail == [] then Reading(got, 0, false)
    else if avail[0] == CTRL_D then Reading(got, if got == [] then 1 else 0, true)
    else if avail[0] == NEWLINE then Reading(got + [NEWLINE], 1, true)
    else
      var rest := Deliver(avail[1..], got + [avail[0]], n);
      rest.(used := rest.used + 1)
  }

  /** A text without its control-D. */
  function Visible(s: seq<nat>): seq<nat> {
    if s == [] then [] else
    Visible(s[..|s| - 1]) + if s[|s| - 1] == CTRL_D then [] else [s[|s| - 1]]
  }

  lemma {:induction false} VisibleAfter(a: seq<nat>, b: seq<nat>)
    ensures Visible(a + b) == Visible(a) + Visible(b)
  {
    if b == [] {
      assert a + b == a;
    } else {
      VisibleAfter(a, b[..|b| - 1]);
      assert (a + b)[..|a + b| - 1] == a + b[..|b| - 1];
    }
  }

  /** A call hands out exactly what it reads, but for a control-D, and nothing after a newline. */
  lemma {:induction false} DeliverIs(avail: seq<nat>, got: seq<nat>, n: nat)
    ensures var r := Deliver(avail, got, n);
      && r.got == got + Visible(avail[..r.used])
      && (forall k :: 0 <= k < r.used - 1 ==> avail[k] != NEWLINE && avail[k] != CTRL_D)
      && (!r.done ==> r.used == |avail| && |r.got| < n)
      && (r.used > 0 && avail[r.used - 1] == CTRL_D ==> r.used == 1 && r.got == [])
    decreases |avail|
  {
    var r := Deliver(avail, got, n);
    if |got| < n && avail != [] && avail[0] != CTRL_D && avail[0] != NEWLINE {
      DeliverIs(avail[1..], got + [avail[0]], n);
      var u := r.used - 1;
      assert avail[..r.used] == [avail[0]] + avail[1..][..u];
      VisibleAfter([avail[0]], avail[1..][..u]);
      assert forall k :: 0 < k < r.used ==> avail[k] == avail[1..][k - 1];
    } else {
      assert r.used == 1 ==> avail[..1] == [avail[0]];
    }
  }

  // ---- the ring ----

  function Up(n: nat): nat {
    (n + 1) % WRAP
  }

  function Down(n: nat): nat {
    (n + WRAP - 1) % WRAP
  }

  /** What the code computes on wrapped indices is what holds of the true ones. */
  lemma Near(r: nat, x: nat)
    requires r <= x <= r + INPUT_BUF
    ensures x % WRAP == r % WRAP <==> x == r
    ensures (x % WRAP + WRAP - r % WRAP) % WRAP == x - r
    ensures x % WRAP == (r % WRAP + INPUT_BUF) % WRAP <==> x == r + INPUT_BUF
  {
    var p, q := x / WRAP, r / WRAP;
    assert x == p * WRAP + x % WRAP && r == q * WRAP + r % WRAP;
    assert p == q || p == q + 1;
  }

  lemma Step(x: nat)
    ensures x % WRAP % INPUT_BUF == x % INPUT_BUF && Up(x % WRAP) == (x + 1) % WRAP
    ensures x > 0 ==> Down(x % WRAP) == (x - 1) % WRAP
  {
    assert x == (x / WRAP) * WRAP + x % WRAP;
    assert WRAP == 33554432 * INPUT_BUF;
  }

  lemma Places(a: nat, b: nat)
    requires a < b < a + INPUT_BUF
    ensures a % INPUT_BUF != b % INPUT_BUF
  {
    assert a == (a / INPUT_BUF) * INPUT_BUF + a % INPUT_BUF && b == (b / INPUT_BUF) * INPUT_BUF + b % INPUT_BUF;
  }

  /** How a stretch of consoleread ends: the call returns its count, sleeps, or returns -1. */
  datatype Ending = Returns | Sleeps | MinusOne

  class Input {
    const buf: array<nat>
    var r: nat
    var w: nat
    var e: nat
    ghost var ed: Editor

    /** r, w and e are in order within one ring, the ring holds what was committed and not read,
        then the line, and no newline lies between w and e. */
    ghost predicate Valid()
      reads this, buf
    {
      && buf.Length == INPUT_BUF && Sane(ed)
      && r == ed.read % WRAP && w == |ed.committed| % WRAP && e == (|ed.committed| + |ed.line|) % WRAP
      && Holds(buf[..], ed)
    }

    constructor ()
      ensures Valid() && fresh(buf) && ed == Editor([], 0, [])
    {
      buf := new nat[INPUT_BUF](i => 0);
      r, w, e := 0, 0, 0;
      ed := Editor([], 0, []);
    }

    method Append(c: nat)
      requires Valid() && Room(ed) && Plain(c)
      modifies this, buf
      ensures Valid() && ed == old(ed).(line := old(ed).line + [c])
    {
      ghost var n := |ed.committed| + |ed.line|;
      Step(n);
      HoldsMore(buf[..], ed, c);
      buf[e % INPUT_BUF] := c;
      e := Up(e);
      ed := ed.(line := ed.line + [c]);
    }

    /** The last character of a line, and the line is handed over. */
    method Finish(c: nat)
      requires Valid() && Room(ed)
      modifies this, buf
      ensures Valid() && ed == old(ed).(committed := old(ed).committed + (old(ed).line + [c]), line := [])
    {
      ghost var n := |ed.committed| + |ed.line|;
      Step(n);
      HoldsMore(buf[..], ed, c);
      buf[e % INPUT_BUF] := c;
      e := Up(e);
      w := e;
      ed := ed.(committed := ed.committed + (ed.line + [c]), line := []);
    }

    method Erase()
      requires Valid() && ed.line != []
      modifies this
      ensures Valid() && ed == old(ed).(line := old(ed).line[..|old(ed).line| - 1])
    {
      Step(|ed.committed| + |ed.line|);
      e := Down(e);
      HoldsLess(buf[..], ed);
      ed := ed.(line := ed.line[..|ed.line| - 1]);
    }

    /** control-U erases the whole line and never crosses w. */
    method KillLine()
      requires Valid()
      modifies this
      ensures Valid() && ed == old(ed).(line := [])
    {
      Near(|ed.committed|, |ed.committed| + |ed.line|);
      while e != w && buf[Down(e) % INPUT_BUF] != NEWLINE
        invariant Valid() && |ed.line| <= |old(ed).line| && ed == old(ed).(line := ed.line)
        invariant e != w <==> ed.line != []
        decreases |ed.line|
      {
        Erase();
        Near(|ed.committed|, |ed.committed| + |ed.line|);
      }
      if ed.line != [] {
        LastPlain(buf[..], ed);
      }
    }

    method Insert(key: nat)
      requires Valid() && key != 0 && Room(ed) && key != CTRL_P && key != CTRL_U && key != CTRL_H && key != DELETE
      modifies this, buf
      ensures Valid() && ed == Key(old(ed), key)
    {
      var c := if key == RETURN then NEWLINE else key;
      Near(ed.read, |ed.committed| + |ed.line| + 1);
      Step(|ed.committed| + |ed.line|);
      if c == NEWLINE || c == CTRL_D || Up(e) == (r + INPUT_BUF) % WRAP {
        Finish(c);
      } else {
        Append(c);
      }
    }

    /** One key of consoleintr. */
    method Type(key: nat)
      requires Valid()
      modifies this, buf
      ensures Valid() && ed == Key(old(ed), key)
    {
      Near(|ed.committed|, |ed.committed| + |ed.line|);
      Near(ed.read, |ed.committed| + |ed.line|);
      if key == CTRL_P {
      } else if key == CTRL_U {
        KillLine();
      } else if key == CTRL_H || key == DELETE {
        if e != w {
          Erase();
        }
      } else if key != 0 && (e + WRAP - r) % WRAP < INPUT_BUF {
        Insert(key);
      }
    }

    /** consoleintr does what the line editor does, whatever is typed. */
    method Interrupt(keys: seq<nat>)
      requires Valid()
      modifies this, buf
      ensures Valid() && ed == Keys(old(ed), keys)
    {
      var i := 0;
      while i < |keys|
        invariant 0 <= i <= |keys| && Valid() && ed == Keys(old(ed), keys[..i])
      {
        Type(keys[i]);
        assert keys[..i + 1][..i] == keys[..i];
        i := i + 1;
      }
      assert keys[..|keys|] == keys;
    }

    method GetChar() returns (c: nat)
      requires Valid() && ed.read < |ed.committed|
      modifies this
      ensures Valid() && c == old(ed).committed[old(ed).read] && ed == old(ed).(read := old(ed).read + 1)
      ensures w == old(w)
    {
      Step(ed.read);
      assert (ed.committed + ed.line)[ed.read] == ed.committed[ed.read];
      c := buf[r % INPUT_BUF];
      r := Up(r);
      ed := ed.(read := ed.read + 1);
    }

    /** A character just taken is put back. */
    method UngetChar(ghost was: Editor)
      requires Valid() && was.read < |was.committed| && ed == was.(read := was.read + 1) && Sane(was) && Holds(buf[..], was)
      modifies this
      ensures Valid() && ed == was
    {
      Step(ed.read);
      r := Down(r);
      ed := was;
    }

    /** A stretch of consoleread between two sleeps: it hands out what Deliver says of the
        characters committed and not yet read. Where it would sleep, a killed reader gives up. */
    method Read(before: seq<nat>, n: nat, killed: bool) returns (dst: seq<nat>, e: Ending)
      requires Valid() && |before| <= n
      modifies this
      ensures Valid()
      ensures var d := Deliver(old(ed).committed[old(ed).read..], before, n);
        && dst == d.got && ed == old(ed).(read := old(ed).read + d.used)
        && e == if d.done then Returns else if killed then MinusOne else Sleeps
    {
      dst := before;
      e := Returns;
      ghost var was, avail := ed, ed.committed[ed.read..];
      ghost var used := 0;
      assert avail[0..] == avail;
      while |dst| < n
        invariant |dst| <= n && used <= |avail| && Valid() && ed == was.(read := was.read + used)
        invariant Deliver(avail, before, n) == Later(Deliver(avail[used..], dst, n), used)
        decreases n - |dst|
      {
        Near(ed.read, |ed.committed|);
        if r == w {
          e := if killed then MinusOne else Sleeps;
          return;
        }
        ghost var now := ed;
        DeliverOne(avail, used, dst, n);
        var c := GetChar();
        assert c == avail[used];
        if c == CTRL_D {
          if |dst| > 0 {
            UngetChar(now);
          }
          return;
        }
        dst := dst + [c];
        if c == NEWLINE {
          return;
        }
        used := used + 1;
      }
    }
  }

  /** One character of consoleread. */
  lemma DeliverOne(avail: seq<nat>, used: nat, dst: seq<nat>, n: nat)
    requires used < |avail| && |dst| < n
    ensures Deliver(avail[used..], dst, n) ==
      if avail[used] == CTRL_D then Reading(dst, if dst == [] then 1 else 0, true)
      else if avail[used] == NEWLINE then Reading(dst + [NEWLINE], 1, true)
      else Later(Deliver(avail[used + 1..], dst + [avail[used]], n), 1)
  {
    assert avail[used..][1..] == avail[used + 1..];
  }

  function Later(d: Reading, n: nat): Reading {
    d.(used := d.used + n)
  }

  // ---- keys and reads in any order ----

  /** Keys typed, or a stretch of some call of consoleread. */
  datatype Event = Typed(keys: seq<nat>) | Reads(before: seq<nat>, n: nat)

  datatype Session = Session(ed: Editor, out: seq<nat>)

  function Next(s: Session, e: Event): Session
    requires s.ed.read <= |s.ed.committed|
  {
    match e
    case Typed(keys) => s.(ed := Keys(s.ed, keys))
    case Reads(before, n) =>
      var d := Deliver(s.ed.committed[s.ed.read..], before, n);
      Session(s.ed.(read := s.ed.read + d.used), s.out + d.got[|before|..])
  }

  function Play(es: seq<Event>): (s: Session)
    ensures s.ed.read <= |s.ed.committed|
  {
    if es == [] then Session(Editor([], 0, []), []) else Next(Play(es[..|es| - 1]), es[|es| - 1])
  }

  lemma {:induction false} KeysSane(ed: Editor, cs: seq<nat>)
    requires Sane(ed)
    ensures Sane(Keys(ed, cs))
  {
    if cs != [] {
      KeysSane(ed, cs[..|cs| - 1]);
    }
  }

  /** The three indices stay in order within one ring and the line never holds a newline. */
  lemma {:induction false} AlwaysSane(es: seq<Event>)
    ensures Sane(Play(es).ed)
  {
    if es != [] {
      AlwaysSane(es[..|es| - 1]);
      var t, e := Play(es[..|es| - 1]), es[|es| - 1];
      if e.Typed? {
        KeysSane(t.ed, e.keys);
      }
    }
  }

  lemma ReadsMore(ed: Editor, before: seq<nat>, n: nat)
    requires ed.read <= |ed.committed|
    ensures var d := Deliver(ed.committed[ed.read..], before, n);
      Visible(ed.committed[..ed.read]) + d.got[|before|..] == Visible(ed.committed[..ed.read + d.used])
  {
    var avail := ed.committed[ed.read..];
    var d := Deliver(avail, before, n);
    DeliverIs(avail, before, n);
    VisibleAfter(ed.committed[..ed.read], avail[..d.used]);
    assert ed.committed[..ed.read] + avail[..d.used] == ed.committed[..ed.read + d.used];
  }

  /** Whatever is typed and read, in whatever order: readers get exactly what the line editor
      has committed, up to where they have read, without the control-Ds that ended their calls. */
  lemma {:induction false} ReadersGetCommitted(es: seq<Event>)
    ensures var s := Play(es); s.out == Visible(s.ed.committed[..s.ed.read])
  {
    if es != [] {
      var t, e := Play(es[..|es| - 1]), es[|es| - 1];
      ReadersGetCommitted(es[..|es| - 1]);
      match e
      case Typed(keys) =>
        assert Keys(t.ed, keys).committed[..t.ed.read] == t.ed.committed[..t.ed.read];
      case Reads(before, n) => ReadsMore(t.ed, before, n);
    }
  }

  /** The ring holds all that is not read yet. */
  ghost predicate Holds(buf: seq<nat>, ed: Editor)
    requires |buf| == INPUT_BUF
  {
    var all := ed.committed + ed.line;
    forall k: nat :: ed.read <= k < |all| ==> buf[k % INPUT_BUF] == all[k]
  }

  lemma HoldsMore(buf: seq<nat>, ed: Editor, c: nat)
    requires |buf| == INPUT_BUF && Sane(ed) && Room(ed) && Holds(buf, ed)
    ensures var n := |ed.committed| + |ed.line|; var b := buf[n % INPUT_BUF := c];
      && Holds(b, ed.(line := ed.line + [c]))
      && Holds(b, ed.(committed := ed.committed + (ed.line + [c]), line := []))
  {
    var n := |ed.committed| + |ed.line|;
    var all, more := ed.committed + ed.line, ed.committed + (ed.line + [c]);
    assert more == all + [c] && ed.committed + (ed.line + [c]) + [] == more;
    forall k: nat | ed.read <= k < |more|
      ensures buf[n % INPUT_BUF := c][k % INPUT_BUF] == more[k]
    {
      if k < n {
        Places(k, n);
        assert more[k] == all[k];
      }
    }
  }

  lemma HoldsLess(buf: seq<nat>, ed: Editor)
    requires |buf| == INPUT_BUF && ed.line != [] && Holds(buf, ed)
    ensures Holds(buf, ed.(line := ed.line[..|ed.line| - 1]))
  {
    var all, less := ed.committed + ed.line, ed.committed + ed.line[..|ed.line| - 1];
    forall k: nat | ed.read <= k < |less|
      ensures buf[k % INPUT_BUF] == less[k]
    {
      assert less[k] == all[k];
    }
  }

  lemma LastPlain(buf: seq<nat>, ed: Editor)
    requires |buf| == INPUT_BUF && ed.line != [] && Holds(buf, ed) && Sane(ed)
    ensures buf[Down((|ed.committed| + |ed.line|) % WRAP) % INPUT_BUF] != NEWLINE
  {
    var n: nat := |ed.committed| + |ed.line| - 1;
    Step(n + 1);
    Step(n);
    assert (ed.committed + ed.line)[n] == ed.line[|ed.line| - 1];
    assert buf[n % INPUT_BUF] == (ed.committed + ed.line)[n];
  }
}
