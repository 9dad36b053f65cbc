/** Link counts: sys_link, sys_unlink and create of sysfile.c over the directories and the
    reference counts of fs.c. A call is what happens once its path has been resolved. */
module Links {
  import opened Options

  datatype Kind = Free | Dir | File | Dev

  /** inum 0 marks an empty slot of a directory. */
  datatype Entry = Entry(inum: nat, name: string)

  datatype Node = Node(kind: Kind, nlink: nat, ents: seq<Entry>)

  /** nodes is indexed by inode number; refs counts the references held in memory. */
  datatype State = State(nodes: seq<Node>, refs: seq<nat>)

  /** A place in a directory. */
  datatype Slot = Slot(d: nat, k: nat)

  const ROOT: nat := 1
  const DOT := "."
  const DOTDOT := ".."

  // ---- directories ----

  /** dirlookup, from slot k on. */
  function Lookup(ents: seq<Entry>, name: string, k: nat): (r: Option<nat>)
    requires k <= |ents|
    ensures r.Some? ==> k <= r.value < |ents| && ents[r.value].inum != 0 && ents[r.value].name == name
    ensures forall j :: k <= j < (if r.Some? then r.value else |ents|) ==> ents[j].inum == 0 || ents[j].name != name
    decreases |ents| - k
  {
    if k == |ents| then None
    else if ents[k].inum != 0 && ents[k].name == name then Some(k)
    else Lookup(ents, name, k + 1)
  }

  /** The slot that dirlink writes: the first empty one, or one past the end. */
  function EmptySlot(ents: seq<Entry>, k: nat): (r: nat)
    requires k <= |ents|
    ensures k <= r <= |ents| && (r < |ents| ==> ents[r].inum == 0)
    ensures forall j :: k <= j < r ==> ents[j].inum != 0
    decreases |ents| - k
  {
    if k == |ents| || ents[k].inum == 0 then k else EmptySlot(ents, k + 1)
  }

  function PutEntry(ents: seq<Entry>, k: nat, e: Entry): (r: seq<Entry>)
    requires k <= |ents|
    ensures |r| == (if k == |ents| then k + 1 else |ents|) && r[k] == e
    ensures forall j :: 0 <= j < |ents| && j != k ==> r[j] == ents[j]
  {
    if k == |ents| then ents + [e] else ents[k := e]
  }

  function AddEntry(ents: seq<Entry>, e: Entry): seq<Entry> {
    PutEntry(ents, EmptySlot(ents, 0), e)
  }

  /** isdirempty looks from the third slot on. */
  predicate EmptyDir(ents: seq<Entry>) {
    forall k :: 2 <= k < |ents| ==> ents[k].inum == 0
  }

  // ---- who names an inode ----

  predicate Linked(n: Node) {
    n.kind.Dir? && n.nlink > 0
  }

  /** Slot s of a linked directory names inode i, and is not a dot entry. */
  predicate Names(nodes: seq<Node>, s: Slot, i: nat) {
    && s.d < |nodes| && Linked(nodes[s.d]) && s.k < |nodes[s.d].ents|
    && nodes[s.d].ents[s.k].inum == i && nodes[s.d].ents[s.k].name != DOT
  }

  ghost function SlotsOf(d: nat, n: nat): (r: set<Slot>)
    ensures forall s: Slot :: s in r <==> s.d == d && s.k < n
  {
    if n == 0 then {} else SlotsOf(d, n - 1) + {Slot(d, n - 1)}
  }

  ghost function AllSlots(nodes: seq<Node>): (r: set<Slot>)
    ensures forall s: Slot :: s in r <==> s.d < |nodes| && s.k < |nodes[s.d].ents|
  {
    if nodes == [] then {} else
    AllSlots(nodes[..|nodes| - 1]) + SlotsOf(|nodes| - 1, |nodes[|nodes| - 1].ents|)
  }

  ghost function NamedBy(nodes: seq<Node>, i: nat): (r: set<Slot>)
    ensures forall s: Slot :: s in r <==> Names(nodes, s, i)
  {
    set s | s in AllSlots(nodes) && Names(nodes, s, i)
  }

  // ---- the calls ----

  function SetNode(t: State, i: nat, n: Node): State
    requires i < |t.nodes|
  {
    t.(nodes := t.nodes[i := n])
  }

  /** iput of a reference taken within the call: the inode goes when it has no link and nobody
      else refers to it. */
  function Drop(t: State, i: nat): State
    requires i < |t.nodes| == |t.refs|
  {
    if t.nodes[i].nlink == 0 && t.refs[i] == 0 then SetNode(t, i, Node(Free, 0, [])) else t
  }

  /** iput of a reference held since an earlier call. */
  function Close(t: State, i: nat): State
    requires i < |t.nodes| == |t.refs| && t.refs[i] > 0
  {
    Drop(t.(refs := t.refs[i := t.refs[i] - 1]), i)
  }

  function Open(t: State, i: nat): State
    requires i < |t.nodes| == |t.refs|
  {
    t.(refs := t.refs[i := t.refs[i] + 1])
  }

  function AddName(t: State, dp: nat, name: string, i: nat): State
    requires dp < |t.nodes|
  {
    var n := t.nodes[dp];
    SetNode(t, dp, n.(ents := AddEntry(n.ents, Entry(i, name))))
  }

  function Bump(t: State, ip: nat): State
    requires ip < |t.nodes|
  {
    SetNode(t, ip, t.nodes[ip].(nlink := t.nodes[ip].nlink + 1))
  }

  /** sys_link; dp is what nameiparent returned. */
  function Link(t: State, ip: nat, dp: Option<nat>, name: string): (r: (State, int))
    requires ip < |t.nodes| && (dp.Some? ==> dp.value < |t.nodes|)
  {
    if t.nodes[ip].kind.Dir? then (t, -1) else
    var up := Bump(t, ip);
    if dp.None? || Lookup(up.nodes[dp.value].ents, name, 0).Some?
    then (SetNode(up, ip, up.nodes[ip].(nlink := up.nodes[ip].nlink - 1)), -1)
    else (AddName(up, dp.value, name, ip), 0)
  }

  /** sys_unlink, from the entry found to the two iupdates. */
  function Remove(t: State, dp: nat, k: nat): State
    requires dp < |t.nodes| && k < |t.nodes[dp].ents| && t.nodes[dp].ents[k].inum < |t.nodes|
    requires t.nodes[t.nodes[dp].ents[k].inum].nlink > 0 && t.nodes[dp].nlink > 0 && t.nodes[dp].ents[k].inum != dp
  {
    var ip := t.nodes[dp].ents[k].inum;
    var d := t.nodes[dp].(ents := t.nodes[dp].ents[k := Entry(0, "")]);
    var d2 := if t.nodes[ip].kind.Dir? then d.(nlink := d.nlink - 1) else d;
    SetNode(SetNode(t, dp, d2), ip, t.nodes[ip].(nlink := t.nodes[ip].nlink - 1))
  }

  predicate Removable(t: State, dp: nat, k: nat) {
    && dp < |t.nodes| && k < |t.nodes[dp].ents| && t.nodes[dp].ents[k].inum < |t.nodes|
    && t.nodes[t.nodes[dp].ents[k].inum].nlink > 0 && t.nodes[dp].nlink > 0 && t.nodes[dp].ents[k].inum != dp
  }

  /** sys_unlink; writable is has_write_permission(dp). The calls that would panic are None. */
  function Unlink(t: State, dp: nat, name: string, writable: bool): (r: Option<(State, int)>)
    requires dp < |t.nodes| == |t.refs|
  {
    if !writable || name == DOT || name == DOTDOT then Some((t, -1)) else
    var f := Lookup(t.nodes[dp].ents, name, 0);
    if f.None? then Some((t, -1))
    else if !Removable(t, dp, f.value) then None
    else
      var ip := t.nodes[dp].ents[f.value].inum;
      if t.nodes[ip].kind.Dir? && !EmptyDir(t.nodes[ip].ents) then Some((t, -1))
      else Some((Drop(Remove(t, dp, f.value), ip), 0))
  }

  /** ialloc's search. */
  function FirstFree(nodes: seq<Node>, i: nat): (r: Option<nat>)
    requires i <= |nodes|
    ensures r.Some? ==> i <= r.value < |nodes| && nodes[r.value].kind.Free?
    ensures forall j :: i <= j < (if r.Some? then r.value else |nodes|) ==> !nodes[j].kind.Free?
    decreases |nodes| - i
  {
    if i == |nodes| then None else if nodes[i].kind.Free? then Some(i) else FirstFree(nodes, i + 1)
  }

  /** create before the entry goes into dp. */
  function Prepared(t: State, dp: nat, kind: Kind, i: nat): State
    requires dp < |t.nodes| && i < |t.nodes|
  {
    var ents := if kind.Dir? then AddEntry(AddEntry([], Entry(i, DOT)), Entry(dp, DOTDOT)) else [];
    var t1 := SetNode(t, i, Node(kind, 1, ents));
    if kind.Dir? then Bump(t1, dp) else t1
  }

  /** create once the name is known to be new: the inode, the parent's count, the entries. */
  function Make(t: State, dp: nat, name: string, kind: Kind, i: nat): State
    requires dp < |t.nodes| == |t.refs| && i < |t.nodes|
  {
    Open(AddName(Prepared(t, dp, kind, i), dp, name, i), i)
  }

  /** create. wdir and wfile are has_write_permission of the directory and of the file found.
      The file found but not writable keeps the reference taken for it. */
  function Create(t: State, dp: nat, name: string, kind: Kind, wdir: bool, wfile: bool): (r: Option<(State, Option<nat>)>)
    requires 1 <= dp < |t.nodes| == |t.refs|
  {
    var f := Lookup(t.nodes[dp].ents, name, 0);
    if f.Some? then
      var ip := t.nodes[dp].ents[f.value].inum;
      if ip >= |t.nodes| then None
      else if kind.File? && t.nodes[ip].kind.File? then Some((Open(t, ip), if wfile then Some(ip) else None))
      else Some((t, None))
    else if !wdir then Some((t, None))
    else
      var i := FirstFree(t.nodes, 1);
      if i.None? then None else Some((Make(t, dp, name, kind, i.value), i))
  }

  // ---- the invariant ----

  /** Every inode's link count is the number of entries that name it. */
  ghost predicate Counts(nodes: seq<Node>) {
    forall i: nat {:trigger CountOk(nodes, i)} :: 1 <= i < |nodes| ==> CountOk(nodes, i)
  }

  ghost predicate CountOk(nodes: seq<Node>, i: nat)
    requires i < |nodes|
  {
    nodes[i].nlink == |NamedBy(nodes, i)|
  }

  ghost predicate UniqueNames(ents: seq<Entry>) {
    forall j, k :: 0 <= j < k < |ents| && ents[j].inum != 0 && ents[k].inum != 0 ==> ents[j].name != ents[k].name
  }

  ghost predicate Shape(n: Node, i: nat) {
    && (n.kind.Free? ==> n.nlink == 0)
    && (if n.kind.Dir? then
          && |n.ents| >= 2 && n.ents[0] == Entry(i, DOT) && n.ents[1].name == DOTDOT && n.ents[1].inum != 0
          && UniqueNames(n.ents)
        else n.ents == [])
  }

  /** An inode is in use exactly while it has a link or a reference. */
  ghost predicate Kept(t: State, i: nat)
    requires i < |t.nodes| && i < |t.refs|
  {
    t.nodes[i].kind.Free? <==> t.nodes[i].nlink == 0 && t.refs[i] == 0
  }

  /** Slot s lists inode i as a child. */
  ghost predicate Lists(nodes: seq<Node>, s: Slot, i: nat) {
    s.k >= 2 && Names(nodes, s, i)
  }

  /** A linked directory other than the root is listed in the directory that its ".." names. */
  ghost predicate Hangs(nodes: seq<Node>, d: nat)
    requires d < |nodes|
  {
    exists s :: Lists(nodes, s, d) && |nodes[d].ents| >= 2 && s.d == nodes[d].ents[1].inum
  }

  ghost predicate Tree(nodes: seq<Node>) {
    && ROOT < |nodes| && Linked(nodes[ROOT]) && |nodes[ROOT].ents| >= 2 && nodes[ROOT].ents[1].inum == ROOT
    && (forall s: Slot :: !Lists(nodes, s, ROOT) && !Lists(nodes, s, s.d))
    && (forall d: nat, s: Slot, r: Slot :: d < |nodes| && nodes[d].kind.Dir? && Lists(nodes, s, d) && Lists(nodes, r, d) ==> s == r)
    && (forall d: nat {:trigger Hangs(nodes, d)} :: d < |nodes| && Linked(nodes[d]) && d != ROOT ==> Hangs(nodes, d))
  }

  /** The invariant, but inode x may be left without link and reference. */
  ghost predicate InvBut(t: State, x: nat) {
    && |t.refs| == |t.nodes| && |t.nodes| > 1 && t.nodes[0].kind.Free?
    && Counts(t.nodes) && Tree(t.nodes)
    && (forall i: nat :: i < |t.nodes| ==> Shape(t.nodes[i], i))
    && (forall i: nat :: i < |t.nodes| && i != x ==> Kept(t, i))
    && (forall i: nat :: i < |t.nodes| && t.nodes[i].kind.Free? ==> t.refs[i] == 0)
    && (forall s: Slot, i: nat :: Names(t.nodes, s, i) ==> i < |t.nodes|)
    && (forall i: nat :: i < |t.nodes| && t.nodes[i].kind.Dir? ==> UpOk(t.nodes, i))
  }

  /** ".." of a directory, even of one no longer linked, names some other inode. */
  ghost predicate UpOk(nodes: seq<Node>, i: nat)
    requires i < |nodes|
  {
    |nodes[i].ents| >= 2 && nodes[i].ents[1].inum < |nodes| && (i != ROOT ==> nodes[i].ents[1].inum != i)
  }

  ghost predicate Inv(t: State) {
    InvBut(t, 0)
  }

  /** An entry of a linked directory names an inode that is in use and linked. */
  lemma NamedIsLinked(t: State, s: Slot, i: nat)
    requires Inv(t) && Names(t.nodes, s, i) && i != 0
    ensures i < |t.nodes| && t.nodes[i].nlink > 0 && !t.nodes[i].kind.Free?
  {
    assert CountOk(t.nodes, i) && s in NamedBy(t.nodes, i);
    assert Shape(t.nodes[i], i);
  }

  // ---- references ----

  ghost predicate SameNames(n0: seq<Node>, n1: seq<Node>) {
    forall s: Slot, i: nat :: Names(n1, s, i) == Names(n0, s, i)
  }

  lemma CountsSame(n0: seq<Node>, n1: seq<Node>)
    requires Counts(n0) && SameNames(n0, n1) && |n1| == |n0|
    requires forall i: nat :: i < |n0| ==> n1[i].nlink == n0[i].nlink
    ensures Counts(n1)
  {
    forall i: nat | 1 <= i < |n1|
      ensures CountOk(n1, i)
    {
      assert CountOk(n0, i);
      NamedEqual(n0, n1, i);
    }
  }

  lemma TreeSame(n0: seq<Node>, n1: seq<Node>)
    requires Tree(n0) && SameNames(n0, n1) && |n1| == |n0|
    requires forall d: nat :: d < |n0| && n1[d].kind.Dir? ==> n1[d] == n0[d]
    requires n1[ROOT] == n0[ROOT]
    ensures Tree(n1)
  {
    forall s: Slot, d: nat
      ensures Lists(n1, s, d) == Lists(n0, s, d)
    {
      assert Names(n1, s, d) == Names(n0, s, d);
    }
    forall d: nat | d < |n1| && Linked(n1[d]) && d != ROOT
      ensures Hangs(n1, d)
    {
      assert Hangs(n0, d);
      var s :| Lists(n0, s, d) && s.d == n0[d].ents[1].inum;
      assert Lists(n1, s, d);
    }
  }

  lemma FreeSame(nodes: seq<Node>, x: nat)
    requires x < |nodes| && nodes[x].nlink == 0
    ensures SameNames(nodes, nodes[x := Node(Free, 0, [])])
  {
  }

  lemma DropInv(t: State, x: nat)
    requires InvBut(t, x) && x < |t.nodes|
    ensures Inv(Drop(t, x))
  {
    var u := Drop(t, x);
    forall i: nat | i < |u.nodes| && i != 0
      ensures Kept(u, i)
    {
      assert i != x ==> Kept(t, i);
    }
    if t.nodes[x].nlink == 0 && t.refs[x] == 0 {
      FreeSame(t.nodes, x);
      CountsSame(t.nodes, u.nodes);
      TreeSame(t.nodes, u.nodes);
    }
  }

  lemma RefsInv(t: State, u: State, x: nat)
    requires Inv(t) && u.nodes == t.nodes && |u.refs| == |t.refs| && x < |t.nodes| && !t.nodes[x].kind.Free?
    requires forall i: nat :: i < |t.refs| && i != x ==> u.refs[i] == t.refs[i]
    ensures InvBut(u, x)
  {
    forall i: nat | i < |u.nodes| && i != x
      ensures Kept(u, i)
    {
      assert i != 0 ==> Kept(t, i);
    }
  }

  lemma CloseInv(t: State, i: nat)
    requires Inv(t) && i < |t.nodes| && t.refs[i] > 0
    ensures Inv(Close(t, i))
  {
    var u := t.(refs := t.refs[i := t.refs[i] - 1]);
    RefsInv(t, u, i);
    DropInv(u, i);
  }

  lemma OpenInv(t: State, i: nat)
    requires Inv(t) && InUse(t, i)
    ensures Inv(Open(t, i))
  {
    RefsInv(t, Open(t, i), i);
    assert Kept(Open(t, i), i);
    forall j: nat | j < |t.nodes| && j != 0
      ensures Kept(Open(t, i), j)
    {
    }
  }

  // ---- taking a name away ----

  lemma NamedLess(n0: seq<Node>, n1: seq<Node>, i: nat, s: Slot)
    requires Names(n0, s, i) && forall r: Slot :: Names(n1, r, i) <==> Names(n0, r, i) && r != s
    ensures |NamedBy(n1, i)| == |NamedBy(n0, i)| - 1
  {
    assert NamedBy(n1, i) == NamedBy(n0, i) - {s};
  }

  lemma NamedMore(n0: seq<Node>, n1: seq<Node>, i: nat, s: Slot)
    requires !Names(n0, s, i) && forall r: Slot :: Names(n1, r, i) <==> Names(n0, r, i) || r == s
    ensures |NamedBy(n1, i)| == |NamedBy(n0, i)| + 1
  {
    assert NamedBy(n1, i) == NamedBy(n0, i) + {s};
  }

  lemma NamedEqual(n0: seq<Node>, n1: seq<Node>, i: nat)
    requires forall r: Slot :: Names(n1, r, i) <==> Names(n0, r, i)
    ensures |NamedBy(n1, i)| == |NamedBy(n0, i)|
  {
    assert NamedBy(n1, i) == NamedBy(n0, i);
  }

  /** What sys_unlink has found: a child k of the linked directory dp. */
  ghost predicate Found(t: State, dp: nat, k: nat) {
    && dp < |t.nodes| && Linked(t.nodes[dp]) && 2 <= k < |t.nodes[dp].ents|
    && t.nodes[dp].ents[k].inum != 0 && t.nodes[dp].ents[k].name != DOT && t.nodes[dp].ents[k].name != DOTDOT
  }

  lemma FoundRemovable(t: State, dp: nat, k: nat)
    requires Inv(t) && Found(t, dp, k)
    ensures Removable(t, dp, k) && t.nodes[dp].ents[k].inum != ROOT
  {
    var ip := t.nodes[dp].ents[k].inum;
    assert Lists(t.nodes, Slot(dp, k), ip);
    NamedIsLinked(t, Slot(dp, k), ip);
  }

  /** An empty directory is named once, by its parent, which its ".." names. */
  lemma EmptyDirOnce(t: State, dp: nat, k: nat)
    requires Inv(t) && Found(t, dp, k) && Removable(t, dp, k)
    requires var n := t.nodes[t.nodes[dp].ents[k].inum]; n.kind.Dir? && EmptyDir(n.ents)
    ensures var ip := t.nodes[dp].ents[k].inum;
      t.nodes[ip].nlink == 1 && |t.nodes[ip].ents| >= 2 && t.nodes[ip].ents[1].inum == dp
  {
    var nodes, ip := t.nodes, t.nodes[dp].ents[k].inum;
    FoundRemovable(t, dp, k);
    assert Shape(nodes[ip], ip) && Lists(nodes, Slot(dp, k), ip);
    assert Hangs(nodes, ip);
    forall s: Slot | Names(nodes, s, ip)
      ensures s == Slot(dp, k)
    {
      NamedOnce(t, dp, k, s);
    }
    assert NamedBy(nodes, ip) == {Slot(dp, k)};
    assert CountOk(nodes, ip);
  }

  lemma NamedOnce(t: State, dp: nat, k: nat, s: Slot)
    requires Inv(t) && Found(t, dp, k) && Removable(t, dp, k)
    requires var ip := t.nodes[dp].ents[k].inum;
      ip != ROOT && t.nodes[ip].kind.Dir? && EmptyDir(t.nodes[ip].ents) && Names(t.nodes, s, ip)
    ensures s == Slot(dp, k)
  {
    var nodes, ip := t.nodes, t.nodes[dp].ents[k].inum;
    assert Lists(nodes, Slot(dp, k), ip);
    if s.k >= 2 {
      assert Lists(nodes, s, ip);
    } else {
      var r := ListedUnder(t, s, ip);
    }
  }

  /** Whoever names ip with ".." is listed in ip. */
  lemma ListedUnder(t: State, s: Slot, ip: nat) returns (r: Slot)
    requires Inv(t) && Names(t.nodes, s, ip) && s.k < 2 && ip != ROOT
    ensures r.d == ip && ip < |t.nodes| && 2 <= r.k < |t.nodes[ip].ents| && t.nodes[ip].ents[r.k].inum != 0
  {
    var nodes := t.nodes;
    assert Shape(nodes[s.d], s.d);
    assert s.k == 1 && s.d != ROOT && Hangs(nodes, s.d);
    r :| Lists(nodes, r, s.d) && r.d == nodes[s.d].ents[1].inum;
    assert nodes[s.d].kind.Dir?;
  }

  /** A linked directory that has a linked child directory is named at least twice. */
  lemma ParentStays(t: State, dp: nat, c: nat)
    requires Inv(t) && dp < |t.nodes| && Linked(t.nodes[dp]) && dp != 0 && c != dp
    requires Names(t.nodes, Slot(c, 1), dp)
    ensures t.nodes[dp].nlink >= 2
  {
    var nodes := t.nodes;
    assert CountOk(nodes, dp) && Shape(nodes[dp], dp);
    var other := Slot(ROOT, 1);
    if dp != ROOT {
      assert Hangs(nodes, dp);
      other :| Lists(nodes, other, dp) && other.d == nodes[dp].ents[1].inum;
    }
    assert {Slot(c, 1), other} <= NamedBy(nodes, dp);
    Two(NamedBy(nodes, dp), Slot(c, 1), other);
  }

  lemma Two(a: set<Slot>, x: Slot, y: Slot)
    requires x in a && y in a && x != y
    ensures |a| >= 2
  {
    assert a == {x} + {y} + (a - {x} - {y});
  }

  /** What Remove does to the names. */
  lemma RemovedNames(t: State, dp: nat, k: nat, s: Slot, i: nat)
    requires Inv(t) && Found(t, dp, k) && Removable(t, dp, k) && i != 0
    requires var n := t.nodes[t.nodes[dp].ents[k].inum];
      n.kind.Dir? ==> n.nlink == 1 && t.nodes[dp].nlink >= 2
    ensures var ip := t.nodes[dp].ents[k].inum;
      Names(Remove(t, dp, k).nodes, s, i) <==>
      Names(t.nodes, s, i) && s != Slot(dp, k) && (t.nodes[ip].kind.Dir? ==> s.d != ip)
  {
  }

  ghost predicate Unlinks(t: State, dp: nat, k: nat) {
    Inv(t) && Found(t, dp, k) && Removable(t, dp, k) &&
    (t.nodes[t.nodes[dp].ents[k].inum].kind.Dir? ==> EmptyDir(t.nodes[t.nodes[dp].ents[k].inum].ents))
  }

  lemma UnlinksFacts(t: State, dp: nat, k: nat)
    requires Unlinks(t, dp, k)
    ensures var ip := t.nodes[dp].ents[k].inum;
      && ip != ROOT && ip != 0 && Names(t.nodes, Slot(dp, k), ip)
      && (t.nodes[ip].kind.Dir? ==>
            t.nodes[ip].nlink == 1 && t.nodes[dp].nlink >= 2 && |t.nodes[ip].ents| >= 2 && Names(t.nodes, Slot(ip, 1), dp))
  {
    var ip := t.nodes[dp].ents[k].inum;
    FoundRemovable(t, dp, k);
    assert Names(t.nodes, Slot(dp, k), ip);
    if t.nodes[ip].kind.Dir? {
      EmptyDirOnce(t, dp, k);
      assert Shape(t.nodes[ip], ip);
      assert Names(t.nodes, Slot(ip, 1), dp);
      ParentStays(t, dp, ip);
    }
  }

  lemma RemovedCount(t: State, dp: nat, k: nat, i: nat)
    requires Unlinks(t, dp, k) && 1 <= i < |t.nodes|
    ensures CountOk(Remove(t, dp, k).nodes, i)
  {
    UnlinksFacts(t, dp, k);
    var n0, n1, ip := t.nodes, Remove(t, dp, k).nodes, t.nodes[dp].ents[k].inum;
    assert CountOk(n0, i);
    forall s: Slot
      ensures Names(n1, s, i) <==> Names(n0, s, i) && s != Slot(dp, k) && (n0[ip].kind.Dir? ==> s.d != ip)
    {
      RemovedNames(t, dp, k, s, i);
    }
    assert Shape(n0[ip], ip);
    if i == ip {
      if n0[ip].kind.Dir? {
        NamesNone(t, ip, ip);
      }
      NamedLess(n0, n1, ip, Slot(dp, k));
    } else if i == dp && n0[ip].kind.Dir? {
      NamedLess(n0, n1, dp, Slot(ip, 1));
    } else {
      if n0[ip].kind.Dir? {
        NamesNone(t, ip, i);
      }
      NamedEqual(n0, n1, i);
    }
  }

  /** An empty directory names nobody but its parent. */
  lemma NamesNone(t: State, ip: nat, i: nat)
    requires Inv(t) && ip < |t.nodes| && t.nodes[ip].kind.Dir? && EmptyDir(t.nodes[ip].ents)
    requires i != 0 && |t.nodes[ip].ents| >= 2 && i != t.nodes[ip].ents[1].inum
    ensures forall s: Slot :: s.d == ip ==> !Names(t.nodes, s, i)
  {
    assert Shape(t.nodes[ip], ip);
  }

  lemma RemovedTree(t: State, dp: nat, k: nat)
    requires Unlinks(t, dp, k)
    ensures Tree(Remove(t, dp, k).nodes)
  {
    UnlinksFacts(t, dp, k);
    var n0, n1, ip := t.nodes, Remove(t, dp, k).nodes, t.nodes[dp].ents[k].inum;
    assert Shape(n0[dp], dp) && Lists(n0, Slot(dp, k), ip);
    forall s: Slot, d: nat | d != 0
      ensures Lists(n1, s, d) <==> Lists(n0, s, d) && s != Slot(dp, k) && (n0[ip].kind.Dir? ==> s.d != ip)
    {
      RemovedNames(t, dp, k, s, d);
    }
    forall d: nat | d < |n1| && Linked(n1[d]) && d != ROOT
      ensures Hangs(n1, d)
    {
      RemovedHangs(t, dp, k, d);
    }
  }

  lemma RemovedHangs(t: State, dp: nat, k: nat, d: nat)
    requires Unlinks(t, dp, k) && d < |t.nodes| && Linked(Remove(t, dp, k).nodes[d]) && d != ROOT
    ensures Hangs(Remove(t, dp, k).nodes, d)
  {
    UnlinksFacts(t, dp, k);
    var n0, n1, ip := t.nodes, Remove(t, dp, k).nodes, t.nodes[dp].ents[k].inum;
    assert Hangs(n0, d);
    var s :| Lists(n0, s, d) && s.d == n0[d].ents[1].inum;
    assert Shape(n0[ip], ip) && Shape(n0[dp], dp);
    RemovedNames(t, dp, k, s, d);
    assert Lists(n1, s, d);
  }

  lemma RemoveInv(t: State, dp: nat, k: nat)
    requires Unlinks(t, dp, k)
    ensures InvBut(Remove(t, dp, k), t.nodes[dp].ents[k].inum)
  {
    UnlinksFacts(t, dp, k);
    var u, ip := Remove(t, dp, k), t.nodes[dp].ents[k].inum;
    RemovedTree(t, dp, k);
    forall i: nat | 1 <= i < |u.nodes|
      ensures CountOk(u.nodes, i)
    {
      RemovedCount(t, dp, k, i);
    }
    forall i: nat | i < |u.nodes|
      ensures Shape(u.nodes[i], i) && (i != ip ==> Kept(u, i))
    {
      assert Shape(t.nodes[i], i) && (i != 0 ==> Kept(t, i));
    }
    forall s: Slot, i: nat | Names(u.nodes, s, i)
      ensures i < |u.nodes|
    {
      if i != 0 {
        RemovedNames(t, dp, k, s, i);
      }
    }
  }

  // ---- adding a name ----

  /** A name that dirlookup does not find in the linked directory dp. */
  ghost predicate NewName(nodes: seq<Node>, dp: nat, name: string) {
    && 0 < dp < |nodes| && Linked(nodes[dp]) && Shape(nodes[dp], dp)
    && Lookup(nodes[dp].ents, name, 0).None?
  }

  lemma AddedSlot(nodes: seq<Node>, dp: nat, name: string)
    requires NewName(nodes, dp, name)
    ensures name != DOT && name != DOTDOT && EmptySlot(nodes[dp].ents, 0) >= 2
  {
    assert nodes[dp].ents[0].inum != 0 && nodes[dp].ents[1].inum != 0;
  }

  lemma AddedNames(t: State, dp: nat, name: string, i: nat, s: Slot, x: nat)
    requires NewName(t.nodes, dp, name) && i != 0 && x != 0
    ensures Names(AddName(t, dp, name, i).nodes, s, x) <==>
      Names(t.nodes, s, x) || (s == Slot(dp, EmptySlot(t.nodes[dp].ents, 0)) && x == i)
  {
    AddedSlot(t.nodes, dp, name);
  }

  lemma AddedShape(t: State, dp: nat, name: string, i: nat)
    requires NewName(t.nodes, dp, name) && i != 0
    ensures Shape(AddName(t, dp, name, i).nodes[dp], dp)
  {
    AddedSlot(t.nodes, dp, name);
    var ents := t.nodes[dp].ents;
    var k := EmptySlot(ents, 0);
    var added := AddEntry(ents, Entry(i, name));
    forall a, b | 0 <= a < b < |added| && added[a].inum != 0 && added[b].inum != 0
      ensures added[a].name != added[b].name
    {
      assert a != k ==> added[a] == ents[a];
      assert b != k ==> added[b] == ents[b];
    }
  }

  /** sys_link's success: one more link, one more name. */
  ghost predicate LinkOk(t: State, ip: nat, dp: nat, name: string) {
    Inv(t) && NewName(t.nodes, dp, name) && 0 < ip < |t.nodes| && !t.nodes[ip].kind.Dir? && !t.nodes[ip].kind.Free?
  }

  lemma LinkNames(t: State, ip: nat, dp: nat, name: string, s: Slot, x: nat)
    requires LinkOk(t, ip, dp, name) && x != 0
    ensures Names(AddName(Bump(t, ip), dp, name, ip).nodes, s, x) <==>
      Names(t.nodes, s, x) || (s == Slot(dp, EmptySlot(t.nodes[dp].ents, 0)) && x == ip)
  {
    AddedNames(Bump(t, ip), dp, name, ip, s, x);
    assert Names(Bump(t, ip).nodes, s, x) == Names(t.nodes, s, x);
  }

  lemma LinkCount(t: State, ip: nat, dp: nat, name: string, i: nat)
    requires LinkOk(t, ip, dp, name) && 1 <= i < |t.nodes|
    ensures CountOk(AddName(Bump(t, ip), dp, name, ip).nodes, i)
  {
    var n1 := AddName(Bump(t, ip), dp, name, ip).nodes;
    var added := Slot(dp, EmptySlot(t.nodes[dp].ents, 0));
    assert CountOk(t.nodes, i);
    forall s: Slot
      ensures Names(n1, s, i) <==> Names(t.nodes, s, i) || (s == added && i == ip)
    {
      LinkNames(t, ip, dp, name, s, i);
    }
    if i == ip {
      NamedMore(t.nodes, n1, ip, added);
    } else {
      NamedEqual(t.nodes, n1, i);
    }
  }

  /** A name for an inode that is no directory leaves the tree as it is. */
  lemma LinkTree(t: State, ip: nat, dp: nat, name: string)
    requires LinkOk(t, ip, dp, name)
    ensures Tree(AddName(Bump(t, ip), dp, name, ip).nodes)
  {
    var n0, n1 := t.nodes, AddName(Bump(t, ip), dp, name, ip).nodes;
    AddedSlot(t.nodes, dp, name);
    var added := Slot(dp, EmptySlot(n0[dp].ents, 0));
    forall s: Slot, d: nat | d != 0
      ensures Lists(n1, s, d) <==> Lists(n0, s, d) || (s == added && d == ip)
    {
      LinkNames(t, ip, dp, name, s, d);
    }
    forall d: nat | d < |n1| && Linked(n1[d]) && d != ROOT
      ensures Hangs(n1, d)
    {
      assert Hangs(n0, d);
      var s :| Lists(n0, s, d) && s.d == n0[d].ents[1].inum;
      assert Lists(n1, s, d);
    }
  }

  lemma LinkInv(t: State, ip: nat, dp: nat, name: string)
    requires LinkOk(t, ip, dp, name)
    ensures Inv(AddName(Bump(t, ip), dp, name, ip))
  {
    var u := AddName(Bump(t, ip), dp, name, ip);
    LinkTree(t, ip, dp, name);
    AddedShape(Bump(t, ip), dp, name, ip);
    forall i: nat | 1 <= i < |u.nodes|
      ensures CountOk(u.nodes, i)
    {
      LinkCount(t, ip, dp, name, i);
    }
    forall i: nat | i < |u.nodes|
      ensures Shape(u.nodes[i], i) && (i != 0 ==> Kept(u, i))
    {
      assert Shape(t.nodes[i], i) && (i != 0 ==> Kept(t, i));
    }
    forall s: Slot, i: nat | Names(u.nodes, s, i)
      ensures i < |u.nodes|
    {
      if i != 0 {
        LinkNames(t, ip, dp, name, s, i);
      }
    }
  }

  // ---- making an inode ----

  ghost predicate MakeOk(t: State, dp: nat, name: string, kind: Kind, i: nat) {
    Inv(t) && NewName(t.nodes, dp, name) && 0 < i < |t.nodes| && t.nodes[i].kind.Free? && !kind.Free?
  }

  lemma NobodyNamesFree(t: State, i: nat, s: Slot)
    requires Inv(t) && 0 < i < |t.nodes| && t.nodes[i].kind.Free?
    ensures !Names(t.nodes, s, i)
  {
    if Names(t.nodes, s, i) {
      NamedIsLinked(t, s, i);
    }
  }

  lemma NewDirEntries(dp: nat, i: nat)
    requires i != 0 && dp != 0
    ensures AddEntry(AddEntry([], Entry(i, DOT)), Entry(dp, DOTDOT)) == [Entry(i, DOT), Entry(dp, DOTDOT)]
  {
    assert AddEntry([], Entry(i, DOT)) == [Entry(i, DOT)];
    assert EmptySlot([Entry(i, DOT)], 0) == 1;
  }

  lemma MadeNames(t: State, dp: nat, name: string, kind: Kind, i: nat, s: Slot, x: nat)
    requires MakeOk(t, dp, name, kind, i) && x != 0
    ensures Names(Make(t, dp, name, kind, i).nodes, s, x) <==>
      Names(t.nodes, s, x) || (s == Slot(dp, EmptySlot(t.nodes[dp].ents, 0)) && x == i)
      || (kind.Dir? && s == Slot(i, 1) && x == dp)
  {
    NewDirEntries(dp, i);
    var u := Prepared(t, dp, kind, i);
    assert NewName(u.nodes, dp, name);
    AddedNames(u, dp, name, i, s, x);
    assert Names(u.nodes, s, x) <==> Names(t.nodes, s, x) || (kind.Dir? && s == Slot(i, 1) && x == dp);
  }

  lemma MadeNlink(t: State, dp: nat, name: string, kind: Kind, i: nat, x: nat)
    requires MakeOk(t, dp, name, kind, i) && 1 <= x < |t.nodes|
    ensures |Make(t, dp, name, kind, i).nodes| == |t.nodes| && i != dp
    ensures Make(t, dp, name, kind, i).nodes[x].nlink ==
      if x == i then 1 else t.nodes[x].nlink + if kind.Dir? && x == dp then 1 else 0
  {
  }

  lemma MadeCount(t: State, dp: nat, name: string, kind: Kind, i: nat, x: nat)
    requires MakeOk(t, dp, name, kind, i) && 1 <= x < |t.nodes|
    ensures CountOk(Make(t, dp, name, kind, i).nodes, x)
  {
    var n0, n1 := t.nodes, Make(t, dp, name, kind, i).nodes;
    var added := Slot(dp, EmptySlot(n0[dp].ents, 0));
    AddedSlot(n0, dp, name);
    assert CountOk(n0, x);
    forall s: Slot
      ensures Names(n1, s, x) <==>
        Names(n0, s, x) || (s == added && x == i) || (kind.Dir? && s == Slot(i, 1) && x == dp)
    {
      MadeNames(t, dp, name, kind, i, s, x);
    }
    MadeNlink(t, dp, name, kind, i, x);
    if x == i {
      NobodyNamesFree(t, i, added);
      NamedMore(n0, n1, i, added);
    } else if x == dp && kind.Dir? {
      NamedMore(n0, n1, dp, Slot(i, 1));
    } else {
      NamedEqual(n0, n1, x);
    }
  }

  lemma MadeTree(t: State, dp: nat, name: string, kind: Kind, i: nat)
    requires MakeOk(t, dp, name, kind, i)
    ensures Tree(Make(t, dp, name, kind, i).nodes)
  {
    var n0, n1 := t.nodes, Make(t, dp, name, kind, i).nodes;
    NewDirEntries(dp, i);
    AddedSlot(n0, dp, name);
    var added := Slot(dp, EmptySlot(n0[dp].ents, 0));
    forall s: Slot, d: nat | d != 0
      ensures Lists(n1, s, d) <==> Lists(n0, s, d) || (s == added && d == i)
    {
      MadeNames(t, dp, name, kind, i, s, d);
    }
    forall s: Slot
      ensures !Lists(n0, s, i)
    {
      NobodyNamesFree(t, i, s);
    }
    forall s: Slot
      ensures !Lists(n1, s, s.d)
    {
      if s.d != 0 {
        assert !Lists(n0, s, s.d);
      }
    }
    forall d: nat | d < |n1| && Linked(n1[d]) && d != ROOT
      ensures Hangs(n1, d)
    {
      MadeHangs(t, dp, name, kind, i, d);
    }
  }

  lemma MadeHangs(t: State, dp: nat, name: string, kind: Kind, i: nat, d: nat)
    requires MakeOk(t, dp, name, kind, i) && d < |t.nodes| && d != ROOT && Linked(Make(t, dp, name, kind, i).nodes[d])
    ensures Hangs(Make(t, dp, name, kind, i).nodes, d)
  {
    var n0, n1 := t.nodes, Make(t, dp, name, kind, i).nodes;
    NewDirEntries(dp, i);
    AddedSlot(n0, dp, name);
    if d == i {
      var added := Slot(dp, EmptySlot(n0[dp].ents, 0));
      assert Lists(n1, added, i);
    } else {
      assert Shape(n0[dp], dp) && Hangs(n0, d);
      var s :| Lists(n0, s, d) && s.d == n0[d].ents[1].inum;
      MadeNames(t, dp, name, kind, i, s, d);
      assert Lists(n1, s, d);
    }
  }

  lemma MakeInv(t: State, dp: nat, name: string, kind: Kind, i: nat)
    requires MakeOk(t, dp, name, kind, i)
    ensures Inv(Make(t, dp, name, kind, i))
  {
    var u := Make(t, dp, name, kind, i);
    MadeTree(t, dp, name, kind, i);
    NewDirEntries(dp, i);
    AddedShape(Prepared(t, dp, kind, i), dp, name, i);
    forall x: nat | 1 <= x < |u.nodes|
      ensures CountOk(u.nodes, x)
    {
      MadeCount(t, dp, name, kind, i, x);
    }
    forall x: nat | x < |u.nodes|
      ensures Shape(u.nodes[x], x) && (x != 0 ==> Kept(u, x))
    {
      assert Shape(t.nodes[x], x) && (x != 0 ==> Kept(t, x));
    }
    forall s: Slot, x: nat | Names(u.nodes, s, x)
      ensures x < |u.nodes|
    {
      if x != 0 {
        MadeNames(t, dp, name, kind, i, s, x);
      }
    }
  }

  // ---- runs ----

  datatype Event =
    | DoLink(ip: nat, to: Option<nat>, name: string)
    | DoUnlink(dp: nat, name: string, writable: bool)
    | DoCreate(dp: nat, name: string, kind: Kind, wdir: bool, wfile: bool)
    | DoOpen(i: nat)
    | DoClose(i: nat)

  predicate InUse(t: State, i: nat) {
    0 < i < |t.nodes| && !t.nodes[i].kind.Free?
  }

  predicate LinkedDir(t: State, d: nat) {
    0 < d < |t.nodes| && Linked(t.nodes[d])
  }

  /** One call whose parent directory, if any, is still linked. */
  function Step(t: State, e: Event): (r: Option<State>)
    requires |t.refs| == |t.nodes|
    ensures r.Some? ==> |r.value.refs| == |r.value.nodes| == |t.nodes|
  {
    match e
    case DoLink(ip, to, name) =>
      if InUse(t, ip) && (to.Some? ==> LinkedDir(t, to.value)) then Some(Link(t, ip, to, name).0) else None
    case DoUnlink(dp, name, writable) =>
      if !LinkedDir(t, dp) then None else
      var r := Unlink(t, dp, name, writable);
      if r.None? then None else Some(r.value.0)
    case DoCreate(dp, name, kind, wdir, wfile) =>
      if !LinkedDir(t, dp) || kind.Free? then None else
      var r := Create(t, dp, name, kind, wdir, wfile);
      if r.None? then None else Some(r.value.0)
    case DoOpen(i) => if InUse(t, i) then Some(Open(t, i)) else None
    case DoClose(i) => if i < |t.nodes| && t.refs[i] > 0 then Some(Close(t, i)) else None
  }

  lemma LinkStep(t: State, ip: nat, to: Option<nat>, name: string)
    requires Inv(t) && InUse(t, ip) && (to.Some? ==> LinkedDir(t, to.value))
    ensures Inv(Link(t, ip, to, name).0)
  {
    if to.Some? && !t.nodes[ip].kind.Dir? && Lookup(t.nodes[to.value].ents, name, 0).None? {
      assert Shape(t.nodes[to.value], to.value);
      LinkInv(t, ip, to.value, name);
    } else {
      assert Link(t, ip, to, name).0.nodes == t.nodes;
    }
  }

  /** The entry that sys_unlink finds by a name other than the dots is a child. */
  lemma FoundByName(t: State, dp: nat, name: string)
    requires Inv(t) && LinkedDir(t, dp) && name != DOT && name != DOTDOT && Lookup(t.nodes[dp].ents, name, 0).Some?
    ensures Found(t, dp, Lookup(t.nodes[dp].ents, name, 0).value)
  {
    assert Shape(t.nodes[dp], dp);
  }

  /** sys_unlink never panics with "unlink: nlink < 1" on a linked directory, and keeps the
      invariant. */
  lemma UnlinkStep(t: State, dp: nat, name: string, writable: bool)
    requires Inv(t) && LinkedDir(t, dp)
    ensures Unlink(t, dp, name, writable).Some? && Inv(Unlink(t, dp, name, writable).value.0)
  {
    var f := Lookup(t.nodes[dp].ents, name, 0);
    if writable && name != DOT && name != DOTDOT && f.Some? {
      FoundByName(t, dp, name);
      FoundRemovable(t, dp, f.value);
      var ip := t.nodes[dp].ents[f.value].inum;
      if !t.nodes[ip].kind.Dir? || EmptyDir(t.nodes[ip].ents) {
        RemoveInv(t, dp, f.value);
        DropInv(Remove(t, dp, f.value), ip);
      }
    }
  }

  lemma CreateStep(t: State, dp: nat, name: string, kind: Kind, wdir: bool, wfile: bool)
    requires Inv(t) && LinkedDir(t, dp) && !kind.Free? && Create(t, dp, name, kind, wdir, wfile).Some?
    ensures Inv(Create(t, dp, name, kind, wdir, wfile).value.0)
  {
    var f := Lookup(t.nodes[dp].ents, name, 0);
    if f.Some? {
      var ip := t.nodes[dp].ents[f.value].inum;
      if kind.File? && t.nodes[ip].kind.File? {
        OpenInv(t, ip);
      }
    } else if wdir {
      assert Shape(t.nodes[dp], dp);
      MakeInv(t, dp, name, kind, FirstFree(t.nodes, 1).value);
    }
  }

  lemma StepInv(t: State, e: Event)
    requires Inv(t) && Step(t, e).Some?
    ensures Inv(Step(t, e).value)
  {
    match e
    case DoLink(ip, to, name) => LinkStep(t, ip, to, name);
    case DoUnlink(dp, name, writable) => UnlinkStep(t, dp, name, writable);
    case DoCreate(dp, name, kind, wdir, wfile) => CreateStep(t, dp, name, kind, wdir, wfile);
    case DoOpen(i) => OpenInv(t, i);
    case DoClose(i) => CloseInv(t, i);
  }

  function Run(t: State, es: seq<Event>): (r: Option<State>)
    requires |t.refs| == |t.nodes|
    ensures r.Some? ==> |r.value.refs| == |r.value.nodes| == |t.nodes|
  {
    if es == [] then Some(t) else
    var before := Run(t, es[..|es| - 1]);
    if before.None? then None else Step(before.value, es[|es| - 1])
  }

  /** A fresh image: the root with its dots, then empty slots up to the end of the block. */
  ghost predicate Fresh(t: State) {
    && |t.refs| == |t.nodes| > ROOT
    && (forall i: nat :: i < |t.nodes| && i != ROOT ==> t.nodes[i] == Node(Free, 0, []))
    && (forall i: nat :: i < |t.refs| ==> t.refs[i] == 0)
    && t.nodes[ROOT].kind.Dir? && t.nodes[ROOT].nlink == 1
    && |t.nodes[ROOT].ents| >= 2 && t.nodes[ROOT].ents[0] == Entry(ROOT, DOT) && t.nodes[ROOT].ents[1] == Entry(ROOT, DOTDOT)
    && EmptyDir(t.nodes[ROOT].ents)
  }

  lemma FreshInv(t: State)
    requires Fresh(t)
    ensures Inv(t)
  {
    forall i: nat | 1 <= i < |t.nodes|
      ensures CountOk(t.nodes, i)
    {
      if i == ROOT {
        assert NamedBy(t.nodes, ROOT) == {Slot(ROOT, 1)};
      } else {
        assert NamedBy(t.nodes, i) == {};
      }
    }
  }

  lemma {:induction false} RunInv(t: State, es: seq<Event>)
    requires Fresh(t) && Run(t, es).Some?
    ensures Inv(Run(t, es).value)
  {
    if es == [] {
      FreshInv(t);
    } else {
      RunInv(t, es[..|es| - 1]);
      StepInv(Run(t, es[..|es| - 1]).value, es[|es| - 1]);
    }
  }

  // ---- what holds after every run ----

  /** The link count of every inode is the number of entries other than "." that name it in
      linked directories; an inode that is named is in use. */
  lemma LinkCounts(t: State, es: seq<Event>, i: nat)
    requires Fresh(t) && Run(t, es).Some? && 0 < i < |t.nodes|
    ensures var nodes := Run(t, es).value.nodes;
      && nodes[i].nlink == |NamedBy(nodes, i)|
      && (forall s: Slot :: Names(nodes, s, i) ==> !nodes[i].kind.Free?)
  {
    RunInv(t, es);
    var u := Run(t, es).value;
    assert CountOk(u.nodes, i);
    forall s: Slot | Names(u.nodes, s, i)
      ensures !u.nodes[i].kind.Free?
    {
      NamedIsLinked(u, s, i);
    }
  }

  /** No two entries of a directory have the same name. */
  lemma NamesUnique(t: State, es: seq<Event>, d: nat, j: nat, k: nat)
    requires Fresh(t) && Run(t, es).Some? && d < |t.nodes|
    ensures var ents := Run(t, es).value.nodes[d].ents;
      j < k < |ents| && ents[j].inum != 0 && ents[k].inum != 0 ==> ents[j].name != ents[k].name
  {
    RunInv(t, es);
    assert Shape(Run(t, es).value.nodes[d], d);
  }

  /** After every run an inode is in use exactly while it has a link or a reference, so it is
      freed when, and only when, the last of both is gone. */
  lemma FreedWhenUnused(t: State, es: seq<Event>, i: nat)
    requires Fresh(t) && Run(t, es).Some? && 0 < i < |t.nodes|
    ensures var u := Run(t, es).value;
      u.nodes[i].kind.Free? <==> NamedBy(u.nodes, i) == {} && u.refs[i] == 0
  {
    RunInv(t, es);
    var u := Run(t, es).value;
    assert Kept(u, i) && CountOk(u.nodes, i);
  }

  /** A call that frees an inode leaves it without link, reference and name. */
  lemma FreedOnlyWhenUnused(t: State, e: Event, i: nat)
    requires Inv(t) && Step(t, e).Some? && 0 < i < |t.nodes|
    requires !t.nodes[i].kind.Free? && Step(t, e).value.nodes[i].kind.Free?
    ensures var u := Step(t, e).value; u.refs[i] == 0 && u.nodes[i].nlink == 0 && forall s: Slot :: !Names(u.nodes, s, i)
  {
    StepInv(t, e);
    var u := Step(t, e).value;
    assert Shape(u.nodes[i], i);
    forall s: Slot
      ensures !Names(u.nodes, s, i)
    {
      NobodyNamesFree(u, i, s);
    }
  }

  // ---- a parent that is no longer linked ----

  /** The state in which create adds a new name to dp, which may have been unlinked since its
      path was resolved, or be the caller's removed working directory. */
  ghost predicate CreateAt(t: State, dp: nat, name: string, i: nat) {
    && Inv(t) && 0 < dp < |t.nodes| && t.nodes[dp].kind.Dir? && Lookup(t.nodes[dp].ents, name, 0).None?
    && 0 < i < |t.nodes| && t.nodes[i].kind.Free?
  }

  /** In an unlinked directory the new entry counts for nobody. */
  lemma LostFile(t: State, dp: nat, name: string, kind: Kind, i: nat)
    requires CreateAt(t, dp, name, i) && t.nodes[dp].nlink == 0 && !kind.Free? && !kind.Dir?
    ensures !CountOk(Make(t, dp, name, kind, i).nodes, i)
  {
    var n1 := Make(t, dp, name, kind, i).nodes;
    forall s: Slot
      ensures !Names(n1, s, i)
    {
      NobodyNamesFree(t, i, s);
    }
    assert NamedBy(n1, i) == {};
  }

  /** A new directory in an unlinked one links it again, so that its ".." counts once more for
      a parent that no longer counts on it. */
  lemma LostDir(t: State, dp: nat, name: string, i: nat)
    requires CreateAt(t, dp, name, i) && t.nodes[dp].nlink == 0
    ensures !CountOk(Make(t, dp, name, Dir, i).nodes, t.nodes[dp].ents[1].inum)
  {
    var n0, n1 := t.nodes, Make(t, dp, name, Dir, i).nodes;
    assert Shape(n0[dp], dp) && UpOk(n0, dp);
    assert dp != ROOT;
    NewDirEntries(dp, i);
    var k := EmptySlot(n0[dp].ents, 0);
    assert k >= 2 && name != DOT by { assert n0[dp].ents[0].inum != 0 && n0[dp].ents[1].inum != 0; }
    var p := n0[dp].ents[1].inum;
    assert CountOk(n0, p);
    forall s: Slot | Names(n0, s, p)
      ensures Names(n1, s, p) && s != Slot(dp, 1)
    {
      assert s.d != i && s.d != dp;
    }
    assert Names(n1, Slot(dp, 1), p);
    if p == i {
      assert Names(n1, Slot(dp, k), p);
      Two(NamedBy(n1, p), Slot(dp, 1), Slot(dp, k));
    } else {
      Grows(NamedBy(n0, p), NamedBy(n1, p), Slot(dp, 1));
    }
  }

  lemma Grows(a: set<Slot>, b: set<Slot>, x: Slot)
    requires a <= b && x in b && x !in a
    ensures |b| > |a|
  {
    assert b == a + {x} + (b - a - {x});
  }

  /** create keeps every link count right exactly when the parent is still linked. */
  lemma CreateCountsIffLinked(t: State, dp: nat, name: string, kind: Kind, i: nat)
    requires CreateAt(t, dp, name, i) && !kind.Free?
    ensures Counts(Make(t, dp, name, kind, i).nodes) <==> t.nodes[dp].nlink > 0
  {
    var n1 := Make(t, dp, name, kind, i).nodes;
    assert Shape(t.nodes[dp], dp);
    if t.nodes[dp].nlink > 0 {
      MakeInv(t, dp, name, kind, i);
    } else if kind.Dir? {
      LostDir(t, dp, name, i);
      assert UpOk(t.nodes, dp) && !CountOk(n1, t.nodes[dp].ents[1].inum);
    } else {
      LostFile(t, dp, name, kind, i);
      assert !CountOk(n1, i);
    }
  }

  /** A new link keeps every link count right exactly when the parent is still linked. */
  lemma LinkCountsIffLinked(t: State, ip: nat, dp: nat, name: string)
    requires Inv(t) && 0 < dp < |t.nodes| && t.nodes[dp].kind.Dir? && Lookup(t.nodes[dp].ents, name, 0).None?
    requires InUse(t, ip) && !t.nodes[ip].kind.Dir?
    ensures Counts(Link(t, ip, Some(dp), name).0.nodes) <==> t.nodes[dp].nlink > 0
  {
    var n1 := Link(t, ip, Some(dp), name).0.nodes;
    assert Shape(t.nodes[dp], dp);
    if t.nodes[dp].nlink > 0 {
      LinkInv(t, ip, dp, name);
    } else {
      assert CountOk(t.nodes, ip);
      NamedEqual(t.nodes, n1, ip);
      assert !CountOk(n1, ip);
    }
  }

  lemma RunOn(t: State, es: seq<Event>, e: Event)
    requires |t.refs| == |t.nodes| && Run(t, es).Some?
    ensures Run(t, es + [e]) == Step(Run(t, es).value, e)
  {
    assert (es + [e])[..|es|] == es;
  }

  lemma MakeA(t: State) returns (u: State, k: nat)
    requires Fresh(t) && |t.nodes| > 2
    ensures Step(t, DoCreate(ROOT, "a", Dir, true, true)) == Some(u) && Inv(u) && LinkedDir(u, ROOT)
    ensures Lookup(u.nodes[ROOT].ents, "a", 0) == Some(k) && u.nodes[ROOT].ents[k].inum == 2
    ensures u.refs[2] == 1 && u.nodes[2] == Node(Dir, 1, [Entry(2, DOT), Entry(ROOT, DOTDOT)])
  {
    FreshInv(t);
    assert Shape(t.nodes[ROOT], ROOT) && t.nodes[2].kind.Free?;
    assert FirstFree(t.nodes, 1) == Some(2);
    AddedSlot(t.nodes, ROOT, "a");
    NewDirEntries(ROOT, 2);
    MakeInv(t, ROOT, "a", Dir, 2);
    u, k := Make(t, ROOT, "a", Dir, 2), EmptySlot(t.nodes[ROOT].ents, 0);
    assert u.nodes[ROOT].ents[k] == Entry(2, "a");
    assert Shape(u.nodes[ROOT], ROOT);
  }

  lemma RemoveA(u: State, k: nat)
    requires Inv(u) && LinkedDir(u, ROOT) && |u.nodes| > 2
    requires Lookup(u.nodes[ROOT].ents, "a", 0) == Some(k) && u.nodes[ROOT].ents[k].inum == 2
    requires u.refs[2] == 1 && u.nodes[2] == Node(Dir, 1, [Entry(2, DOT), Entry(ROOT, DOTDOT)])
    ensures Step(u, DoUnlink(ROOT, "a", true)).Some?
    ensures var n := Step(u, DoUnlink(ROOT, "a", true)).value.nodes[2]; n.kind.Dir? && n.nlink == 0
  {
    UnlinkStep(u, ROOT, "a", true);
  }

  /** Such a parent exists: a directory made and then removed while a process is in it. */
  lemma RemovedWorkingDirectory(t: State)
    requires Fresh(t) && |t.nodes| > 2
    ensures Run(t, [DoCreate(ROOT, "a", Dir, true, true), DoUnlink(ROOT, "a", true)]).Some?
    ensures var n := Run(t, [DoCreate(ROOT, "a", Dir, true, true), DoUnlink(ROOT, "a", true)]).value.nodes[2];
      n.kind.Dir? && n.nlink == 0
  {
    var made, gone := DoCreate(ROOT, "a", Dir, true, true), DoUnlink(ROOT, "a", true);
    var u, k := MakeA(t);
    RunOn(t, [], made);
    assert [] + [made] == [made] && [made] + [gone] == [made, gone];
    RunOn(t, [made], gone);
    RemoveA(u, k);
  }

  // ---- the calls as the source runs them ----

  class Inodes {
    var nodes: seq<Node>
    var refs: seq<nat>

    ghost function Now(): State
      reads this
    {
      State(nodes, refs)
    }

    method DirLookup(dp: nat, name: string) returns (k: Option<nat>)
      requires dp < |nodes|
      ensures k == Lookup(nodes[dp].ents, name, 0)
    {
      var off := 0;
      while off < |nodes[dp].ents|
        invariant 0 <= off <= |nodes[dp].ents|
        invariant Lookup(nodes[dp].ents, name, 0) == Lookup(nodes[dp].ents, name, off)
      {
        if nodes[dp].ents[off].inum != 0 && nodes[dp].ents[off].name == name {
          return Some(off);
        }
        off := off + 1;
      }
      return None;
    }

    method DirLink(dp: nat, name: string, inum: nat) returns (r: int)
      requires dp < |nodes|
      modifies this
      ensures r == -1 ==> Now() == old(Now()) && Lookup(nodes[dp].ents, name, 0).Some?
      ensures r != -1 ==> r == 0 && Lookup(old(nodes)[dp].ents, name, 0).None? && Now() == AddName(old(Now()), dp, name, inum)
    {
      var found := DirLookup(dp, name);
      if found.Some? {
        return -1;
      }
      var ents, off := nodes[dp].ents, 0;
      while off < |ents| && ents[off].inum != 0
        invariant 0 <= off <= |ents| && EmptySlot(ents, 0) == EmptySlot(ents, off)
      {
        off := off + 1;
      }
      nodes := nodes[dp := nodes[dp].(ents := PutEntry(ents, off, Entry(inum, name)))];
      return 0;
    }

    method IsDirEmpty(ip: nat) returns (empty: bool)
      requires ip < |nodes|
      ensures empty == EmptyDir(nodes[ip].ents)
    {
      var off := 2;
      while off < |nodes[ip].ents|
        invariant 2 <= off
        invariant forall k :: 2 <= k < off && k < |nodes[ip].ents| ==> nodes[ip].ents[k].inum == 0
      {
        if nodes[ip].ents[off].inum != 0 {
          return false;
        }
        off := off + 1;
      }
      return true;
    }

    /** iput of a reference taken within the call. */
    method Put(ip: nat)
      requires ip < |nodes| == |refs|
      modifies this
      ensures Now() == Drop(old(Now()), ip)
    {
      if nodes[ip].nlink == 0 && refs[ip] == 0 {
        nodes := nodes[ip := Node(Free, 0, [])];
      }
    }

    method SysLink(ip: nat, dp: Option<nat>, name: string) returns (r: int)
      requires ip < |nodes| && (dp.Some? ==> dp.value < |nodes|)
      modifies this
      ensures (Now(), r) == Link(old(Now()), ip, dp, name)
    {
      if nodes[ip].kind.Dir? {
        return -1;
      }
      nodes := nodes[ip := nodes[ip].(nlink := nodes[ip].nlink + 1)];
      r := -1;
      if dp.Some? {
        r := DirLink(dp.value, name, ip);
      }
      if r < 0 {
        nodes := nodes[ip := nodes[ip].(nlink := nodes[ip].nlink - 1)];
      }
    }

    method SysUnlink(dp: nat, name: string, writable: bool) returns (r: int)
      requires dp < |nodes| == |refs| && Unlink(Now(), dp, name, writable).Some?
      modifies this
      ensures Unlink(old(Now()), dp, name, writable) == Some((Now(), r))
    {
      if !writable || name == DOT || name == DOTDOT {
        return -1;
      }
      var off := DirLookup(dp, name);
      if off.None? {
        return -1;
      }
      var ip := nodes[dp].ents[off.value].inum;
      var empty := IsDirEmpty(ip);
      if nodes[ip].kind.Dir? && !empty {
        return -1;
      }
      nodes := nodes[dp := nodes[dp].(ents := nodes[dp].ents[off.value := Entry(0, "")])];
      if nodes[ip].kind.Dir? {
        nodes := nodes[dp := nodes[dp].(nlink := nodes[dp].nlink - 1)];
      }
      nodes := nodes[ip := nodes[ip].(nlink := nodes[ip].nlink - 1)];
      assert nodes == Remove(old(Now()), dp, off.value).nodes;
      Put(ip);
      return 0;
    }

    method Ialloc() returns (i: Option<nat>)
      requires |nodes| > 0
      ensures i == FirstFree(nodes, 1)
    {
      var inum := 1;
      while inum < |nodes|
        invariant 1 <= inum <= |nodes| && FirstFree(nodes, 1) == FirstFree(nodes, inum)
      {
        if nodes[inum].kind.Free? {
          return Some(inum);
        }
        inum := inum + 1;
      }
      return None;
    }

    /** create, when the name is new. */
    method MakeNode(dp: nat, name: string, kind: Kind, i: nat)
      requires 0 < dp < |nodes| == |refs| && 0 < i < |nodes| && i != dp && Lookup(nodes[dp].ents, name, 0).None?
      modifies this
      ensures Now() == Make(old(Now()), dp, name, kind, i)
    {
      ghost var was := Now();
      refs := refs[i := refs[i] + 1];
      Prepare(dp, kind, i);
      var linked := DirLink(dp, name, i);
      assert nodes == Make(was, dp, name, kind, i).nodes;
    }

    /** The new inode and, for a directory, its two entries and the parent's link. */
    method Prepare(dp: nat, kind: Kind, i: nat)
      requires 0 < dp < |nodes| && 0 < i < |nodes| && i != dp
      modifies this
      ensures Now() == Prepared(old(Now()), dp, kind, i)
    {
      ghost var was := Now();
      nodes := nodes[i := Node(kind, 1, [])];
      if kind.Dir? {
        nodes := nodes[dp := nodes[dp].(nlink := nodes[dp].nlink + 1)];
        NewDirEntries(dp, i);
        var dot := DirLink(i, DOT, i);
        var dotdot := DirLink(i, DOTDOT, dp);
      }
      assert nodes == Prepared(was, dp, kind, i).nodes;
    }

    method CreateNode(dp: nat, name: string, kind: Kind, wdir: bool, wfile: bool) returns (r: Option<nat>)
      requires 0 < dp < |nodes| == |refs| && nodes[dp].kind.Dir? && Create(Now(), dp, name, kind, wdir, wfile).Some?
      modifies this
      ensures Create(old(Now()), dp, name, kind, wdir, wfile) == Some((Now(), r))
    {
      var off := DirLookup(dp, name);
      if off.Some? {
        var ip := nodes[dp].ents[off.value].inum;
        if kind.File? && nodes[ip].kind.File? {
          refs := refs[ip := refs[ip] + 1];
          return if wfile then Some(ip) else None;
        }
        return None;
      }
      if !wdir {
        return None;
      }
      r := Ialloc();
      MakeNode(dp, name, kind, r.value);
    }
  }
}
