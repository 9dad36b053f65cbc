/** The user table of usermanage.c and its copy in /passwd. */
module UserTable {
  import opened Blocks
  import opened Options

  const NUSER: nat := 10
  const MAXLEN: nat := 16    // USERNAME_MAXLEN and USER_PW_MAXLEN
  const ROOT_UID: Word := 1

  /** Names and passwords are char arrays of MAXLEN bytes; uid 0 marks an empty slot. */
  datatype User = User(name: seq<Byte>, passwd: seq<Byte>, uid: Word)

  datatype Table = Table(users: seq<User>, nextUid: Word)

  predicate WellFormed(u: User) {
    |u.name| == MAXLEN && |u.passwd| == MAXLEN
  }

  // ---- strings ----

  function Zeros(n: nat): (r: seq<Byte>)
    ensures |r| == n && forall k :: 0 <= k < n ==> r[k] == 0
  {
    seq(n, i => 0)
  }

  /** strncpy into an array of MAXLEN bytes. */
  function Field(s: seq<Byte>): (r: seq<Byte>)
    requires |s| <= MAXLEN
    ensures |r| == MAXLEN
  {
    s + Zeros(MAXLEN - |s|)
  }

  predicate IsString(s: seq<Byte>) {
    forall k :: 0 <= k < |s| ==> s[k] != 0
  }

  /** strncmp(field, s, MAXLEN) == 0. */
  predicate Same(field: seq<Byte>, s: seq<Byte>) {
    |field| == MAXLEN && |s| <= MAXLEN && field[..|s|] == s && (|s| < MAXLEN ==> field[|s|] == 0)
  }

  lemma SameField(a: seq<Byte>, s: seq<Byte>)
    requires IsString(a) && IsString(s) && |a| < MAXLEN && |s| < MAXLEN
    ensures Same(Field(a), s) <==> a == s
  {
    if |a| != |s| {
      OtherLength(a, s);
    } else {
      assert Field(a)[..|s|] == a;
    }
  }

  lemma OtherLength(a: seq<Byte>, s: seq<Byte>)
    requires IsString(a) && IsString(s) && |a| < MAXLEN && |s| < MAXLEN && |a| != |s|
    ensures !Same(Field(a), s)
  {
    if |a| < |s| {
      assert Field(a)[..|s|][|a|] == 0 != s[|a|];
    } else {
      assert Field(a)[|s|] == a[|s|] != 0;
    }
  }

  predicate ValidName(s: seq<Byte>) {
    2 <= |s| < MAXLEN
  }

  function Root(): (r: seq<Byte>)
    ensures IsString(r) && ValidName(r)
  {
    [114, 111, 111, 116]
  }

  // ---- /passwd ----

  function EncodeWord(w: Word): (r: seq<Byte>)
    ensures |r| == 4
  {
    [w % 256, w / 256 % 256, w / 65536 % 256, w / 16777216]
  }

  function DecodeWord(b: seq<Byte>): Word
    requires |b| == 4
  {
    var b0: int, b1: int, b2: int, b3: int := b[0], b[1], b[2], b[3];
    b0 + 256 * b1 + 65536 * b2 + 16777216 * b3
  }

  lemma WordRoundTrip(w: Word)
    ensures DecodeWord(EncodeWord(w)) == w
  {
    Recompose(w);
  }

  const USER_SIZE: nat := 36

  function EncodeUser(u: User): (r: seq<Byte>)
    requires WellFormed(u)
    ensures |r| == USER_SIZE
  {
    u.name + u.passwd + EncodeWord(u.uid)
  }

  function DecodeUser(b: seq<Byte>): (u: User)
    requires |b| == USER_SIZE
    ensures WellFormed(u)
  {
    User(b[..16], b[16..32], DecodeWord(b[32..]))
  }

  lemma UserRoundTrip(u: User)
    requires WellFormed(u)
    ensures DecodeUser(EncodeUser(u)) == u
  {
    var b := EncodeUser(u);
    WordRoundTrip(u.uid);
    assert b[..16] == u.name && b[16..32] == u.passwd && b[32..] == EncodeWord(u.uid);
  }

  function EncodeUsers(us: seq<User>): (r: seq<Byte>)
    requires forall k :: 0 <= k < |us| ==> WellFormed(us[k])
    ensures |r| == USER_SIZE * |us|
  {
    if us == [] then [] else EncodeUser(us[0]) + EncodeUsers(us[1..])
  }

  function DecodeUsers(b: seq<Byte>, n: nat): (us: seq<User>)
    requires |b| == USER_SIZE * n
    ensures |us| == n
  {
    if n == 0 then [] else [DecodeUser(b[..USER_SIZE])] + DecodeUsers(b[USER_SIZE..], n - 1)
  }

  lemma {:induction false} UsersRoundTrip(us: seq<User>)
    requires forall k :: 0 <= k < |us| ==> WellFormed(us[k])
    ensures DecodeUsers(EncodeUsers(us), |us|) == us
  {
    if us != [] {
      UserRoundTrip(us[0]);
      UsersRoundTrip(us[1..]);
      var b := EncodeUsers(us);
      assert b[..USER_SIZE] == EncodeUser(us[0]) && b[USER_SIZE..] == EncodeUsers(us[1..]);
    }
  }

  ghost predicate Shaped(t: Table) {
    |t.users| == NUSER && forall k :: 0 <= k < |t.users| ==> WellFormed(t.users[k])
  }

  /** write_usertable. */
  function Encode(t: Table): (r: seq<Byte>)
    requires forall k :: 0 <= k < |t.users| ==> WellFormed(t.users[k])
    ensures |r| == 4 + USER_SIZE * |t.users|
  {
    EncodeWord(t.nextUid) + EncodeUsers(t.users)
  }

  /** init_usertable's two reads; None, the panic, when /passwd is too short. */
  function Decode(b: seq<Byte>): Option<Table> {
    if |b| < 4 + USER_SIZE * NUSER then None
    else Some(Table(DecodeUsers(b[4..4 + USER_SIZE * NUSER], NUSER), DecodeWord(b[..4])))
  }

  /** Decoding /passwd gives back exactly the table that was written. */
  lemma TableRoundTrip(t: Table)
    requires Shaped(t)
    ensures Decode(Encode(t)) == Some(t)
  {
    var b := Encode(t);
    WordRoundTrip(t.nextUid);
    UsersRoundTrip(t.users);
    assert b[..4] == EncodeWord(t.nextUid) && b[4..4 + USER_SIZE * NUSER] == EncodeUsers(t.users);
  }

  // ---- the operations ----

  predicate Live(u: User) {
    u.uid != 0
  }

  /** find_user_with_username, from slot i on. */
  function FindName(us: seq<User>, s: seq<Byte>, i: nat): (r: Option<nat>)
    requires i <= |us| && forall k :: 0 <= k < |us| ==> WellFormed(us[k])
    ensures r.Some? ==> i <= r.value < |us| && Live(us[r.value]) && Same(us[r.value].name, s)
    ensures forall k :: i <= k < (if r.Some? then r.value else |us|) ==> !(Live(us[k]) && Same(us[k].name, s))
    decreases |us| - i
  {
    if i == |us| then None
    else if Live(us[i]) && Same(us[i].name, s) then Some(i)
    else FindName(us, s, i + 1)
  }

  /** The last empty slot below n: add_user goes on looking after it has found one. */
  function LastEmpty(us: seq<User>, n: nat): (r: Option<nat>)
    requires n <= |us|
    ensures r.Some? ==> r.value < n && !Live(us[r.value])
    ensures forall k :: (if r.Some? then r.value + 1 else 0) <= k < n ==> Live(us[k])
  {
    if n == 0 then None else if !Live(us[n - 1]) then Some(n - 1) else LastEmpty(us, n - 1)
  }

  function Add(t: Table, name: seq<Byte>, passwd: seq<Byte>): (r: (Table, Word))
    requires forall k :: 0 <= k < |t.users| ==> WellFormed(t.users[k])
  {
    if !ValidName(name) || !ValidName(passwd) || FindName(t.users, name, 0).Some? then (t, 0) else
    var e := LastEmpty(t.users, |t.users|);
    if e.None? then (t, 0) else
    (Table(t.users[e.value := User(Field(name), Field(passwd), t.nextUid)], (t.nextUid + 1) % 0x1_0000_0000), t.nextUid)
  }

  function Delete(t: Table, name: seq<Byte>): (r: (Table, int))
    requires forall k :: 0 <= k < |t.users| ==> WellFormed(t.users[k])
  {
    if !ValidName(name) || Same(Field(Root()), name) then (t, -1) else
    var f := FindName(t.users, name, 0);
    if f.None? then (t, -1) else (t.(users := t.users[f.value := User(Zeros(MAXLEN), Zeros(MAXLEN), 0)]), 0)
  }

  /** create_usertable. */
  function Created(): Table {
    Table([User(Field(Root()), Field([48, 48, 48, 48]), ROOT_UID)]
          + seq(NUSER - 1, i => User(Zeros(MAXLEN), Zeros(MAXLEN), 0)), ROOT_UID + 1)
  }

  // ---- the invariant ----

  ghost predicate Inv(t: Table) {
    && Shaped(t) && t.nextUid > ROOT_UID
    && t.users[0].uid == ROOT_UID && t.users[0].name == Field(Root())
    && (forall i :: 0 <= i < NUSER ==> t.users[i].uid < t.nextUid)
    && (forall i, j :: 0 <= i < j < NUSER && Live(t.users[i]) && Live(t.users[j]) ==>
         t.users[i].uid != t.users[j].uid && t.users[i].name != t.users[j].name)
  }

  lemma CreatedInv()
    ensures Inv(Created())
  {
  }

  lemma AddInv(t: Table, name: seq<Byte>, passwd: seq<Byte>)
    requires Inv(t) && t.nextUid < 0xFFFF_FFFF
    ensures Inv(Add(t, name, passwd).0)
    ensures Add(t, name, passwd).1 != 0 ==> Add(t, name, passwd).1 == t.nextUid < Add(t, name, passwd).0.nextUid
  {
    if ValidName(name) && ValidName(passwd) && FindName(t.users, name, 0).None? && LastEmpty(t.users, NUSER).Some? {
      assert Same(Field(name), name) by { assert Field(name)[..|name|] == name; }
      forall i | 0 <= i < NUSER && Live(t.users[i])
        ensures t.users[i].name != Field(name)
      {
        assert !Same(t.users[i].name, name);
      }
    }
  }

  /** A user is added soundly exactly while next_uid can still be counted up. */
  lemma AddKeepsIff(t: Table, name: seq<Byte>, passwd: seq<Byte>)
    requires Inv(t) && Add(t, name, passwd).1 != 0
    ensures Inv(Add(t, name, passwd).0) <==> t.nextUid < 0xFFFF_FFFF
  {
    if t.nextUid < 0xFFFF_FFFF {
      AddInv(t, name, passwd);
    }
  }

  lemma DeleteInv(t: Table, name: seq<Byte>)
    requires Inv(t) && IsString(name)
    ensures Inv(Delete(t, name).0) && Delete(t, name).0.nextUid == t.nextUid
  {
    if ValidName(name) {
      SameField(Root(), name);
      assert Same(Field(Root()), name) ==> FindName(t.users, name, 0) == Some(0);
    }
  }

  // ---- runs: calls and restarts ----

  datatype Event = Added(name: seq<Byte>, passwd: seq<Byte>) | Deleted(name: seq<Byte>) | Restarted

  /** The table in memory, what /passwd holds, and the uids given out, in order. */
  datatype System = System(table: Table, file: seq<Byte>, given: seq<Word>)

  ghost predicate SystemOk(s: System) {
    && Inv(s.table) && s.file == Encode(s.table)
    && (forall i :: 0 <= i < |s.given| ==> ROOT_UID < s.given[i] < s.table.nextUid)
    && (forall i, j :: 0 <= i < j < |s.given| ==> s.given[i] < s.given[j])
  }

  /** One event; None at the panic of a bad /passwd, and where next_uid would wrap. */
  function Step(s: System, e: Event): Option<System>
    requires Shaped(s.table)
  {
    match e
    case Added(name, passwd) =>
      if s.table.nextUid >= 0xFFFF_FFFF || !IsString(name) || !IsString(passwd) then None else
      var r := Add(s.table, name, passwd);
      if r.1 == 0 then Some(s) else Some(System(r.0, Encode(r.0), s.given + [r.1]))
    case Deleted(name) =>
      if !IsString(name) then None else
      var r := Delete(s.table, name);
      if r.1 != 0 then Some(s) else Some(s.(table := r.0, file := Encode(r.0)))
    case Restarted =>
      var t := Decode(s.file);
      if t.None? then None else Some(s.(table := t.value))
  }

  lemma StepOk(s: System, e: Event)
    requires SystemOk(s) && Step(s, e).Some?
    ensures SystemOk(Step(s, e).value)
  {
    match e
    case Added(name, passwd) => AddInv(s.table, name, passwd);
    case Deleted(name) => DeleteInv(s.table, name);
    case Restarted => TableRoundTrip(s.table);
  }

  /** A restart never panics and changes nothing. */
  lemma RestartKeeps(s: System)
    requires SystemOk(s)
    ensures Step(s, Restarted) == Some(s)
  {
    TableRoundTrip(s.table);
  }

  ghost predicate Reachable(s: System, es: seq<Event>)
    decreases |es|
  {
    if es == [] then s == System(Created(), Encode(Created()), []) else
    exists before :: Reachable(before, es[..|es| - 1]) && Shaped(before.table)
                     && Step(before, es[|es| - 1]) == Some(s)
  }

  /** After every run of additions, deletions and restarts: uids in use are distinct, nonzero and
      below next_uid, names in use are distinct, root is there, no uid was ever given out twice,
      and /passwd decodes to the table in memory. */
  lemma {:induction false} EveryRun(s: System, es: seq<Event>)
    requires Reachable(s, es)
    ensures SystemOk(s) && Decode(s.file) == Some(s.table)
    decreases |es|
  {
    if es == [] {
      CreatedInv();
    } else {
      var before :| Reachable(before, es[..|es| - 1]) && Shaped(before.table) && Step(before, es[|es| - 1]) == Some(s);
      EveryRun(before, es[..|es| - 1]);
      StepOk(before, es[|es| - 1]);
    }
    TableRoundTrip(s.table);
  }

  // ---- the table as the source updates it ----

  class Users {
    const utable: array<User>
    var nextUid: Word
    var file: seq<Byte>

    ghost function Now(): Table
      reads this, utable
    {
      Table(utable[..], nextUid)
    }

    /** The table is sound and /passwd is up to date. */
    ghost predicate Valid()
      reads this, utable
    {
      Inv(Now()) && file == Encode(Now())
    }

    /** init_usertable on a disk without /passwd. */
    constructor ()
      ensures fresh(utable) && Now() == Created() && Valid()
    {
      utable := new User[NUSER](i => User(Zeros(MAXLEN), Zeros(MAXLEN), 0));
      nextUid := ROOT_UID + 1;
      file := [];
      new;
      utable[0] := User(Field(Root()), Field([48, 48, 48, 48]), ROOT_UID);
      assert utable[..] == Created().users;
      CreatedInv();
      Export();
    }

    /** export_usertable: the number and the whole array are written. */
    method Export()
      requires Shaped(Now())
      modifies this
      ensures file == Encode(Now()) && nextUid == old(nextUid)
    {
      var users := [];
      var i := utable.Length;
      while i > 0
        invariant 0 <= i <= utable.Length && |users| == USER_SIZE * (utable.Length - i) && nextUid == old(nextUid)
        invariant (forall k :: i <= k < utable.Length ==> WellFormed(utable[k])) && users == EncodeUsers(utable[i..])
      {
        i := i - 1;
        assert utable[i..][0] == utable[i] && utable[i..][1..] == utable[i + 1..];
        users := EncodeUser(utable[i]) + users;
      }
      assert utable[0..] == utable[..];
      file := EncodeWord(nextUid) + users;
    }

    method Find(name: seq<Byte>) returns (r: Option<nat>)
      requires Shaped(Now())
      ensures r == FindName(utable[..], name, 0)
    {
      var i := 0;
      while i < utable.Length
        invariant 0 <= i <= utable.Length && FindName(utable[..], name, 0) == FindName(utable[..], name, i)
      {
        if utable[i].uid != 0 && Same(utable[i].name, name) {
          return Some(i);
        }
        i := i + 1;
      }
      return None;
    }

    /** add_user's loop: the last empty slot, unless the name is taken. */
    method FindSlot(name: seq<Byte>) returns (taken: bool, empty: Option<nat>)
      requires Shaped(Now())
      ensures taken == FindName(utable[..], name, 0).Some?
      ensures !taken ==> empty == LastEmpty(utable[..], utable.Length)
    {
      empty := None;
      var i := 0;
      while i < utable.Length
        invariant 0 <= i <= utable.Length && FindName(utable[..], name, 0) == FindName(utable[..], name, i)
        invariant empty == LastEmpty(utable[..], i)
      {
        if utable[i].uid == 0 {
          empty := Some(i);
        } else if Same(utable[i].name, name) {
          return true, empty;
        }
        i := i + 1;
      }
      taken := false;
    }

    /** add_user. The invariant breaks exactly when a user is added and next_uid wraps. */
    method AddUser(name: seq<Byte>, passwd: seq<Byte>) returns (uid: Word)
      requires Valid()
      modifies this, utable
      ensures Shaped(Now()) && file == Encode(Now()) && (Now(), uid) == Add(old(Now()), name, passwd)
      ensures Valid() <==> uid == 0 || old(nextUid) < 0xFFFF_FFFF
    {
      if !ValidName(name) || !ValidName(passwd) {
        return 0;
      }
      var taken, empty := FindSlot(name);
      if taken || empty.None? {
        return 0;
      }
      AddKeepsIff(Now(), name, passwd);
      utable[empty.value] := User(Field(name), Field(passwd), nextUid);
      uid := nextUid;
      nextUid := (nextUid + 1) % 0x1_0000_0000;
      assert Now() == Add(old(Now()), name, passwd).0;
      Export();
    }

    method DeleteUser(name: seq<Byte>) returns (r: int)
      requires Valid() && IsString(name)
      modifies this, utable
      ensures Valid() && (Now(), r) == Delete(old(Now()), name)
    {
      if !ValidName(name) || Same(Field(Root()), name) {
        return -1;
      }
      var user := Find(name);
      if user.None? {
        return -1;
      }
      DeleteInv(Now(), name);
      utable[user.value] := User(Zeros(MAXLEN), Zeros(MAXLEN), 0);
      assert Now() == Delete(old(Now()), name).0;
      Export();
      return 0;
    }

    /** init_usertable on a disk with /passwd: memory becomes what the file says, which is what
        it was. */
    method Restart() returns (ok: bool)
      requires Valid()
      modifies this, utable
      ensures ok && Valid() && Now() == old(Now())
    {
      TableRoundTrip(Now());
      var t := Decode(file);
      if t.None? {
        return false;
      }
      nextUid := t.value.nextUid;
      var i := 0;
      while i < utable.Length
        invariant 0 <= i <= utable.Length && nextUid == old(nextUid) && file == old(file)
        invariant utable[..] == old(utable[..])
      {
        utable[i] := t.value.users[i];
        i := i + 1;
      }
      ok := true;
    }
  }
}
