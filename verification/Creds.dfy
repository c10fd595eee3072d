/** The fake credentials of one traced process: the nine set*id calls, and what no sequence of
    them can do. The class follows the C code field by field; `Step` says what a call means. */
module Creds {
  import opened Words

  const MAX_GROUPS: nat := 32

  datatype Ids = Ids(own: U32, effective: U32, saved: U32) {
    predicate Has(v: U32) { v == own || v == effective || v == saved }

    /** The three ids after asking for `r`, `e`, `s`, where NOID asks for no change. */
    function Apply(r: U32, e: U32, s: U32): Ids {
      Ids(if r != NOID then r else own, if e != NOID then e else effective, if s != NOID then s else saved)
    }

    /** May an unprivileged process name `v` in setres*id? */
    predicate Offers(v: U32) { v == NOID || Has(v) }

    /** May an unprivileged process make these its real and effective id in setre*id? */
    predicate OffersPair(r: U32, e: U32) {
      (r == NOID || r == own || r == effective) && Offers(e)
    }

    /** setre*id: the saved id follows the effective one when the real id is set, or when the
        effective id is set to something other than the old real id. */
    function ApplyPair(r: U32, e: U32): Ids {
      var after := Apply(r, e, NOID);
      if r != NOID || (e != NOID && e != own) then Apply(r, e, after.effective) else after
    }
  }

  datatype State = State(uid: Ids, gid: Ids, fsuid: U32, fsgid: U32, groups: seq<U32>) {
    predicate Privileged() { uid.effective == 0 }

    predicate Dropped() { !uid.Has(0) }
  }

  /** A call as the guest makes it. The group list is memory: defined at every index. */
  datatype Call =
    | SetUid(u: U32) | SetGid(g: U32)
    | SetResUid(r: U32, e: U32, s: U32) | SetResGid(r: U32, e: U32, s: U32)
    | SetReUid(r: U32, e: U32) | SetReGid(r: U32, e: U32)
    | SetGroups(list: nat -> U32, n: int)
    | SetFsUid(u: U32) | SetFsGid(g: U32)

  /** What an unprivileged process may ask for. */
  predicate Permitted(c: State, call: Call) {
    match call
    case SetUid(u) => u == c.uid.own || u == c.uid.saved
    case SetGid(g) => g == c.gid.own || g == c.gid.saved
    case SetResUid(r, e, s) => c.uid.Offers(r) && c.uid.Offers(e) && c.uid.Offers(s)
    case SetResGid(r, e, s) => c.gid.Offers(r) && c.gid.Offers(e) && c.gid.Offers(s)
    case SetReUid(r, e) => c.uid.OffersPair(r, e)
    case SetReGid(r, e) => c.gid.OffersPair(r, e)
    case SetGroups(_, _) => false
    case SetFsUid(u) => u == c.fsuid || c.uid.Has(u)
    case SetFsGid(g) => g == c.fsgid || c.gid.Has(g)
  }

  function WithUid(c: State, ids: Ids): State { c.(uid := ids, fsuid := ids.effective) }

  function WithGid(c: State, ids: Ids): State { c.(gid := ids, fsgid := ids.effective) }

  /** The state after a call that is allowed. */
  function Effect(c: State, call: Call): State {
    match call
    case SetUid(u) => WithUid(c, if c.Privileged() then c.uid.Apply(u, u, u) else c.uid.Apply(NOID, u, NOID))
    case SetGid(g) => WithGid(c, if c.Privileged() then c.gid.Apply(g, g, g) else c.gid.Apply(NOID, g, NOID))
    case SetResUid(r, e, s) => WithUid(c, c.uid.Apply(r, e, s))
    case SetResGid(r, e, s) => WithGid(c, c.gid.Apply(r, e, s))
    case SetReUid(r, e) => WithUid(c, c.uid.ApplyPair(r, e))
    case SetReGid(r, e) => WithGid(c, c.gid.ApplyPair(r, e))
    case SetGroups(list, n) => if 0 <= n <= MAX_GROUPS then c.(groups := seq(n, i requires 0 <= i => list(i))) else c
    case SetFsUid(u) => if u != NOID then c.(fsuid := u) else c
    case SetFsGid(g) => if g != NOID then c.(fsgid := g) else c
  }

  /** A call that is not allowed changes nothing. */
  function Step(c: State, call: Call): State {
    if c.Privileged() || Permitted(c, call) then Effect(c, call) else c
  }

  /** What the guest is told: the old id from setfs*id, else 0 or -errno. */
  function Answer(c: State, call: Call): int {
    match call
    case SetFsUid(_) => c.fsuid
    case SetFsGid(_) => c.fsgid
    case SetGroups(_, n) =>
      if !c.Privileged() then -EPERM else if 0 <= n <= MAX_GROUPS then 0 else -EINVAL
    case _ => if c.Privileged() || Permitted(c, call) then 0 else -EPERM
  }

  function Run(c: State, calls: seq<Call>): State
    decreases |calls|
  {
    if calls == [] then c else Run(Step(c, calls[0]), calls[1..])
  }

  function Init(uid: U32, gid: U32): State {
    State(Ids(uid, uid, uid), Ids(gid, gid, gid), uid, gid, [gid])
  }

  /** The credentials as the tracer holds them. */
  class Credentials {
    var ruid: U32, euid: U32, suid: U32
    var rgid: U32, egid: U32, sgid: U32
    var fsuid: U32, fsgid: U32
    const groups: array<U32>
    var ngroups: nat

    ghost predicate Valid() reads this { ngroups <= groups.Length == MAX_GROUPS }

    ghost function Value(): State
      requires Valid()
      reads this, groups
    {
      State(Ids(ruid, euid, suid), Ids(rgid, egid, sgid), fsuid, fsgid, groups[..ngroups])
    }

    constructor (uid: U32, gid: U32)
      ensures Valid() && fresh(groups)
      ensures Value() == Init(uid, gid)
    {
      groups := new U32[MAX_GROUPS](_ => 0);
      ruid, euid, suid := uid, uid, uid;
      rgid, egid, sgid := gid, gid, gid;
      fsuid, fsgid, ngroups := uid, gid, 1;
      new;
      groups[0] := gid;
    }

    method ApplyUid(r: U32, e: U32, s: U32)
      requires Valid()
      modifies this
      ensures Valid()
      ensures Value() == WithUid(old(Value()), old(Value()).uid.Apply(r, e, s))
    {
      if r != NOID { ruid := r; }
      if e != NOID { euid := e; }
      if s != NOID { suid := s; }
      fsuid := euid;
    }

    method ApplyGid(r: U32, e: U32, s: U32)
      requires Valid()
      modifies this
      ensures Valid()
      ensures Value() == WithGid(old(Value()), old(Value()).gid.Apply(r, e, s))
    {
      if r != NOID { rgid := r; }
      if e != NOID { egid := e; }
      if s != NOID { sgid := s; }
      fsgid := egid;
    }

    method DoSetUid(u: U32) returns (r: int)
      requires Valid()
      modifies this
      ensures Valid()
      ensures Value() == Step(old(Value()), SetUid(u)) && r == Answer(old(Value()), SetUid(u))
    {
      if euid == 0 {
        ApplyUid(u, u, u);
      } else if u == ruid || u == suid {
        ApplyUid(NOID, u, NOID);
      } else {
        return -EPERM;
      }
      return 0;
    }

    method DoSetGid(g: U32) returns (r: int)
      requires Valid()
      modifies this
      ensures Valid()
      ensures Value() == Step(old(Value()), SetGid(g)) && r == Answer(old(Value()), SetGid(g))
    {
      if euid == 0 {
        ApplyGid(g, g, g);
      } else if g == rgid || g == sgid {
        ApplyGid(NOID, g, NOID);
      } else {
        return -EPERM;
      }
      return 0;
    }

    predicate UidIn3(v: U32) reads this { v == ruid || v == euid || v == suid }

    predicate GidIn3(v: U32) reads this { v == rgid || v == egid || v == sgid }

    method DoSetResUid(r: U32, e: U32, s: U32) returns (ret: int)
      requires Valid()
      modifies this
      ensures Valid()
      ensures Value() == Step(old(Value()), SetResUid(r, e, s)) && ret == Answer(old(Value()), SetResUid(r, e, s))
    {
      if euid != 0 && ((r != NOID && !UidIn3(r)) || (e != NOID && !UidIn3(e)) || (s != NOID && !UidIn3(s))) {
        return -EPERM;
      }
      ApplyUid(r, e, s);
      return 0;
    }

    method DoSetResGid(r: U32, e: U32, s: U32) returns (ret: int)
      requires Valid()
      modifies this
      ensures Valid()
      ensures Value() == Step(old(Value()), SetResGid(r, e, s)) && ret == Answer(old(Value()), SetResGid(r, e, s))
    {
      if euid != 0 && ((r != NOID && !GidIn3(r)) || (e != NOID && !GidIn3(e)) || (s != NOID && !GidIn3(s))) {
        return -EPERM;
      }
      ApplyGid(r, e, s);
      return 0;
    }

    method DoSetReUid(r: U32, e: U32) returns (ret: int)
      requires Valid()
      modifies this
      ensures Valid()
      ensures Value() == Step(old(Value()), SetReUid(r, e)) && ret == Answer(old(Value()), SetReUid(r, e))
    {
      if euid != 0 && ((r != NOID && r != ruid && r != euid) || (e != NOID && !UidIn3(e))) {
        return -EPERM;
      }
      var oldReal, newE := ruid, if e != NOID then e else euid;
      var save := r != NOID || (e != NOID && e != oldReal);
      ApplyUid(r, e, if save then newE else NOID);
      return 0;
    }

    method DoSetReGid(r: U32, e: U32) returns (ret: int)
      requires Valid()
      modifies this
      ensures Valid()
      ensures Value() == Step(old(Value()), SetReGid(r, e)) && ret == Answer(old(Value()), SetReGid(r, e))
    {
      if euid != 0 && ((r != NOID && r != rgid && r != egid) || (e != NOID && !GidIn3(e))) {
        return -EPERM;
      }
      var oldReal, newE := rgid, if e != NOID then e else egid;
      var save := r != NOID || (e != NOID && e != oldReal);
      ApplyGid(r, e, if save then newE else NOID);
      return 0;
    }

    method DoSetGroups(list: nat -> U32, n: int) returns (ret: int)
      requires Valid()
      modifies this, groups
      ensures Valid()
      ensures Value() == Step(old(Value()), SetGroups(list, n)) && ret == Answer(old(Value()), SetGroups(list, n))
    {
      if euid != 0 { return -EPERM; }
      if n < 0 || n > MAX_GROUPS { return -EINVAL; }
      forall i | 0 <= i < n { groups[i] := list(i); }
      ngroups := n;
      return 0;
    }

    method DoSetFsUid(u: U32) returns (previous: int)
      requires Valid()
      modifies this
      ensures Valid()
      ensures Value() == Step(old(Value()), SetFsUid(u)) && previous == Answer(old(Value()), SetFsUid(u))
    {
      previous := fsuid;
      if u != NOID && (euid == 0 || u == fsuid || UidIn3(u)) { fsuid := u; }
    }

    method DoSetFsGid(g: U32) returns (previous: int)
      requires Valid()
      modifies this
      ensures Valid()
      ensures Value() == Step(old(Value()), SetFsGid(g)) && previous == Answer(old(Value()), SetFsGid(g))
    {
      previous := fsgid;
      if g != NOID && (euid == 0 || g == fsgid || GidIn3(g)) { fsgid := g; }
    }
  }

  // ----- what no run of calls can do -----

  /** `now` uses only ids that `was` already held, has no root id, and the groups of `was`. */
  ghost predicate Confined(was: State, now: State) {
    && now.Dropped()
    && (forall v :: now.uid.Has(v) ==> was.uid.Has(v))
    && (forall v :: now.gid.Has(v) ==> was.gid.Has(v))
    && (now.fsuid == was.fsuid || was.uid.Has(now.fsuid))
    && (now.fsgid == was.fsgid || was.gid.Has(now.fsgid))
    && now.groups == was.groups
  }

  /** Once no uid is 0, no run of calls brings back root, any id that was given up, or a group. */
  lemma {:induction false} DropConfines(c: State, calls: seq<Call>)
    requires c.Dropped()
    ensures Confined(c, Run(c, calls))
    decreases |calls|
  {
    if calls != [] {
      var next := Step(c, calls[0]);
      assert Confined(c, next);
      DropConfines(next, calls[1..]);
    }
  }

  /** Root can come back exactly while one of the three uids is still 0. */
  lemma {:induction false} RootReturnsIff(c: State)
    ensures (exists calls :: Run(c, calls).Privileged()) <==> c.uid.Has(0)
  {
    if c.uid.Has(0) {
      var call := SetResUid(NOID, 0, NOID);
      var calls := [call];
      assert calls[0] == call && calls[1..] == [];
      assert Run(c, calls) == Run(Step(c, call), []) == Step(c, call);
      assert exists calls :: Run(c, calls).Privileged();
    } else {
      forall calls ensures !Run(c, calls).Privileged() { DropConfines(c, calls); }
    }
  }

  /** Which calls by root give root up for good: setuid to another user, or a setreuid or setresuid
      that leaves 0 in none of the three places (the saved id follows the effective one). */
  predicate GivesUpRoot(c: State, call: Call) {
    var moves := (v: U32) => v != 0 && v != NOID;
    match call
    case SetUid(u) => moves(u)
    case SetResUid(r, e, s) =>
      moves(e) && (moves(r) || (r == NOID && c.uid.own != 0)) && (moves(s) || (s == NOID && c.uid.saved != 0))
    case SetReUid(r, e) =>
      moves(e) && (moves(r) || (r == NOID && c.uid.own != 0 && (e != c.uid.own || c.uid.saved != 0)))
    case _ => false
  }

  lemma {:induction false} PermanentExactlyWhen(c: State, call: Call)
    requires c.Privileged()
    ensures (forall calls :: !Run(Step(c, call), calls).Privileged()) <==> GivesUpRoot(c, call)
  {
    RootReturnsIff(Step(c, call));
    assert Step(c, call).Dropped() <==> GivesUpRoot(c, call);
  }

  // ----- gids -----

  /** A process without a root uid can get back to exactly the ids it still holds. */
  lemma {:induction false} GidReachableIff(c: State, v: U32)
    requires c.Dropped() && v != NOID
    ensures (exists calls :: Run(c, calls).gid.effective == v) <==> c.gid.Has(v)
  {
    if c.gid.Has(v) {
      RunOne(c, SetResGid(NOID, v, NOID));
      assert Run(c, [SetResGid(NOID, v, NOID)]).gid.effective == v;
    } else {
      forall calls ensures Run(c, calls).gid.effective != v { DropConfines(c, calls); }
    }
  }

  lemma {:induction false} UidReachableIff(c: State, v: U32)
    requires c.Dropped() && v != NOID
    ensures (exists calls :: Run(c, calls).uid.effective == v) <==> c.uid.Has(v)
  {
    if c.uid.Has(v) {
      RunOne(c, SetResUid(NOID, v, NOID));
      assert Run(c, [SetResUid(NOID, v, NOID)]).uid.effective == v;
    } else {
      forall calls ensures Run(c, calls).uid.effective != v { DropConfines(c, calls); }
    }
  }

  lemma RunOne(c: State, call: Call)
    ensures Run(c, [call]) == Step(c, call)
  {
    assert [call][0] == call && [call][1..] == [];
    assert Run(c, [call]) == Run(Step(c, call), []);
  }

  /** Which calls by root take the gid `v` out of all three places. */
  predicate GivesUpGid(c: State, call: Call, v: U32) {
    var moves := (g: U32) => g != v && g != NOID;
    var ids := c.gid;
    match call
    case SetGid(g) => moves(g) || (g == NOID && !ids.Has(v))
    case SetResGid(r, e, s) =>
      && (moves(r) || (r == NOID && ids.own != v)) && (moves(e) || (e == NOID && ids.effective != v))
      && (moves(s) || (s == NOID && ids.saved != v))
    case SetReGid(r, e) =>
      && (moves(r) || (r == NOID && ids.own != v)) && (moves(e) || (e == NOID && ids.effective != v))
      && (((r != NOID || (e != NOID && e != ids.own)) && (e != NOID || ids.effective != NOID)) || ids.saved != v)
    case _ => !ids.Has(v)
  }

  /** And they are the calls after which no later run without a root uid has it as its effective gid. */
  lemma {:induction false} GidGoneExactlyWhen(c: State, call: Call, v: U32, later: State)
    requires c.Privileged() && v != NOID && later.Dropped() && later.gid == Step(c, call).gid
    ensures (forall calls :: Run(later, calls).gid.effective != v) <==> GivesUpGid(c, call, v)
  {
    GidReachableIff(later, v);
    assert Step(c, call).gid.Has(v) <==> !GivesUpGid(c, call, v);
  }

  /** The way daemons drop root: setgid, then setuid. Nothing brings back any other id. */
  lemma {:induction false} DropForGood(c: State, u: U32, g: U32, calls: seq<Call>)
    requires c.Privileged() && u !in {0, NOID} && g != NOID
    ensures var now := Run(Step(Step(c, SetGid(g)), SetUid(u)), calls);
            now.gid == Ids(g, g, g) && now.uid == Ids(u, u, u) && now.fsgid == g && now.fsuid == u
  {
    var d := Step(Step(c, SetGid(g)), SetUid(u));
    assert d.Dropped();
    DropConfines(d, calls);
    var now := Run(d, calls);
    assert now.uid.Has(now.uid.own) && now.uid.Has(now.uid.effective) && now.uid.Has(now.uid.saved);
    assert now.gid.Has(now.gid.own) && now.gid.Has(now.gid.effective) && now.gid.Has(now.gid.saved);
  }

  // ----- the calls in terms of each other -----

  /** A gid call does to gids what a uid call does to uids, and to nothing else. */
  predicate Mirrors(m: State, gidCall: Call, c: State, uidCall: Call) {
    var after := Step(c, uidCall);
    && Step(m, gidCall) == m.(gid := after.uid, fsgid := after.fsuid)
    && after == c.(uid := after.uid, fsuid := after.fsuid)
    && Answer(m, gidCall) == Answer(c, uidCall)
  }

  lemma {:induction false} GidCallsMirror(c: State, m: State, x: U32, y: U32, z: U32)
    requires m.Privileged() == c.Privileged() && m.gid == c.uid && m.fsgid == c.fsuid
    ensures Mirrors(m, SetGid(x), c, SetUid(x)) && Mirrors(m, SetFsGid(x), c, SetFsUid(x))
    ensures Mirrors(m, SetReGid(x, y), c, SetReUid(x, y)) && Mirrors(m, SetResGid(x, y, z), c, SetResUid(x, y, z))
  {
  }

  /** For root, setuid is setresuid with three times the same id. */
  lemma SetUidByRoot(c: State, u: U32)
    requires c.Privileged()
    ensures Step(c, SetUid(u)) == Step(c, SetResUid(u, u, u)) && Answer(c, SetUid(u)) == 0
  {
  }

  /** For others it moves the effective id to the real or the saved one, and back again. */
  lemma SetUidByOthers(c: State, u: U32)
    requires !c.Privileged() && u != NOID
    ensures Answer(c, SetUid(u)) == 0 <==> u == c.uid.own || u == c.uid.saved
    ensures Answer(c, SetUid(u)) == 0 ==> Step(c, SetUid(u)) == Step(c, SetResUid(NOID, u, NOID))
    ensures var then' := Step(c, SetUid(u));
            var was := c.uid.effective;
            !then'.Privileged() && was in {c.uid.own, c.uid.saved} - {NOID} && c.fsuid == was ==>
              Step(then', SetUid(was)) == c
  {
  }

  /** Root that only lends its effective id away gets everything back. */
  lemma LentRootComesBack(c: State, u: U32)
    requires c.Privileged() && (c.uid.own == 0 || c.uid.saved == 0) && c.fsuid == 0 && u != NOID
    ensures var lent := Step(c, SetResUid(NOID, u, NOID));
            lent.uid.effective == u && lent.fsuid == u && Step(lent, SetResUid(NOID, 0, NOID)) == c
  {
  }

  /** setreuid exchanges the two ids for anyone, and the saved one follows the effective. */
  lemma ReUidExchanges(c: State)
    requires c.uid.own != NOID && c.uid.effective != NOID
    ensures var r, e := c.uid.own, c.uid.effective;
            Answer(c, SetReUid(e, r)) == 0 && Step(c, SetReUid(e, r)).uid == Ids(e, r, r)
  {
  }

  /** But only setresuid may make the saved id the real one. */
  lemma ReUidLeavesSavedOut(c: State)
    requires !c.Privileged() && c.uid.saved !in {NOID, c.uid.own, c.uid.effective}
    ensures Answer(c, SetReUid(c.uid.saved, NOID)) == -EPERM && Step(c, SetReUid(c.uid.saved, NOID)) == c
    ensures Answer(c, SetReUid(NOID, c.uid.saved)) == 0 && Answer(c, SetResUid(c.uid.saved, NOID, NOID)) == 0
  {
  }

  /** setfsuid never fails; asking again tells whether it worked. */
  lemma FsUidAskedAgain(c: State, u: U32)
    requires u != NOID
    ensures Answer(c, SetFsUid(u)) == c.fsuid
    ensures Answer(Step(c, SetFsUid(u)), SetFsUid(NOID)) == u
       <==> c.Privileged() || c.uid.Has(u) || u == c.fsuid
    ensures Step(c, SetFsUid(u)).(fsuid := c.fsuid) == c
  {
  }

  ghost predicate FsUidHeld(c: State) { !c.Privileged() ==> c.uid.Has(c.fsuid) }

  /** In every state a process can reach, an unprivileged one acts on files under an id it holds. */
  lemma {:induction false} FsUidAlwaysHeld(c: State, calls: seq<Call>)
    requires FsUidHeld(c)
    ensures FsUidHeld(Run(c, calls))
    decreases |calls|
  {
    if calls != [] {
      assert FsUidHeld(Step(c, calls[0]));
      FsUidAlwaysHeld(Step(c, calls[0]), calls[1..]);
    }
  }

  lemma FsUidHeldFromStart(uid: U32, gid: U32, calls: seq<Call>)
    ensures var c := Run(Init(uid, gid), calls); !c.Privileged() ==> c.uid.Has(c.fsuid)
  {
    FsUidAlwaysHeld(Init(uid, gid), calls);
  }
}
