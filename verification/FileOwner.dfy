/** Who the guest sees as a file's owner: a chown is noted at entry and committed at exit, stat and
    statx consult the table. Over whole runs of several processes this is one owner per file. */
module FileOwner {
  import opened Words
  import opened OwnerTable

  /** The identity files of the real user are shown under, and the real user's own ids. */
  datatype Identity = Identity(fake: Owner, actual: Owner)

  type Disk = Key -> Owner
  type OwnerMap = map<Key, Owner>

  /** chown's rule: NOID leaves a field as it is. */
  function Change(was: Owner, uid: U32, gid: U32): Owner {
    Owner(if uid != NOID then uid else was.uid, if gid != NOID then gid else was.gid)
  }

  /** How a file without a table entry is shown. */
  function Shown(id: Identity, disk: Owner): Owner {
    Owner(if disk.uid == id.actual.uid then id.fake.uid else disk.uid,
          if disk.gid == id.actual.gid then id.fake.gid else disk.gid)
  }

  function Visible(id: Identity, table: OwnerMap, disk: Disk, key: Key): Owner {
    if key in table then table[key] else Shown(id, disk(key))
  }

  // ----- device numbers: statx reports two halves, stat one number -----

  /** glibc's makedev: from the top, the high 20 bits of the major number, the high 24 of the minor,
      the low 12 of the major, the low 8 of the minor. */
  function MakeDev(major: U32, minor: U32): (dev: U64) {
    ((major / 0x1000 * 0x100_0000 + minor / 0x100) * 0x1000 + major % 0x1000) * 0x100 + minor % 0x100
  }

  function DevMajor(dev: U64): U32 { dev / 0x100 / 0x1000 / 0x100_0000 * 0x1000 + dev / 0x100 % 0x1000 }

  function DevMinor(dev: U64): U32 { dev / 0x100 / 0x1000 % 0x100_0000 * 0x100 + dev % 0x100 }

  lemma Digits(q: nat, high: nat, mid: nat, low: nat)
    requires low < 0x100 && mid < 0x1000 && high < 0x100_0000
    ensures var n := ((q * 0x100_0000 + high) * 0x1000 + mid) * 0x100 + low;
            n % 0x100 == low && n / 0x100 % 0x1000 == mid
            && n / 0x100 / 0x1000 % 0x100_0000 == high && n / 0x100 / 0x1000 / 0x100_0000 == q
  {
    var a := q * 0x100_0000 + high;
    var b := a * 0x1000 + mid;
    var n := b * 0x100 + low;
    assert n / 0x100 == b && n % 0x100 == low;
    assert b / 0x1000 == a && b % 0x1000 == mid;
    assert a / 0x100_0000 == q && a % 0x100_0000 == high;
  }

  /** The two halves of a device number, recombined, are the number, so statx uses stat's key; and no
      two pairs of halves make the same number. */
  lemma DeviceNumbersRecombine(dev: U64, major: U32, minor: U32)
    ensures MakeDev(DevMajor(dev), DevMinor(dev)) == dev
    ensures DevMajor(MakeDev(major, minor)) == major && DevMinor(MakeDev(major, minor)) == minor
  {
    Digits(major / 0x1000, minor / 0x100, major % 0x1000, minor % 0x100);
    var top, mid := DevMajor(dev), DevMinor(dev);
    assert top / 0x1000 == dev / 0x100 / 0x1000 / 0x100_0000 && top % 0x1000 == dev / 0x100 % 0x1000;
    assert mid / 0x100 == dev / 0x100 / 0x1000 % 0x100_0000 && mid % 0x100 == dev % 0x100;
  }

  /** The digits of the halves keep the order they have in the number the kernel makes of them. */
  lemma DeviceDigits()
    ensures MakeDev(0x1234_5678, 0x9ABC_DEF0) == 0x1234_59AB_CDE6_78F0
  {
  }

  // ----- the calls -----

  /** What the tracer's own stat of the file says at the entry of a chown. */
  datatype Stat = Stat(key: Key, owner: Owner)

  datatype Note = Note(key: Key, current: Owner, uid: U32, gid: U32)

  /** A chown as noted at its entry. */
  function Noted(id: Identity, table: OwnerMap, st: Stat, uid: U32, gid: U32): Note {
    Note(st.key, if st.key in table then table[st.key] else Shown(id, st.owner), uid, gid)
  }

  predicate Accepted(ret: int) { ret == 0 || ret == -EPERM || ret == -EINVAL }

  /** `room`: the table has a slot for it, or gets the memory to grow. */
  function Committed(table: OwnerMap, note: Option<Note>, ret: int, room: bool): OwnerMap {
    if note.Some? && Accepted(ret) && room
    then table[note.value.key := Change(note.value.current, note.value.uid, note.value.gid)]
    else table
  }

  /** The chown fields of one traced process. */
  class ChownState {
    var valid: bool
    var dev: U64, ino: U64
    var currentUid: U32, currentGid: U32
    var uid: U32, gid: U32

    function Value(): Option<Note> reads this {
      if valid then Some(Note(Key(dev, ino), Owner(currentUid, currentGid), uid, gid)) else None
    }

    /** Entry of a chown. `valid` was cleared when the call was seen. */
    method NoteChown(db: OwnerDb, id: Identity, st: Option<Stat>, newUid: U32, newGid: U32)
      requires db.Valid() && !valid
      modifies this
      ensures db.Valid() && db.contents == old(db.contents)
      ensures Value() == if st.Some? then Some(Noted(id, db.contents, st.value, newUid, newGid)) else None
    {
      if st.None? { return; }
      valid, dev, ino := true, st.value.key.dev, st.value.key.ino;
      currentUid := if st.value.owner.uid == id.actual.uid then id.fake.uid else st.value.owner.uid;
      currentGid := if st.value.owner.gid == id.actual.gid then id.fake.gid else st.value.owner.gid;
      var known := db.Lookup(dev, ino);
      if known.Some? { currentUid, currentGid := known.value.uid, known.value.gid; }
      uid, gid := newUid, newGid;
    }

    /** Exit of a chown: returns what the guest sees. The kernel's refusals read as success. */
    method Commit(db: OwnerDb, ret: int, memory: bool) returns (result: int)
      requires db.Valid()
      modifies db, db.slots
      ensures db.Valid()
      ensures var room := memory || (old(db.count) + 1) * 2 <= old(db.slots.Length);
              db.contents == Committed(old(db.contents), Value(), ret, room)
      ensures result == if Accepted(ret) then 0 else ret
    {
      if valid && (ret == 0 || ret == -EPERM || ret == -EINVAL) {
        var u := if uid != NOID then uid else currentUid;
        var g := if gid != NOID then gid else currentGid;
        db.Set(dev, ino, u, g, memory);
      }
      result := if ret == -EPERM || ret == -EINVAL then 0 else ret;
    }
  }

  datatype StatBuf = StatBuf(uid: U32, gid: U32, dev: U64, ino: U64)
  datatype StatxBuf = StatxBuf(uid: U32, gid: U32, major: U32, minor: U32, ino: U64)

  /** Exit of stat: the owner fields of the buffer become the guest's view. */
  method FakeOwner(db: OwnerDb, id: Identity, buf: StatBuf) returns (r: StatBuf)
    requires db.Valid()
    ensures r.dev == buf.dev && r.ino == buf.ino
    ensures Owner(r.uid, r.gid) == Visible(id, db.contents, (_: Key) => Owner(buf.uid, buf.gid), Key(buf.dev, buf.ino))
  {
    r := buf;
    var known := db.Lookup(buf.dev, buf.ino);
    if known.Some? { return r.(uid := known.value.uid, gid := known.value.gid); }
    if r.uid == id.actual.uid { r := r.(uid := id.fake.uid); }
    if r.gid == id.actual.gid { r := r.(gid := id.fake.gid); }
  }

  /** Exit of statx: the same for the file of that device and inode. */
  method FakeOwnerStatx(db: OwnerDb, id: Identity, buf: StatxBuf, ghost dev: U64) returns (r: StatxBuf)
    requires db.Valid()
    requires buf.major == DevMajor(dev) && buf.minor == DevMinor(dev)
    ensures r.major == buf.major && r.minor == buf.minor && r.ino == buf.ino
    ensures Owner(r.uid, r.gid) == Visible(id, db.contents, (_: Key) => Owner(buf.uid, buf.gid), Key(dev, buf.ino))
  {
    DeviceNumbersRecombine(dev, buf.major, buf.minor);
    var s := FakeOwner(db, id, StatBuf(buf.uid, buf.gid, MakeDev(buf.major, buf.minor), buf.ino));
    r := buf.(uid := s.uid, gid := s.gid);
  }

  // ----- whole runs -----

  /** A chown in progress: its file, what it asks for, and the owner noted at its entry, unless the
      tracer could not look at the file. `late` marks one that another change of the file overtook. */
  datatype Pending = Pending(key: Key, uid: U32, gid: U32, current: Option<Owner>, late: bool) {
    function AsNote(): Option<Note> {
      if current.Some? then Some(Note(key, current.value, uid, gid)) else None
    }
  }

  /** The kernel's files, the table, and each process's chown in progress. */
  datatype World = World(disk: Disk, table: OwnerMap, pending: map<nat, Pending>)

  /** `seen`: the tracer's own stat of the file works; `room`: the table can store the owner. */
  datatype Event =
    | Enter(pid: nat, key: Key, uid: U32, gid: U32, seen: bool)   // a chown of the file `key` begins
    | Leave(pid: nat, ret: int, room: bool)                       // and returns from the kernel
    | Create(key: Key, owner: Owner, room: bool)                  // a new file, made under these fake ids

  function Put<V>(f: Key -> V, key: Key, v: V): Key -> V { (k: Key) => if k == key then v else f(k) }

  function MarkLate(pending: map<nat, Pending>, key: Key): map<nat, Pending> {
    map p | p in pending :: if pending[p].key == key then pending[p].(late := true) else pending[p]
  }

  function Begun(id: Identity, w: World, key: Key, uid: U32, gid: U32, seen: bool): Pending {
    Pending(key, uid, gid, if seen then Some(Visible(id, w.table, w.disk, key)) else None, false)
  }

  /** One event. A real chown that succeeds also changes the file on disk; a created file belongs to
      the real user, and is recorded only when made under another identity than the default. */
  function Next(id: Identity, w: World, e: Event): World {
    match e
    case Enter(pid, key, uid, gid, seen) => w.(pending := w.pending[pid := Begun(id, w, key, uid, gid, seen)])
    case Leave(pid, ret, room) =>
      if pid !in w.pending then w
      else
        var p := w.pending[pid];
        var rest := w.pending - {pid};
        World(if ret == 0 then Put(w.disk, p.key, Change(w.disk(p.key), p.uid, p.gid)) else w.disk,
              Committed(w.table, p.AsNote(), ret, room),
              if Accepted(ret) then MarkLate(rest, p.key) else rest)
    case Create(key, owner, room) =>
      World(Put(w.disk, key, id.actual),
            if owner == id.fake || !room then w.table else w.table[key := owner],
            MarkLate(w.pending, key))
  }

  function Run(id: Identity, w: World, events: seq<Event>): World
    decreases |events|
  {
    if events == [] then w else Run(id, Next(id, w, events[0]), events[1..])
  }

  /** The plain model: one owner per file, changed field by field when a chown returns. */
  function NextOwners(owners: Disk, w: World, e: Event): Disk {
    match e
    case Enter(_, _, _, _, _) => owners
    case Leave(pid, ret, _) =>
      if pid in w.pending && Accepted(ret) then
        var p := w.pending[pid];
        Put(owners, p.key, Change(owners(p.key), p.uid, p.gid))
      else owners
    case Create(key, owner, _) => Put(owners, key, owner)
  }

  function RunOwners(id: Identity, owners: Disk, w: World, events: seq<Event>): Disk
    decreases |events|
  {
    if events == [] then owners
    else RunOwners(id, NextOwners(owners, w, events[0]), Next(id, w, events[0]), events[1..])
  }

  ghost predicate Agrees(id: Identity, w: World, owners: Disk) {
    forall k :: Visible(id, w.table, w.disk, k) == owners(k)
  }

  /** Stat and the plain model agree now and after every event of the run. */
  ghost predicate AgreesThroughout(id: Identity, w: World, owners: Disk, events: seq<Event>)
    decreases |events|
  {
    Agrees(id, w, owners)
    && (events == [] || AgreesThroughout(id, Next(id, w, events[0]), NextOwners(owners, w, events[0]), events[1..]))
  }

  /** Does every field that is asked for look as asked? */
  predicate AskedFor(uid: U32, gid: U32, shown: Owner) {
    (uid != NOID ==> uid == shown.uid) && (gid != NOID ==> gid == shown.gid)
  }

  /** What this event does to the owner shown is what it should do. A chown that is recorded must find
      the fields it leaves alone as they were at its entry. One that is not recorded must ask for what is
      shown anyway. A new file needs an entry unless the owner shown without one is its own. */
  predicate Truthful(id: Identity, w: World, e: Event) {
    match e
    case Enter(_, _, _, _, _) => true
    case Leave(pid, ret, room) =>
      pid in w.pending && Accepted(ret) ==>
        var p := w.pending[pid];
        var now := Visible(id, w.table, w.disk, p.key);
        if p.current.Some? && room then
          (p.uid == NOID ==> p.current.value.uid == now.uid) && (p.gid == NOID ==> p.current.value.gid == now.gid)
        else
          AskedFor(p.uid, p.gid, if p.key in w.table || ret != 0 then now else Shown(id, Owner(p.uid, p.gid)))
    case Create(key, owner, room) =>
      (owner != id.fake && room) || owner == if key in w.table then w.table[key] else id.fake
  }

  predicate TruthfulRun(id: Identity, w: World, events: seq<Event>)
    decreases |events|
  {
    events == [] || (Truthful(id, w, events[0]) && TruthfulRun(id, Next(id, w, events[0]), events[1..]))
  }

  /** The exit of a chown shows exactly the change asked for, if and only if it is truthful. */
  lemma {:induction false} CommitIsAtomicIff(id: Identity, w: World, pid: nat, ret: int, room: bool)
    requires pid in w.pending && Accepted(ret)
    ensures var p, after := w.pending[pid], Next(id, w, Leave(pid, ret, room));
            Visible(id, after.table, after.disk, p.key) == Change(Visible(id, w.table, w.disk, p.key), p.uid, p.gid)
            <==> Truthful(id, w, Leave(pid, ret, room))
  {
  }

  lemma {:induction false} EventKeepsOwnersIff(id: Identity, w: World, owners: Disk, e: Event)
    requires Agrees(id, w, owners)
    ensures Agrees(id, Next(id, w, e), NextOwners(owners, w, e)) <==> Truthful(id, w, e)
  {
    var after, then' := Next(id, w, e), NextOwners(owners, w, e);
    match e
    case Enter(_, _, _, _, _) =>
      assert forall k :: Visible(id, after.table, after.disk, k) == Visible(id, w.table, w.disk, k);
    case Leave(pid, ret, room) =>
      if pid in w.pending {
        var key := w.pending[pid].key;
        assert Visible(id, w.table, w.disk, key) == owners(key);
        if Accepted(ret) { CommitIsAtomicIff(id, w, pid, ret, room); }
        assert forall k :: k != key ==> Visible(id, after.table, after.disk, k) == Visible(id, w.table, w.disk, k);
        assert Accepted(ret) ==> (Truthful(id, w, e) <==> Visible(id, after.table, after.disk, key) == then'(key));
      }
    case Create(key, owner, room) =>
      assert forall k :: k != key ==> Visible(id, after.table, after.disk, k) == Visible(id, w.table, w.disk, k);
      assert Truthful(id, w, e) <==> Visible(id, after.table, after.disk, key) == then'(key);
  }

  /** Over every run, whatever overlaps and whatever fails: stat shows the plain owner of every file at
      every moment if and only if every event is truthful. */
  lemma {:induction false} OneOwnerIff(id: Identity, w: World, owners: Disk, events: seq<Event>)
    requires Agrees(id, w, owners)
    ensures AgreesThroughout(id, w, owners, events) <==> TruthfulRun(id, w, events)
    decreases |events|
  {
    if events != [] {
      EventKeepsOwnersIff(id, w, owners, events[0]);
      if Truthful(id, w, events[0]) {
        OneOwnerIff(id, Next(id, w, events[0]), NextOwners(owners, w, events[0]), events[1..]);
      }
    }
  }

  lemma {:induction false} EndsAgreeing(id: Identity, w: World, owners: Disk, events: seq<Event>)
    requires AgreesThroughout(id, w, owners, events)
    ensures Agrees(id, Run(id, w, events), RunOwners(id, owners, w, events))
    decreases |events|
  {
    if events != [] { EndsAgreeing(id, Next(id, w, events[0]), NextOwners(owners, w, events[0]), events[1..]); }
  }

  // ----- runs without overlap are truthful -----

  /** No inode is reused while the table remembers it, owners are recorded, and no chown that leaves a
      field alone is overtaken by another change of the same file. */
  predicate Orderly(id: Identity, w: World, e: Event) {
    match e
    case Enter(_, _, _, _, seen) => true
    case Leave(pid, ret, room) =>
      pid in w.pending && Accepted(ret) ==>
        var p := w.pending[pid];
        p.current.Some? && room && (p.late ==> p.uid != NOID && p.gid != NOID)
    case Create(key, owner, room) => key !in w.table && (owner == id.fake || room)
  }

  predicate OrderlyRun(id: Identity, w: World, events: seq<Event>)
    decreases |events|
  {
    events == [] || (Orderly(id, w, events[0]) && OrderlyRun(id, Next(id, w, events[0]), events[1..]))
  }

  /** A chown in progress that was not overtaken knows the owner the guest sees now. */
  ghost predicate Current(id: Identity, w: World) {
    forall p :: p in w.pending && !w.pending[p].late && w.pending[p].current.Some? ==>
      w.pending[p].current.value == Visible(id, w.table, w.disk, w.pending[p].key)
  }

  lemma {:induction false} EventKeepsCurrent(id: Identity, w: World, e: Event)
    requires Current(id, w)
    ensures Current(id, Next(id, w, e))
  {
    var after := Next(id, w, e);
    forall p | p in after.pending && !after.pending[p].late && after.pending[p].current.Some?
      ensures after.pending[p].current.value == Visible(id, after.table, after.disk, after.pending[p].key)
    {
      if p in w.pending && !e.Enter? {
        assert w.pending[p].current.value == Visible(id, w.table, w.disk, w.pending[p].key);
      }
    }
  }

  lemma {:induction false} OrderlyIsTruthful(id: Identity, w: World, events: seq<Event>)
    requires Current(id, w) && OrderlyRun(id, w, events)
    ensures TruthfulRun(id, w, events)
    decreases |events|
  {
    if events != [] {
      EventKeepsCurrent(id, w, events[0]);
      OrderlyIsTruthful(id, Next(id, w, events[0]), events[1..]);
    }
  }

  /** Over every orderly run, the owner stat shows for each file is the plain per-file owner. */
  lemma {:induction false} OneOwnerPerFile(id: Identity, w: World, owners: Disk, events: seq<Event>)
    requires Current(id, w) && Agrees(id, w, owners) && OrderlyRun(id, w, events)
    ensures Agrees(id, Run(id, w, events), RunOwners(id, owners, w, events))
  {
    OrderlyIsTruthful(id, w, events);
    OneOwnerIff(id, w, owners, events);
    EndsAgreeing(id, w, owners, events);
  }

  /** From the start of a run: files look as the fake identity shows the disk, then as chowned. */
  lemma OneOwnerFromStart(id: Identity, disk: Disk, table: OwnerMap, events: seq<Event>, key: Key)
    requires OrderlyRun(id, World(disk, table, map[]), events)
    ensures var w := World(disk, table, map[]);
            var end := Run(id, w, events);
            Visible(id, end.table, end.disk, key)
            == RunOwners(id, (k: Key) => Visible(id, table, disk, k), w, events)(key)
  {
    var w := World(disk, table, map[]);
    var owners := (k: Key) => Visible(id, table, disk, k);
    assert Agrees(id, w, owners);
    OneOwnerPerFile(id, w, owners, events);
  }

  /** Two overlapping chowns of one file, each setting one field: the second to return undoes the
      first. */
  lemma {:induction false} OverlapLosesAnUpdate(id: Identity, disk: Disk, key: Key)
    requires id.fake == Owner(0, 0) && disk(key) == id.actual
    ensures var w := World(disk, map[], map[]);
            var events := [Enter(1, key, 5, NOID, true), Enter(2, key, NOID, 7, true),
                           Leave(2, -EPERM, true), Leave(1, -EPERM, true)];
            var end := Run(id, w, events);
            && Visible(id, end.table, end.disk, key) == Owner(5, 0)
            && RunOwners(id, (k: Key) => Visible(id, map[], disk, k), w, events)(key) == Owner(5, 7)
            && !TruthfulRun(id, w, events)
  {
    var w := World(disk, map[], map[]);
    var e := [Enter(1, key, 5, NOID, true), Enter(2, key, NOID, 7, true),
              Leave(2, -EPERM, true), Leave(1, -EPERM, true)];
    var o := (k: Key) => Visible(id, map[], disk, k);
    var w1 := Next(id, w, e[0]);
    var w2 := Next(id, w1, e[1]);
    var w3 := Next(id, w2, e[2]);
    var w4 := Next(id, w3, e[3]);
    assert e[1..] == [e[1], e[2], e[3]] && e[1..][1..] == [e[2], e[3]];
    assert e[1..][1..][1..] == [e[3]] && [e[3]][1..] == [];
    assert Run(id, w3, [e[3]]) == w4;
    assert Run(id, w2, [e[2], e[3]]) == w4;
    assert Run(id, w, e) == w4;
    var o3 := NextOwners(o, w2, e[2]);
    var o4 := NextOwners(o3, w3, e[3]);
    assert RunOwners(id, o3, w3, [e[3]]) == o4;
    assert RunOwners(id, o, w2, [e[2], e[3]]) == o4;
    assert RunOwners(id, o, w, e) == o4;
    assert Agrees(id, w, o);
    OneOwnerIff(id, w, o, e);
    if TruthfulRun(id, w, e) { EndsAgreeing(id, w, o, e); }
  }
}
