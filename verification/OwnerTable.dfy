/** The fake ownership table: open addressing with linear probing and doubling, shown to be a
    finite map from (device, inode) to owner whatever the hash function is. */
module OwnerTable {
  import opened Words

  datatype Key = Key(dev: U64, ino: U64)
  datatype Owner = Owner(uid: U32, gid: U32)
  datatype Slot = Slot(key: Key, owner: Owner, used: bool)
  datatype Row = Row(key: Key, owner: Owner)

  const EMPTY := Slot(Key(0, 0), Owner(0, 0), false)
  const FIRST_CAPACITY: nat := 1024

  type Hash = Key -> nat

  /** The capacities the table can have. */
  predicate PowerOfTwo(cap: nat) { cap == 1 || (cap > 1 && cap % 2 == 0 && PowerOfTwo(cap / 2)) }

  /** Bitwise and. */
  function And(a: nat, b: nat): nat
    decreases a
  {
    if a == 0 || b == 0 then 0 else (if a % 2 == 1 && b % 2 == 1 then 1 else 0) + 2 * And(a / 2, b / 2)
  }

  lemma MultipleIsFar(x: int, m: int)
    requires x != 0 && m > 0
    ensures x * m >= m || x * m <= -m
  {
    if x > 0 { assert (x - 1) * m >= 0; } else { assert (-x - 1) * m >= 0; }
  }

  lemma ModIs(n: nat, m: nat, q: nat, r: nat)
    requires r < m && n == q * m + r
    ensures n % m == r
  {
    var d := n / m;
    assert (d - q) * m == r - n % m;
    if d != q { MultipleIsFar(d - q, m); }
  }

  lemma LowBitAndRest(h: nat, half: nat)
    requires half > 0
    ensures h % (2 * half) == h % 2 + 2 * (h / 2 % half)
  {
    var q, r := h / 2 / half, h / 2 % half;
    assert h / 2 == q * half + r;
    assert q * (2 * half) == 2 * (q * half);
    ModIs(h, 2 * half, q, h % 2 + 2 * r);
  }

  /** So masking is taking the remainder. */
  lemma {:induction false} MaskIsMod(h: nat, cap: nat)
    requires PowerOfTwo(cap)
    ensures And(h, cap - 1) == h % cap
    decreases cap
  {
    if cap > 1 {
      MaskIsMod(h / 2, cap / 2);
      assert (cap - 1) / 2 == cap / 2 - 1 && (cap - 1) % 2 == 1;
      LowBitAndRest(h, cap / 2);
    }
  }

  // ----- probing, on the slots as a sequence -----

  function Home(hash: Hash, key: Key, cap: nat): (i: nat)
    requires cap > 0
    ensures i < cap
  {
    hash(key) % cap
  }

  /** The cell `steps` probes after `home`, and how many probes lead from `home` to cell `i`. */
  function Cell(home: nat, steps: nat, cap: nat): (i: nat)
    requires home < cap && steps < cap
    ensures i < cap
  {
    if home + steps < cap then home + steps else home + steps - cap
  }

  function Steps(home: nat, i: nat, cap: nat): (d: nat)
    requires home < cap && i < cap
    ensures d < cap && Cell(home, d, cap) == i
  {
    if i >= home then i - home else i + cap - home
  }

  /** Every cell probed for `key` before cell `i` is taken. */
  ghost predicate ChainTo(slots: seq<Slot>, hash: Hash, key: Key, i: nat)
    requires i < |slots|
  {
    var home := Home(hash, key, |slots|);
    forall d: nat :: d < Steps(home, i, |slots|) ==> slots[Cell(home, d, |slots|)].used
  }

  ghost predicate Unique(slots: seq<Slot>) {
    forall i, j :: 0 <= i < j < |slots| && slots[i].used && slots[j].used ==> slots[i].key != slots[j].key
  }

  ghost predicate Unbroken(slots: seq<Slot>, hash: Hash) {
    forall i :: 0 <= i < |slots| && slots[i].used ==> ChainTo(slots, hash, slots[i].key, i)
  }

  /** The used slots are exactly the entries of `m`. */
  ghost predicate Holds(slots: seq<Slot>, m: map<Key, Owner>) {
    && (forall i :: 0 <= i < |slots| && slots[i].used ==> slots[i].key in m && m[slots[i].key] == slots[i].owner)
    && (forall k :: k in m ==> exists i :: 0 <= i < |slots| && slots[i].used && slots[i].key == k)
  }

  ghost predicate Table(slots: seq<Slot>, hash: Hash, m: map<Key, Owner>) {
    Unique(slots) && Unbroken(slots, hash) && Holds(slots, m)
  }

  /** Where the probe for `key` stops: at its own slot, or at a free one with no stop before. */
  ghost predicate Stops(slots: seq<Slot>, hash: Hash, key: Key, i: nat)
    requires i < |slots|
  {
    var home := Home(hash, key, |slots|);
    && (slots[i].used ==> slots[i].key == key)
    && forall d: nat :: d < Steps(home, i, |slots|) ==>
         var s := slots[Cell(home, d, |slots|)]; s.used && s.key != key
  }

  /** The probe tells presence: it stops at a used slot exactly for the keys of the map. */
  lemma {:induction false} StopDecides(slots: seq<Slot>, hash: Hash, m: map<Key, Owner>, key: Key, i: nat)
    requires i < |slots| && Table(slots, hash, m) && Stops(slots, hash, key, i)
    ensures slots[i].used <==> key in m
    ensures slots[i].used ==> m[key] == slots[i].owner
  {
    if key in m {
      var j :| 0 <= j < |slots| && slots[j].used && slots[j].key == key;
      var home := Home(hash, key, |slots|);
      var toJ, toI := Steps(home, j, |slots|), Steps(home, i, |slots|);
      assert ChainTo(slots, hash, key, j);
      if toJ < toI { assert false; }
      if toI < toJ { assert slots[Cell(home, toI, |slots|)].used; }
    }
  }

  /** Storing at the stop keeps the table and updates the map. */
  lemma {:induction false} StoreAtStop(slots: seq<Slot>, hash: Hash, m: map<Key, Owner>, key: Key, owner: Owner, i: nat)
    requires i < |slots| && Table(slots, hash, m) && Stops(slots, hash, key, i)
    ensures Table(slots[i := Slot(key, owner, true)], hash, m[key := owner])
  {
    var after := slots[i := Slot(key, owner, true)];
    StopDecides(slots, hash, m, key, i);
    forall j | 0 <= j < |after| && after[j].used ensures ChainTo(after, hash, after[j].key, j) {
      if j != i { assert ChainTo(slots, hash, slots[j].key, j); }
    }
    assert after[i].key == key;
    forall k | k in m && k != key ensures exists j :: 0 <= j < |after| && after[j].used && after[j].key == k {
      var j :| 0 <= j < |slots| && slots[j].used && slots[j].key == k;
      assert after[j].key == k;
    }
  }

  /** The map the used slots list, and the rows they are saved as. */
  ghost function Entries(slots: seq<Slot>): map<Key, Owner> {
    if slots == [] then map[]
    else
      var n := |slots| - 1;
      if slots[n].used then Entries(slots[..n])[slots[n].key := slots[n].owner] else Entries(slots[..n])
  }

  function Rows(slots: seq<Slot>): seq<Row> {
    if slots == [] then []
    else
      var n := |slots| - 1;
      if slots[n].used then Rows(slots[..n]) + [Row(slots[n].key, slots[n].owner)] else Rows(slots[..n])
  }

  lemma {:induction false} EntriesListed(slots: seq<Slot>)
    requires Unique(slots)
    ensures Holds(slots, Entries(slots))
    decreases |slots|
  {
    if slots != [] {
      var n := |slots| - 1;
      EntriesListed(slots[..n]);
      forall k | k in Entries(slots) ensures exists i :: 0 <= i < |slots| && slots[i].used && slots[i].key == k {
        if k in Entries(slots[..n]) {
          var i :| 0 <= i < n && slots[..n][i].used && slots[..n][i].key == k;
          assert slots[i].key == k;
        } else {
          assert slots[n].key == k;
        }
      }
    }
  }

  lemma {:induction false} EntriesAreContents(slots: seq<Slot>, hash: Hash, m: map<Key, Owner>)
    requires Table(slots, hash, m)
    ensures Entries(slots) == m
  {
    EntriesListed(slots);
    assert forall k :: k in Entries(slots) <==> k in m;
    assert forall k :: k in m ==> Entries(slots)[k] == m[k];
  }

  lemma {:induction false} RowsStoreEntries(slots: seq<Slot>)
    ensures StoreAll(map[], Rows(slots)) == Entries(slots)
    decreases |slots|
  {
    if slots != [] {
      var n := |slots| - 1;
      RowsStoreEntries(slots[..n]);
      if slots[n].used { assert Rows(slots)[..|Rows(slots)| - 1] == Rows(slots[..n]); }
    }
  }

  /** Distinct keys of a map cannot fill more slots than the map has entries. */
  lemma {:induction false} FullTableSize(slots: seq<Slot>, m: map<Key, Owner>)
    requires Unique(slots) && forall i :: 0 <= i < |slots| ==> slots[i].used && slots[i].key in m
    ensures |slots| <= |m|
    decreases |slots|
  {
    if slots != [] {
      var n := |slots| - 1;
      var rest := m - {slots[n].key};
      assert m.Keys == rest.Keys + {slots[n].key};
      FullTableSize(slots[..n], rest);
    }
  }

  lemma {:induction false} FreeSlotExists(slots: seq<Slot>, hash: Hash, m: map<Key, Owner>)
    requires Table(slots, hash, m) && |m| < |slots|
    ensures exists i :: 0 <= i < |slots| && !slots[i].used
  {
    if forall i :: 0 <= i < |slots| ==> slots[i].used { FullTableSize(slots, m); }
  }

  // ----- the table -----

  lemma NextCell(home: nat, d: nat, cap: nat)
    requires home < cap && d + 1 < cap
    ensures (Cell(home, d, cap) + 1) % cap == Cell(home, d + 1, cap)
  {
  }

  /** The probe loop. It ends because a free slot is left. */
  method FindSlot(slots: array<Slot>, hash: Hash, key: Key, ghost free: nat) returns (i: nat)
    requires PowerOfTwo(slots.Length) && free < slots.Length && !slots[free].used
    ensures i < slots.Length && Stops(slots[..], hash, key, i)
  {
    var mask := slots.Length - 1;
    ghost var cap := slots.Length;
    ghost var home := Home(hash, key, cap);
    ghost var d := 0;
    MaskIsMod(hash(key), cap);
    i := And(hash(key), mask);
    while slots[i].used && slots[i].key != key
      invariant d <= Steps(home, free, cap) && i == Cell(home, d, cap)
      invariant forall c: nat :: c < d ==> var s := slots[Cell(home, c, cap)]; s.used && s.key != key
      decreases cap - d
    {
      NextCell(home, d, cap);
      MaskIsMod(i + 1, cap);
      i := And(i + 1, mask);
      d := d + 1;
    }
    assert Steps(home, i, cap) == d;
  }

  /** Stores an entry in the slot the probe finds; tells whether the key had one. */
  method Store(slots: array<Slot>, hash: Hash, key: Key, owner: Owner, ghost m: map<Key, Owner>) returns (had: bool)
    requires PowerOfTwo(slots.Length) && Table(slots[..], hash, m) && |m| < slots.Length
    modifies slots
    ensures Table(slots[..], hash, m[key := owner])
    ensures had <==> key in m
  {
    FreeSlotExists(slots[..], hash, m);
    ghost var free :| 0 <= free < slots.Length && !slots[free].used;
    var i := FindSlot(slots, hash, key, free);
    StopDecides(slots[..], hash, m, key, i);
    StoreAtStop(slots[..], hash, m, key, owner, i);
    ghost var before := slots[..];
    had := slots[i].used;
    slots[i] := Slot(key, owner, true);
    assert slots[..] == before[i := Slot(key, owner, true)];
  }

  lemma {:induction false} EntriesSize(slots: seq<Slot>)
    ensures |Entries(slots)| <= |slots|
    decreases |slots|
  {
    if slots != [] { EntriesSize(slots[..|slots| - 1]); }
  }

  /** Stores every used slot of one array in another, empty and larger one. */
  method Rehash(was: array<Slot>, bigger: array<Slot>, hash: Hash)
    requires PowerOfTwo(bigger.Length) && was != bigger && was.Length < bigger.Length
    requires forall i :: 0 <= i < bigger.Length ==> !bigger[i].used
    modifies bigger
    ensures Table(bigger[..], hash, Entries(was[..]))
  {
    ghost var before := was[..];
    for i := 0 to was.Length
      invariant was[..] == before
      invariant Table(bigger[..], hash, Entries(before[..i]))
    {
      assert before[..i + 1][..i] == before[..i];
      EntriesSize(before[..i]);
      var slot := was[i];
      if slot.used {
        var _ := Store(bigger, hash, slot.key, slot.owner, Entries(before[..i]));
      }
    }
    assert before[..was.Length] == before;
  }

  function Larger(cap: nat): nat { if cap > 0 then cap * 2 else FIRST_CAPACITY }

  /** A table of this many entries and slots has to grow before one more is stored. */
  predicate Full(size: nat, cap: nat) { (size + 1) * 2 > cap }

  class OwnerDb {
    const hash: Hash
    var slots: array<Slot>
    var count: nat
    ghost var contents: map<Key, Owner>

    ghost predicate Valid() reads this, slots {
      && Table(slots[..], hash, contents)
      && count == |contents|
      && count * 2 <= slots.Length
      && (slots.Length == 0 || PowerOfTwo(slots.Length))
    }

    constructor (hash: Hash)
      ensures Valid() && fresh(slots)
      ensures contents == map[] && this.hash == hash
    {
      this.hash, slots, count, contents := hash, new Slot[0], 0, map[];
    }

    method Lookup(dev: U64, ino: U64) returns (r: Option<Owner>)
      requires Valid()
      ensures r == if Key(dev, ino) in contents then Some(contents[Key(dev, ino)]) else None
    {
      if count == 0 { return None; }
      FreeSlotExists(slots[..], hash, contents);
      ghost var free :| 0 <= free < slots.Length && !slots[free].used;
      var i := FindSlot(slots, hash, Key(dev, ino), free);
      StopDecides(slots[..], hash, contents, Key(dev, ino), i);
      return if slots[i].used then Some(slots[i].owner) else None;
    }

    /** Twice the slots, every entry stored again. Fails, changing nothing, without memory. */
    method Grow(memory: bool) returns (ok: bool)
      requires Valid()
      modifies this`slots
      ensures ok == memory
      ensures Valid()
      ensures ok ==> fresh(slots)
      ensures ok ==> slots.Length == if old(slots.Length) > 0 then old(slots.Length) * 2 else FIRST_CAPACITY
      ensures !ok ==> slots == old(slots)
    {
      var was := slots;
      var cap := if was.Length > 0 then was.Length * 2 else FIRST_CAPACITY;
      if !memory { return false; }
      assert PowerOfTwo(cap);
      var bigger := new Slot[cap](_ => EMPTY);
      Rehash(was, bigger, hash);
      EntriesAreContents(was[..], hash, contents);
      slots := bigger;
      return true;
    }

    /** Stores an owner. The only entry ever lost is this one, when it needed room and there was
        no memory for it. */
    method Set(dev: U64, ino: U64, uid: U32, gid: U32, memory: bool)
      requires Valid()
      modifies this, slots
      ensures Valid() && (slots == old(slots) || fresh(slots))
      ensures contents == if !memory && (old(count) + 1) * 2 > old(slots.Length) then old(contents)
                          else old(contents)[Key(dev, ino) := Owner(uid, gid)]
      ensures slots.Length == if memory && Full(old(count), old(slots.Length)) then Larger(old(slots.Length))
                              else old(slots.Length)
    {
      if (count + 1) * 2 > slots.Length {
        var ok := Grow(memory);
        if !ok { return; }
      }
      var had := Store(slots, hash, Key(dev, ino), Owner(uid, gid), contents);
      if !had { count := count + 1; }
      contents := contents[Key(dev, ino) := Owner(uid, gid)];
    }

    /** The rows written to the ownership file, in slot order. */
    method Save() returns (rows: seq<Row>)
      requires Valid()
      ensures rows == Rows(slots[..])
      ensures StoreAll(map[], rows) == contents
    {
      rows := [];
      for i := 0 to slots.Length
        invariant rows == Rows(slots[..i])
      {
        assert slots[..i + 1][..i] == slots[..i];
        if slots[i].used {
          rows := rows + [Row(slots[i].key, slots[i].owner)];
        }
      }
      assert slots[..slots.Length] == slots[..];
      RowsStoreEntries(slots[..]);
      EntriesAreContents(slots[..], hash, contents);
    }

    /** Reads rows back, one Set each; `memory(i)` says whether row i would get memory to grow. The rows
        dropped are those that need it and do not get it, and no others. */
    method Load(rows: seq<Row>, memory: nat -> bool)
      requires Valid()
      modifies this, slots
      ensures Valid() && (slots == old(slots) || fresh(slots))
      ensures contents == AfterSets(old(contents), old(slots.Length), rows, memory)
      ensures slots.Length == Keep(old(contents), old(slots.Length), rows, memory).cap
      ensures (forall i: nat :: memory(i)) ==> contents == StoreAll(old(contents), rows)
    {
      ghost var m, cap := contents, slots.Length;
      for i := 0 to |rows|
        invariant Valid() && (slots == old(slots) || fresh(slots))
        invariant contents == AfterSets(m, cap, rows[..i], memory)
        invariant slots.Length == Keep(m, cap, rows[..i], memory).cap
      {
        assert rows[..i + 1][..i] == rows[..i];
        NextSet(m, cap, rows[..i + 1], memory);
        Set(rows[i].key.dev, rows[i].key.ino, rows[i].owner.uid, rows[i].owner.gid, memory(i));
      }
      assert rows[..|rows|] == rows;
      if forall i: nat :: memory(i) { KeepsAll(m, cap, rows, memory); }
    }
  }

  // ----- sequences of sets, as a map -----

  ghost function StoreAll(m: map<Key, Owner>, rows: seq<Row>): map<Key, Owner> {
    if rows == [] then m
    else
      var n := |rows| - 1;
      StoreAll(m, rows[..n])[rows[n].key := rows[n].owner]
  }

  /** Of a sequence of sets, those that are not dropped, and the slots there are afterwards. */
  datatype Kept = Kept(rows: seq<Row>, cap: nat)

  ghost function Keep(m: map<Key, Owner>, cap: nat, rows: seq<Row>, memory: nat -> bool): Kept {
    if rows == [] then Kept([], cap)
    else
      var n := |rows| - 1;
      var k := Keep(m, cap, rows[..n], memory);
      if !Full(|StoreAll(m, k.rows)|, k.cap) then Kept(k.rows + [rows[n]], k.cap)
      else if memory(n) then Kept(k.rows + [rows[n]], Larger(k.cap))
      else k
  }

  lemma {:induction false} KeepsAll(m: map<Key, Owner>, cap: nat, rows: seq<Row>, memory: nat -> bool)
    requires forall i: nat :: memory(i)
    ensures Keep(m, cap, rows, memory).rows == rows
    decreases |rows|
  {
    if rows != [] {
      var n := |rows| - 1;
      KeepsAll(m, cap, rows[..n], memory);
      assert rows[..n] + [rows[n]] == rows;
    }
  }

  /** The i-th set needs to grow the table, and cannot. */
  ghost predicate Dropped(m: map<Key, Owner>, cap: nat, rows: seq<Row>, memory: nat -> bool, i: nat)
    requires i < |rows|
  {
    var before := Keep(m, cap, rows[..i], memory);
    Full(|StoreAll(m, before.rows)|, before.cap) && !memory(i)
  }

  ghost function AfterSets(m: map<Key, Owner>, cap: nat, rows: seq<Row>, memory: nat -> bool): map<Key, Owner> {
    StoreAll(m, Keep(m, cap, rows, memory).rows)
  }

  lemma NextSet(m: map<Key, Owner>, cap: nat, rows: seq<Row>, memory: nat -> bool)
    requires rows != []
    ensures var n := |rows| - 1;
            var before := AfterSets(m, cap, rows[..n], memory);
            AfterSets(m, cap, rows, memory)
            == if Dropped(m, cap, rows, memory, n) then before else before[rows[n].key := rows[n].owner]
  {
    var n := |rows| - 1;
    var k := Keep(m, cap, rows[..n], memory);
    assert (k.rows + [rows[n]])[..|k.rows|] == k.rows;
  }

  lemma DroppedIn(m: map<Key, Owner>, cap: nat, rows: seq<Row>, memory: nat -> bool, n: nat, j: nat)
    requires j < n <= |rows|
    ensures Dropped(m, cap, rows[..n], memory, j) == Dropped(m, cap, rows, memory, j)
  {
    assert rows[..n][..j] == rows[..j];
  }

  /** A failed set loses itself only: a key has the owner of its last set that was not dropped. */
  lemma {:induction false} LastKeptSetWins(m: map<Key, Owner>, cap: nat, rows: seq<Row>, memory: nat -> bool, i: nat)
    requires i < |rows| && !Dropped(m, cap, rows, memory, i)
    requires forall j :: i < j < |rows| && rows[j].key == rows[i].key ==> Dropped(m, cap, rows, memory, j)
    ensures var after := AfterSets(m, cap, rows, memory);
            rows[i].key in after && after[rows[i].key] == rows[i].owner
    decreases |rows|
  {
    NextSet(m, cap, rows, memory);
    var n := |rows| - 1;
    if i < n {
      var front := rows[..n];
      DroppedIn(m, cap, rows, memory, n, i);
      forall j | i < j < n && front[j].key == front[i].key ensures Dropped(m, cap, front, memory, j) {
        DroppedIn(m, cap, rows, memory, n, j);
      }
      LastKeptSetWins(m, cap, front, memory, i);
      assert rows[n].key == rows[i].key ==> Dropped(m, cap, rows, memory, n);
    }
  }

  lemma {:induction false} DroppedSetsChangeNothing(m: map<Key, Owner>, cap: nat, rows: seq<Row>, memory: nat -> bool,
                                                    key: Key)
    requires forall j :: 0 <= j < |rows| && rows[j].key == key ==> Dropped(m, cap, rows, memory, j)
    ensures var after := AfterSets(m, cap, rows, memory);
            (key in after <==> key in m) && (key in m ==> after[key] == m[key])
    decreases |rows|
  {
    if rows != [] {
      NextSet(m, cap, rows, memory);
      var n := |rows| - 1;
      var front := rows[..n];
      forall j | 0 <= j < n && front[j].key == key ensures Dropped(m, cap, front, memory, j) {
        DroppedIn(m, cap, rows, memory, n, j);
      }
      DroppedSetsChangeNothing(m, cap, front, memory, key);
    }
  }

  /** After any sequence of sets, a key has the owner of its last set. */
  lemma {:induction false} LastStoreWins(m: map<Key, Owner>, rows: seq<Row>, i: nat)
    requires i < |rows| && forall j :: i < j < |rows| ==> rows[j].key != rows[i].key
    ensures rows[i].key in StoreAll(m, rows) && StoreAll(m, rows)[rows[i].key] == rows[i].owner
    decreases |rows|
  {
    if i < |rows| - 1 { LastStoreWins(m, rows[..|rows| - 1], i); }
  }

  lemma {:induction false} OnlyStoredKeys(m: map<Key, Owner>, rows: seq<Row>, k: Key)
    requires forall i :: 0 <= i < |rows| ==> rows[i].key != k
    ensures k in StoreAll(m, rows) <==> k in m
    ensures k in m ==> StoreAll(m, rows)[k] == m[k]
    decreases |rows|
  {
    if rows != [] { OnlyStoredKeys(m, rows[..|rows| - 1], k); }
  }
}
