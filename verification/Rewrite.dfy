/** Entry of a path syscall: room below the guest's stack pointer, and path arguments repointed at
    their translations there. */
module Rewrite {
  import opened Words
  import opened GuestMemory

  const SCRATCH_MARGIN: nat := 512

  /** A translation: None where the path is left as it is. Host paths have no NUL in them. */
  type Translation = Text -> Option<Text>

  ghost predicate NulFree(t: Text) { forall i :: 0 <= i < |t| ==> t[i] != NUL }

  ghost predicate HoldsText(mem: Memory, addr: nat, t: Text) {
    NulFree(t) && (forall i :: 0 <= i < |t| ==> mem(addr + i) == t[i]) && mem(addr + |t|) == NUL
  }

  function Align16(a: nat): (r: nat)
    ensures r <= a < r + 16 && r % 16 == 0
  {
    a - a % 16
  }

  /** Unsigned subtraction, which wraps. */
  function Minus(a: U64, b: U64): (r: U64)
    ensures r == if b <= a then a - b else a - b + TWO_64
  {
    if b <= a then a - b else a - b + TWO_64
  }

  /** What a string argument reads as; None if not even its first byte can be read. */
  function ReadText(mem: Memory, readable: Access, ptr: nat): (r: Option<Text>)
    ensures r.Some? ==> NulFree(r.value) && |r.value| < PATH_LEN
  {
    var d := Reach(readable, ptr, PATH_LEN - 1);
    if d == 0 then None else Some(UpToNul(Bytes(mem, ptr, d)))
  }

  lemma HoldsTextFrame(mem: Memory, now: Memory, addr: nat, t: Text)
    requires HoldsText(mem, addr, t) && forall a: nat :: addr <= a ==> now(a) == mem(a)
    ensures HoldsText(now, addr, t)
  {
    assert now(addr + |t|) == mem(addr + |t|);
    forall i | 0 <= i < |t| ensures t[i] == now(addr + i) { assert now(addr + i) == mem(addr + i); }
  }

  // ----- what a rewrite leaves in memory -----

  /** Host paths have no NUL in them and fit their buffer. */
  ghost predicate GivesHostPaths(translate: Translation) {
    forall t :: translate(t).Some? ==> NulFree(translate(t).value) && |translate(t).value| < PATH_LEN
  }

  /** The host path copied into scratch for a string argument, if one is. */
  function Needed(mem: Memory, readable: Access, reg: U64, translate: Translation): (host: Option<Text>)
    requires GivesHostPaths(translate)
    ensures host.Some? ==> NulFree(host.value) && |host.value| < PATH_LEN
  {
    var given := ReadText(mem, readable, reg);
    if reg == 0 || given.None? || given.value == [] then None else translate(given.value)
  }

  /** Where it goes: right below `top`, aligned. */
  function Room(top: U64, host: Text): (base: U64)
    requires |host| < PATH_LEN
    ensures base % 16 == 0 && (base <= top ==> base + |host| + 1 <= top)
  {
    Align16(Minus(top, |host| + 1))
  }

  function TopAfter(top: U64, host: Option<Text>): U64
    requires host.Some? ==> |host.value| < PATH_LEN
  {
    if host.None? || Room(top, host.value) > top then top else Room(top, host.value)
  }

  /** The bytes of the copy that get written: none without room, fewer where memory is not writable. */
  function CopyOf(writable: Access, top: U64, host: Option<Text>): (data: seq<Byte>)
    requires host.Some? ==> |host.value| < PATH_LEN
  {
    if host.None? || Room(top, host.value) > top || Room(top, host.value) == 0 then []
    else (host.value + [NUL])[..Reach(writable, Room(top, host.value), |host.value| + 1)]
  }

  predicate Whole(writable: Access, top: U64, host: Option<Text>)
    requires host.Some? ==> |host.value| < PATH_LEN
  {
    host.Some? && |CopyOf(writable, top, host)| == |host.value| + 1
  }

  function Copied(mem: Memory, writable: Access, top: U64, host: Option<Text>): Memory
    requires host.Some? ==> |host.value| < PATH_LEN
  {
    Written(mem, TopAfter(top, host), CopyOf(writable, top, host))
  }

  lemma CopyHolds(mem: Memory, writable: Access, top: U64, host: Text)
    requires |host| < PATH_LEN && NulFree(host) && Whole(writable, top, Some(host))
    ensures HoldsText(Copied(mem, writable, top, Some(host)), TopAfter(top, Some(host)), host)
  {
    var data := CopyOf(writable, top, Some(host));
    assert data == host + [NUL];
  }

  lemma CopiedFrame(mem: Memory, writable: Access, top: U64, host: Option<Text>)
    requires host.Some? ==> |host.value| < PATH_LEN
    ensures TopAfter(top, host) <= top
    ensures forall a: nat :: a < TopAfter(top, host) || top <= a ==> Copied(mem, writable, top, host)(a) == mem(a)
  {
  }

  /** Writing `data` at `base` puts nothing else in the place of a character of the string at `ptr`, or
      of its NUL. */
  predicate Intact(mem: Memory, readable: Access, ptr: nat, base: nat, data: seq<Byte>) {
    var t := ReadText(mem, readable, ptr);
    t.Some? ==>
      var end := ptr + Reach(readable, ptr, PATH_LEN - 1);
      forall a: nat :: ptr <= a < end && a <= ptr + |t.value| && base <= a < base + |data| ==> data[a - base] == mem(a)
  }

  /** Texts in memory agree where the memory does. */
  lemma BytesAgreeIff(mem: Memory, now: Memory, ptr: nat, d: nat, n: nat)
    ensures (forall k :: 0 <= k <= n && k < d ==> Bytes(now, ptr, d)[k] == Bytes(mem, ptr, d)[k])
       <==> (forall a: nat :: ptr <= a < ptr + d && a <= ptr + n ==> now(a) == mem(a))
  {
    var was, after := Bytes(mem, ptr, d), Bytes(now, ptr, d);
    assert forall a: nat :: ptr <= a < ptr + d ==> now(a) == after[a - ptr] && mem(a) == was[a - ptr];
  }

  lemma IntactIff(mem: Memory, readable: Access, ptr: nat, base: nat, data: seq<Byte>, t: Text)
    requires ReadText(mem, readable, ptr) == Some(t)
    ensures Intact(mem, readable, ptr, base, data)
       <==> forall a: nat :: ptr <= a < ptr + Reach(readable, ptr, PATH_LEN - 1) && a <= ptr + |t| ==>
              Written(mem, base, data)(a) == mem(a)
  {
  }

  /** And exactly then the string still reads as it did. */
  lemma {:induction false} ReadsTheSameIff(mem: Memory, readable: Access, ptr: nat, base: nat, data: seq<Byte>)
    ensures ReadText(Written(mem, base, data), readable, ptr) == ReadText(mem, readable, ptr)
       <==> Intact(mem, readable, ptr, base, data)
  {
    var d := Reach(readable, ptr, PATH_LEN - 1);
    if d > 0 {
      var now := Written(mem, base, data);
      var t := UpToNul(Bytes(mem, ptr, d));
      SameTextIff(Bytes(mem, ptr, d), Bytes(now, ptr, d), d);
      BytesAgreeIff(mem, now, ptr, d, |t|);
      IntactIff(mem, readable, ptr, base, data, t);
    }
  }

  /** The copy of `host` just below `top` leaves the string at `ptr` as it is. */
  predicate Spared(mem: Memory, readable: Access, writable: Access, top: U64, host: Option<Text>, ptr: nat)
    requires host.Some? ==> |host.value| < PATH_LEN
  {
    Intact(mem, readable, ptr, TopAfter(top, host), CopyOf(writable, top, host))
  }

  /** The registers and memory of a process stopped at a syscall. */
  class Stop {
    var mem: Memory
    const args: array<U64>          // the six argument registers
    var scratchTop: U64
    const readable: Access
    const writable: Access

    ghost predicate Valid() reads this { args.Length == 6 && scratchTop % 16 == 0 }

    constructor (mem: Memory, args: array<U64>, sp: U64, readable: Access, writable: Access)
      requires args.Length == 6
      ensures Valid() && this.mem == mem && this.args == args
      ensures this.readable == readable && this.writable == writable
      ensures scratchTop == Align16(Minus(sp, SCRATCH_MARGIN))
      ensures sp >= 512 ==> scratchTop + 512 <= sp
    {
      this.mem, this.args, this.readable, this.writable := mem, args, readable, writable;
      scratchTop := Align16(Minus(sp, SCRATCH_MARGIN));
    }

    /** Room for `len` bytes, or 0. Blocks go down from the margin below the stack pointer. */
    method Scratch(len: U64) returns (addr: U64)
      requires Valid() && len <= TWO_64 - 16
      modifies this`scratchTop
      ensures Valid() && addr % 16 == 0
      ensures addr != 0 ==> addr + len <= old(scratchTop) && scratchTop == addr
      ensures len < old(scratchTop) - 15 ==> addr != 0
      ensures var at := Align16(Minus(old(scratchTop), len));
              if at <= old(scratchTop) then addr == scratchTop == at else addr == 0 && scratchTop == old(scratchTop)
    {
      addr := Align16(Minus(scratchTop, len));
      if addr > scratchTop { return 0; }
      scratchTop := addr;
    }

    /** A write by the tracer; on failure a first part may have been written. */
    method GuestWrite(addr: nat, data: seq<Byte>) returns (ok: bool)
      modifies this`mem
      ensures ok <==> Reach(writable, addr, |data|) == |data|
      ensures mem == Written(old(mem), addr, data[..Reach(writable, addr, |data|)])
      ensures ok ==> forall i :: 0 <= i < |data| ==> mem(addr + i) == data[i]
      ensures forall a: nat :: a < addr || addr + |data| <= a ==> mem(a) == old(mem)(a)
    {
      var d := Reach(writable, addr, |data|);
      mem := Written(mem, addr, data[..d]);
      ok := d == |data|;
      if ok { assert data[..d] == data; }
    }

    /** Copies a host path into fresh scratch and points the argument at it, or at nothing. */
    method Repoint(slot: nat, host: Text) returns (ok: bool)
      requires Valid() && 1 <= slot <= 6 && NulFree(host) && |host| < PATH_LEN
      modifies this`mem, this`scratchTop, args
      ensures Valid() && scratchTop == TopAfter(old(scratchTop), Some(host))
      ensures Same(mem, Copied(old(mem), writable, old(scratchTop), Some(host)))
      ensures ok == Whole(writable, old(scratchTop), Some(host))
      ensures forall i :: 0 <= i < 6 && i != slot - 1 ==> args[i] == old(args[i])
      ensures if !ok then args[slot - 1] == 0
              else args[slot - 1] == scratchTop != 0 && HoldsText(mem, scratchTop, host)
                   && scratchTop + |host| + 1 <= old(scratchTop)
    {
      var data := host + [NUL];
      var scratch := Scratch(|data|);
      ok := false;
      if scratch != 0 { ok := GuestWrite(scratch, data); }
      assert data[|host|] == NUL && forall i :: 0 <= i < |host| ==> data[i] == host[i];
      args[slot - 1] := if ok then scratch else 0;
    }

    /** Redirects the path in one argument; returns the host path it now names, if it was rewritten.
        A rewrite that is needed but cannot be done leaves a null pointer. */
    method RewritePathArg(slot: nat, translate: Translation, faults: bool) returns (host: Option<Text>)
      requires Valid() && 1 <= slot <= 6 && GivesHostPaths(translate)
      modifies this`mem, this`scratchTop, args
      ensures Valid()
      ensures var need := Needed(old(mem), readable, old(args[slot - 1]), translate);
              && scratchTop == TopAfter(old(scratchTop), need)
              && host.Some? == Whole(writable, old(scratchTop), need)
              && Same(mem, Copied(old(mem), writable, old(scratchTop), need))
      ensures forall i :: 0 <= i < 6 && i != slot - 1 ==> args[i] == old(args[i])
      ensures Redirected(old(mem), readable, old(args[slot - 1]), translate, faults, mem, args[slot - 1], host)
      ensures host.Some? ==> Placed(args[slot - 1], host.value, old(scratchTop)) && args[slot - 1] == scratchTop
    {
      var reg := args[slot - 1];
      if reg == 0 { return None; }
      var given := ReadText(mem, readable, reg);
      if given.None? {
        if !faults { args[slot - 1] := 0; }
        return None;
      }
      if given.value == [] { return None; }
      host := translate(given.value);
      if host.None? { return; }
      var ok := Repoint(slot, host.value);
      if !ok { host := None; }
    }

    /** A syscall with two paths: neither rewrite clobbers the other. What the guest itself wrote is
        still read, for the second path, exactly if the first copy spared it, and left to the kernel,
        for a first path that needed no rewrite, exactly if the second copy did. */
    method RewriteTwoPaths(slot1: nat, slot2: nat, translate1: Translation, translate2: Translation, faults: bool)
      returns (host1: Option<Text>, host2: Option<Text>, ghost seen: Memory)
      requires Valid() && 1 <= slot1 <= 6 && 1 <= slot2 <= 6 && slot1 != slot2
      requires GivesHostPaths(translate1) && GivesHostPaths(translate2)
      modifies this`mem, this`scratchTop, args
      ensures Valid()
      ensures forall i :: 0 <= i < 6 && i != slot1 - 1 && i != slot2 - 1 ==> args[i] == old(args[i])
      ensures forall a: nat :: old(scratchTop) <= a ==> mem(a) == old(mem)(a)
      ensures var reg1, reg2, top := old(args[slot1 - 1]), old(args[slot2 - 1]), old(scratchTop);
              var need1 := Needed(old(mem), readable, reg1, translate1);
              var need2 := Needed(seen, readable, reg2, translate2);
              && host1.Some? == Whole(writable, top, need1)
              && host2.Some? == Whole(writable, TopAfter(top, need1), need2)
              && Same(seen, Copied(old(mem), writable, top, need1))
              && Same(mem, Copied(seen, writable, TopAfter(top, need1), need2))
              && Redirected(old(mem), readable, reg1, translate1, faults, mem, args[slot1 - 1], host1)
              && Redirected(seen, readable, reg2, translate2, faults, mem, args[slot2 - 1], host2)
              && (ReadText(seen, readable, reg2) == ReadText(old(mem), readable, reg2)
                  <==> Spared(old(mem), readable, writable, top, need1, reg2))
              && (need1.None? ==>
                    (ReadText(mem, readable, reg1) == ReadText(old(mem), readable, reg1)
                     <==> Spared(old(mem), readable, writable, top, need2, reg1)))
      ensures host1.Some? ==> Placed(args[slot1 - 1], host1.value, old(scratchTop))
      ensures host2.Some? ==>
                Placed(args[slot2 - 1], host2.value, if host1.Some? then args[slot1 - 1] else old(scratchTop))
    {
      ghost var mem0, top0, reg1, reg2 := mem, scratchTop, args[slot1 - 1], args[slot2 - 1];
      host1 := RewritePathArg(slot1, translate1, faults);
      seen := mem;
      ghost var need1, top1 := Needed(mem0, readable, reg1, translate1), scratchTop;
      host2 := RewritePathArg(slot2, translate2, faults);
      ghost var need2 := Needed(seen, readable, reg2, translate2);
      CopiedFrame(mem0, writable, top0, need1);
      CopiedFrame(seen, writable, top1, need2);
      if host1.Some? { HoldsTextFrame(seen, mem, top1, host1.value); }
      CopyReads(mem0, seen, readable, writable, top0, need1, reg2);
      if need1.None? {
        SameReads(mem0, seen, readable, reg1);
        CopyReads(seen, mem, readable, writable, top1, need2, reg1);
        SameSpared(mem0, seen, readable, writable, top1, need2, reg1);
      }
    }
  }

  /** A copy is aligned, ends at or below `top`, and has an address. */
  predicate Placed(addr: nat, host: Text, top: nat) { addr % 16 == 0 && addr != 0 && addr + |host| + 1 <= top }

  lemma SameReads(m: Memory, n: Memory, readable: Access, ptr: nat)
    requires Same(m, n)
    ensures ReadText(m, readable, ptr) == ReadText(n, readable, ptr)
  {
    var d := Reach(readable, ptr, PATH_LEN - 1);
    assert Bytes(m, ptr, d) == Bytes(n, ptr, d);
  }

  lemma SameSpared(m: Memory, n: Memory, readable: Access, writable: Access, top: U64, host: Option<Text>, ptr: nat)
    requires Same(m, n) && (host.Some? ==> |host.value| < PATH_LEN)
    ensures Spared(m, readable, writable, top, host, ptr) == Spared(n, readable, writable, top, host, ptr)
  {
    SameReads(m, n, readable, ptr);
  }

  lemma CopyReads(was: Memory, now: Memory, readable: Access, writable: Access, top: U64, host: Option<Text>, ptr: nat)
    requires (host.Some? ==> |host.value| < PATH_LEN) && Same(now, Copied(was, writable, top, host))
    ensures ReadText(now, readable, ptr) == ReadText(was, readable, ptr)
       <==> Spared(was, readable, writable, top, host, ptr)
  {
    ReadsTheSameIff(was, readable, ptr, TopAfter(top, host), CopyOf(writable, top, host));
    SameReads(now, Copied(was, writable, top, host), readable, ptr);
  }

  /** A second string that starts where the first path was copied to reads as the end of that path. */
  lemma {:induction false} OverlapReadsTheFirst(seen: Memory, readable: Access, base: nat, host: Text, k: nat)
    requires k <= |host| < PATH_LEN - 1 && NulFree(host) && HoldsText(seen, base, host)
    requires Reach(readable, base + k, PATH_LEN - 1) > |host| - k
    ensures ReadText(seen, readable, base + k) == Some(host[k..])
  {
    var d := Reach(readable, base + k, PATH_LEN - 1);
    var s, n := Bytes(seen, base + k, d), |host| - k;
    forall i | 0 <= i < n ensures s[i] == host[k + i] { assert seen(base + (k + i)) == host[k + i]; }
    assert s[n] == seen(base + |host|);
    UpToNulIs(s, n);
    assert s[..n] == host[k..];
  }

  // ----- a call that reads the wrong path -----

  /** "/b" right below the scratch area's `top`, "/a" at it. */
  function Colliding(top: nat): Memory
    requires top >= 16
  {
    (a: nat) =>
      if a == top - 16 || a == top then '/' else if a == top - 15 then 'b' else if a == top + 1 then 'a' else NUL
  }

  /** The translation of a process whose root is /r. */
  function InRoot(t: Text): Option<Text> {
    if t == "/a" then Some("/r/a") else if t == "/b" then Some("/r/b") else if t == "/r/a" then Some("/r/r/a") else None
  }

  /** Any memory may be read and written. */
  ghost predicate Everywhere(access: Access) { forall addr, n :: Reach(access, addr, n) == n }

  lemma HeldTextReads(mem: Memory, access: Access, addr: nat, t: Text)
    requires Everywhere(access) && HoldsText(mem, addr, t) && |t| < PATH_LEN - 1
    ensures ReadText(mem, access, addr) == Some(t)
  {
    OverlapReadsTheFirst(mem, access, addr, t, 0);
    assert t[0..] == t;
  }

  lemma CollidingReads(access: Access, top: nat)
    requires Everywhere(access) && top >= 16
    ensures ReadText(Colliding(top), access, top) == Some("/a")
    ensures ReadText(Colliding(top), access, top - 16) == Some("/b")
  {
    HeldTextReads(Colliding(top), access, top, "/a");
    HeldTextReads(Colliding(top), access, top - 16, "/b");
  }

  lemma RoomBelow(top: U64, host: Text)
    requires top % 16 == 0 && top > 16 && 0 < |host| < 16
    ensures Room(top, host) == top - 16
  {
  }

  lemma CopyCollides(mem: Memory, seen: Memory, access: Access, top: U64, host: Text)
    requires Everywhere(access) && top % 16 == 0 && top > 16 && 0 < |host| < 16 && NulFree(host)
    requires Same(seen, Copied(mem, access, top, Some(host)))
    ensures TopAfter(top, Some(host)) == top - 16 && Whole(access, top, Some(host))
    ensures ReadText(seen, access, top - 16) == Some(host)
  {
    RoomBelow(top, host);
    CopyHolds(mem, access, top, host);
    HoldsTextFrame(Copied(mem, access, top, Some(host)), seen, top - 16, host);
    HeldTextReads(seen, access, top - 16, host);
  }

  /** rename("/a", "/b"), called with "/b" where the copy of "/r/a" goes, becomes
      rename("/r/a", "/r/r/a"). */
  method SecondPathOverwritten(top: U64, access: Access) returns (stop: Stop)
    requires Everywhere(access) && top % 16 == 0 && top >= 48 && top + SCRATCH_MARGIN < TWO_64
    ensures ReadText(Colliding(top), access, top) == Some("/a")
    ensures ReadText(Colliding(top), access, top - 16) == Some("/b")
    ensures stop.Valid()
    ensures HoldsText(stop.mem, stop.args[0], "/r/a") && HoldsText(stop.mem, stop.args[1], "/r/r/a")
  {
    var args := new U64[6](_ => 0);
    args[0], args[1] := top, top - 16;
    stop := new Stop(Colliding(top), args, top + SCRATCH_MARGIN, access, access);
    CollidingReads(access, top);
    var host1, host2;
    ghost var seen;
    host1, host2, seen := stop.RewriteTwoPaths(1, 2, InRoot, InRoot, false);
    CopyCollides(Colliding(top), seen, access, top, "/r/a");
    CopyCollides(seen, stop.mem, access, top - 16, "/r/r/a");
  }

  /** What became of a path argument: untouched, nulled, or pointing at its own translation. */
  ghost predicate Redirected(was: Memory, readable: Access, reg: U64, translate: Translation, faults: bool,
                             mem: Memory, now: U64, host: Option<Text>)
  {
    var given := ReadText(was, readable, reg);
    if reg == 0 || (given.None? && faults) || (given.Some? && (given.value == [] || translate(given.value).None?))
    then host == None && now == reg
    else if now == 0 then host == None
    else given.Some? && host.Some? && host == translate(given.value) && HoldsText(mem, now, host.value)
  }
}
