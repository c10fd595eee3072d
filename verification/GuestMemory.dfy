/** Reading and writing the traced process's memory: a word at a time is the same as a byte at a
    time, strings come in chunks, and the access method in use only ever moves forward. */
module GuestMemory {
  import opened Words

  /** A byte, as the character of that code. */
  type Byte = c: char | c < '\U{0100}'

  type Text = seq<Byte>

  const NUL: Byte := '\0'

  type Memory = nat -> Byte
  type Access = nat -> bool      // which words (by address) may be accessed

  const WORD: nat := 8           // sizeof(long) on the 64-bit ABIs

  function WordOf(addr: nat): nat { addr - addr % WORD }

  function Bytes(mem: Memory, addr: nat, n: nat): (s: seq<Byte>)
    ensures |s| == n && forall i :: 0 <= i < n ==> s[i] == mem(addr + i)
  {
    seq(n, i requires 0 <= i < n => mem(addr + i))
  }

  function Written(mem: Memory, addr: nat, data: seq<Byte>): Memory {
    (a: nat) => if addr <= a < addr + |data| then data[a - addr] else mem(a)
  }

  ghost predicate Same(m: Memory, n: Memory) { forall a: nat :: m(a) == n(a) }

  predicate Accessible(access: Access, addr: nat) { access(WordOf(addr)) }

  /** How many of `len` bytes from `addr` can be accessed before the first one that cannot. */
  function Reach(access: Access, addr: nat, len: nat): (d: nat)
    ensures d <= len
    ensures forall a :: addr <= a < addr + d ==> Accessible(access, a)
    ensures d < len ==> !Accessible(access, addr + d)
    decreases len
  {
    if len == 0 || !Accessible(access, addr) then 0 else 1 + Reach(access, addr + 1, len - 1)
  }

  lemma ReachIs(access: Access, addr: nat, len: nat, d: nat)
    requires d <= len && forall a :: addr <= a < addr + d ==> Accessible(access, a)
    requires d < len ==> !Accessible(access, addr + d)
    ensures Reach(access, addr, len) == d
  {
    var r := Reach(access, addr, len);
    var next := addr + r;
    assert r < len ==> !Accessible(access, next);
  }

  /** Reading on from `have` bytes gets as far as reading all at once, or as far as it was asked to. */
  lemma ReachOn(access: Access, addr: nat, len: nat, have: nat, want: nat)
    requires have <= Reach(access, addr, len) && have + want <= len
    ensures var d := Reach(access, addr, len);
            Reach(access, addr + have, want) == if d - have < want then d - have else want
  {
    var d := Reach(access, addr, len);
    ReachIs(access, addr + have, want, if d - have < want then d - have else want);
  }

  /** What a transfer of `len` bytes returns when `d` of them could be moved. */
  function Returned(d: nat, len: nat): int { if d == 0 && len > 0 then -1 else d }

  /** The first `d` bytes from `addr` have been moved into the buffer from `start` on, or out of it,
      and nothing else has changed. */
  ghost predicate MovedBytes(was: Memory, addr: nat, had: seq<Byte>, start: nat, d: nat, writeIt: bool,
                             mem: Memory, buf: seq<Byte>)
    requires start + d <= |had|
  {
    && |buf| == |had|
    && (forall i :: 0 <= i < |buf| ==>
          buf[i] == if !writeIt && start <= i < start + d then was(addr + i - start) else had[i])
    && (forall a: nat :: mem(a) == if writeIt && addr <= a < addr + d then had[start + a - addr] else was(a))
  }

  lemma MoveOn(was: Memory, addr: nat, had: seq<Byte>, start: nat, d: nat, writeIt: bool,
               mem: Memory, buf: seq<Byte>, c: nat, mem': Memory, buf': seq<Byte>)
    requires start + d + c <= |had|
    requires MovedBytes(was, addr, had, start, d, writeIt, mem, buf)
    requires MovedBytes(mem, addr + d, buf, start + d, c, writeIt, mem', buf')
    ensures MovedBytes(was, addr, had, start, d + c, writeIt, mem', buf')
  {
  }

  /** A transfer of `len` bytes between `addr` and the buffer from `start` on: it moves as many bytes as
      can be accessed in a row, and returns how many that were. */
  ghost predicate Moved(access: Access, was: Memory, addr: nat, had: seq<Byte>, start: nat, len: nat, writeIt: bool,
                        mem: Memory, buf: seq<Byte>, n: int)
    requires start + len <= |had|
  {
    var d := Reach(access, addr, len);
    n == Returned(d, len) && MovedBytes(was, addr, had, start, d, writeIt, mem, buf)
  }

  /** Writing back a word with some bytes replaced writes those bytes. */
  lemma CellWritten(was: Memory, at: nat, off: nat, data: seq<Byte>, cell: seq<Byte>)
    requires off + |data| <= WORD
    requires cell == Bytes(was, at, WORD)[..off] + data + Bytes(was, at, WORD)[off + |data|..]
    ensures Same(Written(was, at, cell), Written(was, at + off, data))
  {
    forall a: nat | at <= a < at + WORD ensures Written(was, at, cell)(a) == Written(was, at + off, data)(a) {
      assert cell[a - at] == if off <= a - at < off + |data| then data[a - at - off] else was(a);
    }
  }

  ghost predicate Agree(buf: seq<Byte>, text: seq<Byte>, n: nat) {
    n <= |buf| && n <= |text| && forall i :: 0 <= i < n ==> buf[i] == text[i]
  }

  /** A chunk read behind `have` bytes of a text adds to it what was there to add. */
  lemma ChunkAgrees(access: Access, was: Memory, addr: nat, had: seq<Byte>, have: nat, want: nat,
                    mem: Memory, buf: seq<Byte>, n: int, text: seq<Byte>)
    requires have + want < |had| && 0 < want && Agree(had, text, have)
    requires |text| == Reach(access, addr, |had| - 1) && forall i :: 0 <= i < |text| ==> text[i] == was(addr + i)
    requires Moved(access, was, addr + have, had, have, want, false, mem, buf, n)
    ensures Same(mem, was)
    ensures n == if |text| == have then -1 else if |text| - have < want then |text| - have else want
    ensures Agree(buf, text, if n > 0 then have + n else have)
  {
    ReachOn(access, addr, |had| - 1, have, want);
  }

  /** Bytes from `addr` on within one word share its accessibility. */
  lemma SameWord(addr: nat, chunk: nat)
    requires chunk <= WORD - addr % WORD
    ensures forall a :: addr <= a < addr + chunk ==> WordOf(a) == WordOf(addr)
  {
  }

  // ----- C strings -----

  function UpToNul(s: seq<Byte>): (t: seq<Byte>)
    ensures |t| <= |s| && t == s[..|t|] && (forall i :: 0 <= i < |t| ==> t[i] != NUL) && (|t| < |s| ==> s[|t|] == NUL)
  {
    if s == [] || s[0] == NUL then [] else [s[0]] + UpToNul(s[1..])
  }

  lemma UpToNulIs(s: seq<Byte>, n: nat)
    requires n <= |s| && (forall i :: 0 <= i < n ==> s[i] != NUL) && (n < |s| ==> s[n] == NUL)
    ensures UpToNul(s) == s[..n]
  {
    var t := UpToNul(s);
    assert |t| < |s| ==> s[|t|] == NUL;
    assert forall i :: 0 <= i < |t| ==> s[i] == t[i];
  }

  /** The buffer and the memory agree up to a NUL, or up to where the memory ends. */
  lemma SameText(buf: seq<Byte>, text: seq<Byte>, n: nat)
    requires n < |buf| && n <= |text| && (forall i :: 0 <= i < n ==> buf[i] == text[i] != NUL)
    requires buf[n] == NUL && (n < |text| ==> text[n] == NUL)
    ensures UpToNul(buf) == UpToNul(text) && |UpToNul(buf)| == n
  {
    UpToNulIs(buf, n);
    UpToNulIs(text, n);
  }

  /** Two texts are the same C string exactly if they agree up to the NUL of one. */
  lemma {:induction false} SameTextIff(was: seq<Byte>, now: seq<Byte>, d: nat)
    requires |was| == |now| == d
    ensures UpToNul(now) == UpToNul(was) <==> forall k :: 0 <= k <= |UpToNul(was)| && k < d ==> now[k] == was[k]
  {
    var t, u := UpToNul(was), UpToNul(now);
    assert t == was[..|t|] && u == now[..|u|];
    if t == u {
      forall k | 0 <= k <= |t| && k < d ensures now[k] == was[k] {
        if k < |t| { assert now[k] == u[k] && was[k] == t[k]; }
      }
    }
    if forall k :: 0 <= k <= |t| && k < d ==> now[k] == was[k] {
      UpToNulIs(now, |t|);
      assert now[..|t|] == was[..|t|];
    }
  }

  method FindNul(buf: array<Byte>, start: nat, n: nat) returns (at: nat)
    requires start + n <= buf.Length
    ensures start <= at <= start + n && (at < start + n ==> buf[at] == NUL)
    ensures forall i :: start <= i < at ==> buf[i] != NUL
  {
    at := start;
    while at < start + n && buf[at] != NUL
      invariant start <= at <= start + n && forall i :: start <= i < at ==> buf[i] != NUL
    {
      at := at + 1;
    }
  }

  /** Ends the string in the buffer. A NUL read from the text ends it earlier. */
  method Terminate(buf: array<Byte>, at: nat, ghost text: seq<Byte>, ghost n: nat)
    requires at < buf.Length && Agree(buf[..], text, at) && n <= at
    requires forall i :: 0 <= i < n ==> text[i] != NUL
    requires if n < at then text[n] == NUL else n == |text|
    modifies buf
    ensures UpToNul(buf[..]) == UpToNul(text)
  {
    ghost var had := buf[..];
    buf[at] := NUL;
    assert buf[..] == had[at := NUL];
    SameText(buf[..], text, n);
  }

  datatype Method = ProcessVm | ProcMem | PeekPoke

  function Rank(m: Method): nat { match m case ProcessVm => 0 case ProcMem => 1 case PeekPoke => 2 }

  /** The first method from `m` on that a sandbox does not refuse; a tracer may always peek. */
  function FirstPermitted(denied: Method -> bool, m: Method): Method
    decreases 2 - Rank(m)
  {
    if m == PeekPoke || !denied(m) then m
    else FirstPermitted(denied, if m == ProcessVm then ProcMem else PeekPoke)
  }

  /** It is not denied itself, or is the last there is; all before it are. */
  lemma {:induction false} FirstPermittedIs(denied: Method -> bool, m: Method)
    ensures var r := FirstPermitted(denied, m);
            && Rank(m) <= Rank(r) && (r == PeekPoke || !denied(r))
            && forall x :: Rank(m) <= Rank(x) < Rank(r) ==> denied(x)
    decreases 2 - Rank(m)
  {
    if m != PeekPoke && denied(m) { FirstPermittedIs(denied, if m == ProcessVm then ProcMem else PeekPoke); }
  }

  class Guest {
    var mem: Memory
    var how: Method
    const readable: Method -> Access
    const writable: Method -> Access

    constructor (mem: Memory, readable: Method -> Access, writable: Method -> Access)
      ensures this.mem == mem && how == ProcessVm
      ensures this.readable == readable && this.writable == writable
    {
      this.mem, this.readable, this.writable, how := mem, readable, writable, ProcessVm;
    }

    /** The words a transfer by `m` can touch: a word to be written is also read first. */
    function Open(m: Method, writeIt: bool): Access {
      (w: nat) => if !writeIt then readable(m)(w) else writable(m)(w) && (m == PeekPoke ==> readable(m)(w))
    }

    // PTRACE_PEEKDATA and PTRACE_POKEDATA

    method Peek(at: nat) returns (word: Option<seq<Byte>>)
      requires at % WORD == 0
      ensures word == if readable(PeekPoke)(at) then Some(Bytes(mem, at, WORD)) else None
    {
      word := if readable(PeekPoke)(at) then Some(Bytes(mem, at, WORD)) else None;
    }

    method Poke(at: nat, word: seq<Byte>) returns (ok: bool)
      requires at % WORD == 0 && |word| == WORD
      modifies this`mem
      ensures ok == writable(PeekPoke)(at)
      ensures mem == if ok then Written(old(mem), at, word) else old(mem)
    {
      ok := writable(PeekPoke)(at);
      if ok { mem := Written(mem, at, word); }
    }

    /** process_vm_readv/writev and /proc/PID/mem, as the kernel carries them out: byte by byte up to
        the first address it may not touch. */
    method KernelCopy(m: Method, addr: nat, buf: array<Byte>, start: nat, len: nat, writeIt: bool) returns (n: int)
      requires start + len <= buf.Length
      modifies this`mem, buf
      ensures Moved(Open(m, writeIt), old(mem), addr, old(buf[..]), start, len, writeIt, mem, buf[..], n)
    {
      var done := 0;
      var access := Open(m, writeIt);
      ghost var was, had := mem, buf[..];
      while done < len && Accessible(access, addr + done)
        invariant done <= len && forall a :: addr <= a < addr + done ==> Accessible(access, a)
        invariant MovedBytes(was, addr, had, start, done, writeIt, mem, buf[..])
      {
        ghost var before, buffer := mem, buf[..];
        if writeIt { mem := Written(mem, addr + done, [buf[start + done]]); }
        else { buf[start + done] := mem(addr + done); }
        MoveOn(was, addr, had, start, done, writeIt, before, buffer, 1, mem, buf[..]);
        done := done + 1;
      }
      ReachIs(access, addr, len, done);
      return if done == 0 && len > 0 then -1 else done;
    }

    /** Reads a word and puts `chunk` bytes of the buffer into it. */
    method WriteWord(addr: nat, buf: array<Byte>, start: nat, chunk: nat) returns (ok: bool)
      requires 0 < chunk <= WORD - addr % WORD && start + chunk <= buf.Length
      modifies this`mem
      ensures ok == Open(PeekPoke, true)(WordOf(addr))
      ensures MovedBytes(old(mem), addr, buf[..], start, if ok then chunk else 0, true, mem, buf[..])
    {
      var at, off := WordOf(addr), addr % WORD;
      var word := Peek(at);
      if word.None? { return false; }
      ghost var was := mem;
      var cell := word.value[..off] + buf[start..start + chunk] + word.value[off + chunk..];
      ok := Poke(at, cell);
      if ok { CellWritten(was, at, off, buf[start..start + chunk], cell); }
    }

    method ReadWord(addr: nat, buf: array<Byte>, start: nat, chunk: nat) returns (ok: bool)
      requires 0 < chunk <= WORD - addr % WORD && start + chunk <= buf.Length
      modifies buf
      ensures ok == Open(PeekPoke, false)(WordOf(addr))
      ensures MovedBytes(mem, addr, old(buf[..]), start, if ok then chunk else 0, false, mem, buf[..])
    {
      var at, off := WordOf(addr), addr % WORD;
      var word := Peek(at);
      if word.None? { return false; }
      forall i | 0 <= i < chunk { buf[start + i] := word.value[off + i]; }
      ok := true;
    }

    method MoveWord(addr: nat, buf: array<Byte>, start: nat, chunk: nat, writeIt: bool) returns (ok: bool)
      requires 0 < chunk <= WORD - addr % WORD && start + chunk <= buf.Length
      modifies this`mem, buf
      ensures ok == Accessible(Open(PeekPoke, writeIt), addr)
      ensures MovedBytes(old(mem), addr, old(buf[..]), start, if ok then chunk else 0, writeIt, mem, buf[..])
    {
      if writeIt { ok := WriteWord(addr, buf, start, chunk); } else { ok := ReadWord(addr, buf, start, chunk); }
    }

    /** Word-at-a-time access; stops at the first word that cannot be accessed. */
    method PeekPokeCopy(addr: nat, buf: array<Byte>, start: nat, len: nat, writeIt: bool) returns (n: int)
      requires start + len <= buf.Length
      modifies this`mem, buf
      ensures Moved(Open(PeekPoke, writeIt), old(mem), addr, old(buf[..]), start, len, writeIt, mem, buf[..], n)
    {
      var done := 0;
      ghost var access := Open(PeekPoke, writeIt);
      ghost var was, had := mem, buf[..];
      while done < len
        invariant done <= len && forall a :: addr <= a < addr + done ==> Accessible(access, a)
        invariant MovedBytes(was, addr, had, start, done, writeIt, mem, buf[..])
      {
        var off := (addr + done) % WORD;
        var chunk := if WORD - off < len - done then WORD - off else len - done;
        ghost var before, buffer := mem, buf[..];
        var ok := MoveWord(addr + done, buf, start + done, chunk, writeIt);
        MoveOn(was, addr, had, start, done, writeIt, before, buffer, if ok then chunk else 0, mem, buf[..]);
        if !ok { break; }
        SameWord(addr + done, chunk);
        done := done + chunk;
      }
      ReachIs(access, addr, len, done);
      return if done == 0 && len > 0 then -1 else done;
    }

    /** A transfer by the first method the kernel does not deny to this call; one that is denied is never
        tried again. */
    method Transfer(addr: nat, buf: array<Byte>, start: nat, len: nat, writeIt: bool, denied: Method -> bool)
      returns (n: int)
      requires start + len <= buf.Length
      modifies this`mem, this`how, buf
      ensures how == FirstPermitted(denied, old(how))
      ensures Moved(Open(how, writeIt), old(mem), addr, old(buf[..]), start, len, writeIt, mem, buf[..], n)
    {
      while how != PeekPoke && denied(how)
        invariant mem == old(mem) && buf[..] == old(buf[..])
        invariant FirstPermitted(denied, how) == FirstPermitted(denied, old(how))
        decreases Rank(PeekPoke) - Rank(how)
      {
        how := if how == ProcessVm then ProcMem else PeekPoke;
      }
      if how == PeekPoke { n := PeekPokeCopy(addr, buf, start, len, writeIt); }
      else { n := KernelCopy(how, addr, buf, start, len, writeIt); }
    }

    /** Reads the next chunk of a string behind the `have` bytes already read. */
    method ReadChunk(addr: nat, buf: array<Byte>, have: nat, want: nat, denied: Method -> bool, ghost text: seq<Byte>)
      returns (n: int)
      requires have + want < buf.Length && 0 < want && Agree(buf[..], text, have)
      requires |text| == Reach(Open(FirstPermitted(denied, how), false), addr, buf.Length - 1)
      requires forall i :: 0 <= i < |text| ==> text[i] == mem(addr + i)
      modifies this`mem, this`how, buf
      ensures Same(mem, old(mem)) && FirstPermitted(denied, how) == FirstPermitted(denied, old(how))
      ensures n == if |text| == have then -1 else if |text| - have < want then |text| - have else want
      ensures Agree(buf[..], text, if n > 0 then have + n else have)
    {
      n := Transfer(addr + have, buf, have, want, false, denied);
      ChunkAgrees(Open(how, false), old(mem), addr, old(buf[..]), have, want, mem, buf[..], n, text);
    }

    /** A NUL-terminated string of at most size - 1 bytes, read in chunks: all of it up to its NUL, the
        end of the buffer or the end of the accessible memory. Fails only if not even one byte is. */
    method ReadString(addr: nat, buf: array<Byte>, denied: Method -> bool) returns (ok: bool)
      requires buf.Length > 0
      modifies this`mem, this`how, buf
      ensures Same(mem, old(mem))
      ensures var d := Reach(Open(FirstPermitted(denied, old(how)), false), addr, buf.Length - 1);
              && (ok <==> d > 0)
              && (ok ==> UpToNul(buf[..]) == UpToNul(Bytes(old(mem), addr, d)))
    {
      var size, have := buf.Length, 0;
      ghost var text := Bytes(mem, addr, Reach(Open(FirstPermitted(denied, how), false), addr, size - 1));
      while have + 1 < size
        invariant have <= |text| && have < size && Same(mem, old(mem))
        invariant FirstPermitted(denied, how) == FirstPermitted(denied, old(how))
        invariant Agree(buf[..], text, have) && forall i :: 0 <= i < have ==> text[i] != NUL
      {
        var want := if size - 1 - have < 128 then size - 1 - have else 128;
        var n := ReadChunk(addr, buf, have, want, denied, text);
        if n <= 0 {
          if have == 0 { return false; }
          break;
        }
        var nul := FindNul(buf, have, n);
        assert forall i :: have <= i < have + n ==> buf[..][i] == text[i];
        have := have + n;
        if nul < have {
          Terminate(buf, have, text, nul);
          return true;
        }
        if n < want { break; }
      }
      Terminate(buf, have, text, have);
      return have > 0;
    }
  }
}
