/** The block a rewritten execve leaves in guest memory: [path][strings][pointer array], with pointers
    into itself. Read back as the kernel reads it, it is the host path and the intended arguments. */
module ArgvBlock {
  import opened Words
  import opened GuestMemory
  import opened Rewrite
  import opened ExecExpand

  // ----- words in memory, little-endian -----

  function Pow256(n: nat): nat { if n == 0 then 1 else 256 * Pow256(n - 1) }

  function Store(v: nat, n: nat): (s: seq<Byte>)
    ensures |s| == n
    decreases n
  {
    if n == 0 then [] else [(v % 256) as char] + Store(v / 256, n - 1)
  }

  function Load(s: seq<Byte>): nat { if s == [] then 0 else s[0] as int + 256 * Load(s[1..]) }

  lemma {:induction false} LoadStored(v: nat, n: nat)
    requires v < Pow256(n)
    ensures Load(Store(v, n)) == v
    decreases n
  {
    if n > 0 {
      assert v / 256 < Pow256(n - 1);
      LoadStored(v / 256, n - 1);
      assert Store(v, n)[1..] == Store(v / 256, n - 1);
    }
  }

  lemma PointerLoads(p: U64)
    ensures Load(Store(p, WORD)) == p
  {
    assert Pow256(4) == 0x1_0000_0000;
    assert Pow256(8) == 0x1_0000_0000_0000_0000 by { assert Pow256(6) == 0x1_0000_0000_0000; }
    LoadStored(p, WORD);
  }

  /** The pointer the kernel finds in the word at `addr`. */
  function PointerAt(mem: Memory, addr: nat): nat { Load(Bytes(mem, addr, WORD)) }

  // ----- the layout -----

  function MadeSize(args: seq<Arg>): nat {
    if args == [] then 0
    else
      var n := |args| - 1;
      MadeSize(args[..n]) + if args[n].Made? then |args[n].str| + 1 else 0
  }

  function RoundUp16(n: nat): (r: nat)
    ensures n <= r < n + 16 && r % 16 == 0
  {
    (n + 15) / 16 * 16
  }

  /** The strings start behind the path, the pointers behind the strings. */
  function StringsEnd(host: Text, args: seq<Arg>): nat { |host| + 1 + MadeSize(args) }

  function Total(host: Text, args: seq<Arg>): nat {
    |host| + 1 + (|args| + 1) * WORD + 32 + MadeSize(args)
  }

  /** In the block, string `s` starts at `off` and ends before `end`. */
  ghost predicate StringIn(blob: seq<Byte>, off: nat, s: Text, end: nat) {
    && off + |s| < end <= |blob|
    && (forall i :: 0 <= i < |s| ==> blob[off + i] == s[i]) && blob[off + |s|] == NUL
  }

  ghost predicate StringsIn(blob: seq<Byte>, args: seq<Arg>, offs: seq<nat>, n: nat, end: nat)
    requires n <= |args| && n <= |offs|
  {
    forall i :: 0 <= i < n && args[i].Made? ==> StringIn(blob, offs[i], args[i].str, end)
  }

  lemma StringsKept(blob: seq<Byte>, now: seq<Byte>, args: seq<Arg>, offs: seq<nat>, n: nat, end: nat, end': nat)
    requires n <= |args| && n <= |offs| && StringsIn(blob, args, offs, n, end)
    requires |now| == |blob| && end <= end' <= |now| && forall i :: 0 <= i < end ==> now[i] == blob[i]
    ensures StringsIn(now, args, offs, n, end')
  {
    forall i | 0 <= i < n && args[i].Made? ensures StringIn(now, offs[i], args[i].str, end') {
      assert StringIn(blob, offs[i], args[i].str, end);
    }
  }

  method PutString(blob: array<Byte>, off: nat, s: Text)
    requires off + |s| < blob.Length
    modifies blob
    ensures StringIn(blob[..], off, s, off + |s| + 1)
    ensures forall i :: 0 <= i < off || off + |s| < i < blob.Length ==> blob[i] == old(blob[i])
  {
    forall i | 0 <= i < |s| { blob[off + i] := s[i]; }
    blob[off + |s|] := NUL;
  }

  method PutPointer(blob: array<Byte>, off: nat, p: U64)
    requires off + WORD <= blob.Length
    modifies blob
    ensures blob[off..off + WORD] == Store(p, WORD)
    ensures forall i :: 0 <= i < off || off + WORD <= i < blob.Length ==> blob[i] == old(blob[i])
  {
    var word := Store(p, WORD);
    forall i | 0 <= i < WORD { blob[off + i] := word[i]; }
  }

  /** Path and strings, each ended by a NUL, one after the other. */
  method LayStrings(host: Text, args: seq<Arg>, blob: array<Byte>) returns (offs: seq<nat>, off: nat)
    requires StringsEnd(host, args) <= blob.Length
    modifies blob
    ensures |offs| == |args| && off == StringsEnd(host, args)
    ensures StringIn(blob[..], 0, host, off)
    ensures StringsIn(blob[..], args, offs, |args|, off)
  {
    PutString(blob, 0, host);
    off, offs := |host| + 1, [];
    for k := 0 to |args|
      invariant |offs| == k && off == StringsEnd(host, args[..k]) <= blob.Length
      invariant StringIn(blob[..], 0, host, off)
      invariant StringsIn(blob[..], args, offs, k, off)
    {
      assert args[..k + 1][..k] == args[..k];
      SizeUpTo(args, k + 1);
      ghost var before := blob[..];
      offs := offs + [off];
      if args[k].Made? {
        var s := args[k].str;
        PutString(blob, off, s);
        StringsKept(before, blob[..], args, offs, k, off, off + |s| + 1);
        off := off + |s| + 1;
      }
    }
    assert args[..|args|] == args;
  }

  lemma {:induction false} SizeUpTo(args: seq<Arg>, k: nat)
    requires k <= |args|
    ensures MadeSize(args[..k]) <= MadeSize(args)
    decreases |args| - k
  {
    if k < |args| {
      SizeUpTo(args, k + 1);
      assert args[..k + 1][..k] == args[..k];
    } else {
      assert args[..k] == args;
    }
  }

  /** The pointer that stands for argument i in a block at `base`. */
  function PointerOf(args: seq<Arg>, offs: seq<nat>, base: nat, i: nat): nat
    requires i < |args| == |offs|
  {
    if args[i].Made? then base + offs[i] else args[i].ptr
  }

  ghost predicate PointersIn(blob: seq<Byte>, at: nat, pointers: seq<U64>) {
    at + |pointers| * WORD <= |blob|
    && forall i :: 0 <= i < |pointers| ==> blob[at + i * WORD..at + i * WORD + WORD] == Store(pointers[i], WORD)
  }

  method LayPointers(pointers: seq<U64>, blob: array<Byte>, at: nat)
    requires at + |pointers| * WORD <= blob.Length
    modifies blob
    ensures PointersIn(blob[..], at, pointers)
    ensures forall i :: 0 <= i < at ==> blob[i] == old(blob[i])
  {
    for k := 0 to |pointers|
      invariant forall i :: 0 <= i < at ==> blob[i] == old(blob[i])
      invariant PointersIn(blob[..], at, pointers[..k])
    {
      ghost var before := blob[..];
      PutPointer(blob, at + k * WORD, pointers[k]);
      forall i | 0 <= i < k + 1
        ensures blob[..][at + i * WORD..at + i * WORD + WORD] == Store(pointers[..k + 1][i], WORD)
      {
        if i < k {
          assert before[at + i * WORD..at + i * WORD + WORD] == Store(pointers[..k][i], WORD);
          assert blob[..][at + i * WORD..at + i * WORD + WORD] == before[at + i * WORD..at + i * WORD + WORD];
        }
      }
    }
    assert pointers[..|pointers|] == pointers;
  }

  // ----- the block in guest memory -----

  /** Argument i, read through the pointer array at `argv`, is the intended one. */
  ghost predicate ArgAt(mem: Memory, argv: nat, args: seq<Arg>, i: nat)
    requires i < |args|
  {
    var p := PointerAt(mem, argv + i * WORD);
    if args[i].Made? then p != 0 && HoldsText(mem, p, args[i].str) else p == args[i].ptr
  }

  /** Reading memory as execve does gives this path and these arguments, and no more. */
  ghost predicate Decodes(mem: Memory, path: nat, argv: nat, host: Text, args: seq<Arg>) {
    && HoldsText(mem, path, host)
    && (forall i :: 0 <= i < |args| ==> ArgAt(mem, argv, args, i))
    && PointerAt(mem, argv + |args| * WORD) == 0
  }

  lemma StringWritten(mem: Memory, base: nat, blob: seq<Byte>, off: nat, s: Text)
    requires NulFree(s) && StringIn(blob, off, s, |blob|)
    requires forall i :: 0 <= i < |blob| ==> mem(base + i) == blob[i]
    ensures HoldsText(mem, base + off, s)
  {
    forall i | 0 <= i < |s| ensures mem(base + off + i) == s[i] { assert mem(base + (off + i)) == blob[off + i]; }
    assert mem(base + (off + |s|)) == blob[off + |s|];
  }

  lemma PointerWritten(mem: Memory, base: nat, blob: seq<Byte>, off: nat, p: U64)
    requires off + WORD <= |blob| && blob[off..off + WORD] == Store(p, WORD)
    requires forall i :: 0 <= i < |blob| ==> mem(base + i) == blob[i]
    ensures PointerAt(mem, base + off) == p
  {
    var s := Bytes(mem, base + off, WORD);
    forall i | 0 <= i < WORD ensures s[i] == Store(p, WORD)[i] {
      assert mem(base + (off + i)) == blob[off + i] == blob[off..off + WORD][i];
    }
    assert s == Store(p, WORD);
    PointerLoads(p);
  }

  /** The finished block: the strings at their offsets, the pointers at `at`, for a block at `base`. */
  ghost predicate Filled(blob: seq<Byte>, host: Text, args: seq<Arg>, base: nat, at: nat, offs: seq<nat>,
                         pointers: seq<U64>)
  {
    && |offs| == |args| && |pointers| == |args| + 1 && pointers[|args|] == 0
    && (forall i :: 0 <= i < |args| ==> pointers[i] == PointerOf(args, offs, base, i))
    && StringIn(blob, 0, host, |blob|) && StringsIn(blob, args, offs, |args|, |blob|) && PointersIn(blob, at, pointers)
  }

  ghost predicate NulFreeArgs(args: seq<Arg>) {
    forall i :: 0 <= i < |args| && args[i].Made? ==> NulFree(args[i].str)
  }

  /** One word of the pointer array, in memory. */
  lemma PointerDecodes(mem: Memory, base: nat, blob: seq<Byte>, at: nat, pointers: seq<U64>, i: nat)
    requires PointersIn(blob, at, pointers) && i < |pointers|
    requires forall i :: 0 <= i < |blob| ==> mem(base + i) == blob[i]
    ensures PointerAt(mem, base + at + i * WORD) == pointers[i]
  {
    assert blob[at + i * WORD..at + i * WORD + WORD] == Store(pointers[i], WORD);
    PointerWritten(mem, base, blob, at + i * WORD, pointers[i]);
    assert base + (at + i * WORD) == base + at + i * WORD;
  }

  lemma MadeDecodes(mem: Memory, base: nat, blob: seq<Byte>, args: seq<Arg>, offs: seq<nat>, p: U64, i: nat, addr: nat)
    requires base > 0 && i < |args| && |offs| == |args|
    requires args[i].Made? ==> NulFree(args[i].str) && StringIn(blob, offs[i], args[i].str, |blob|)
    requires forall i :: 0 <= i < |blob| ==> mem(base + i) == blob[i]
    requires p == PointerOf(args, offs, base, i) && PointerAt(mem, addr) == p
    ensures match args[i]
            case Made(s) => HoldsText(mem, PointerAt(mem, addr), s)
            case Ptr(q) => PointerAt(mem, addr) == q
  {
    if args[i].Made? { StringWritten(mem, base, blob, offs[i], args[i].str); }
  }

  lemma ArgDecodes(mem: Memory, base: nat, blob: seq<Byte>, host: Text, args: seq<Arg>, at: nat, offs: seq<nat>,
                   pointers: seq<U64>, i: nat)
    requires base > 0 && NulFreeArgs(args) && Filled(blob, host, args, base, at, offs, pointers) && i < |args|
    requires forall i :: 0 <= i < |blob| ==> mem(base + i) == blob[i]
    ensures ArgAt(mem, base + at, args, i)
  {
    PointerDecodes(mem, base, blob, at, pointers, i);
    MadeDecodes(mem, base, blob, args, offs, pointers[i], i, base + at + i * WORD);
  }

  lemma BlockDecodes(mem: Memory, base: nat, blob: seq<Byte>, host: Text, args: seq<Arg>, at: nat, offs: seq<nat>,
                     pointers: seq<U64>)
    requires base > 0 && NulFree(host) && NulFreeArgs(args) && Filled(blob, host, args, base, at, offs, pointers)
    requires forall i :: 0 <= i < |blob| ==> mem(base + i) == blob[i]
    ensures Decodes(mem, base, base + at, host, args)
  {
    StringWritten(mem, base, blob, 0, host);
    var argv := base + at;
    forall i | 0 <= i < |args| ensures ArgAt(mem, argv, args, i) {
      ArgDecodes(mem, base, blob, host, args, at, offs, pointers, i);
    }
    PointerDecodes(mem, base, blob, at, pointers, |args|);
  }

  function PointerList(args: seq<Arg>, offs: seq<nat>, base: nat, end: nat): (p: seq<U64>)
    requires |offs| == |args| && base + end < TWO_64
    requires forall i :: 0 <= i < |args| && args[i].Made? ==> offs[i] < end
    ensures |p| == |args| + 1 && p[|args|] == 0
    ensures forall i :: 0 <= i < |args| ==> p[i] == PointerOf(args, offs, base, i)
  {
    seq(|args|, i requires 0 <= i < |args| => PointerOf(args, offs, base, i)) + [0]
  }

  /** Strings and pointers are both there in the part of the block that is written. */
  lemma BlockIsLaid(laid: seq<Byte>, blob: seq<Byte>, data: seq<Byte>, host: Text, args: seq<Arg>, offs: seq<nat>,
                    off: nat, at: nat, pointers: seq<U64>)
    requires |laid| == |blob| && off <= at <= |blob| && |offs| == |args| && |pointers| == |args| + 1
    requires StringIn(laid, 0, host, off) && StringsIn(laid, args, offs, |args|, off)
    requires forall i :: 0 <= i < at ==> blob[i] == laid[i]
    requires PointersIn(blob, at, pointers) && data == blob[..at + |pointers| * WORD]
    ensures StringIn(data, 0, host, |data|) && StringsIn(data, args, offs, |args|, |data|)
    ensures PointersIn(data, at, pointers)
  {
    forall i | 0 <= i < |args| && args[i].Made? ensures StringIn(data, offs[i], args[i].str, |data|) {
      assert StringIn(laid, offs[i], args[i].str, off);
    }
    forall i | 0 <= i < |pointers| ensures data[at + i * WORD..at + i * WORD + WORD] == Store(pointers[i], WORD) {
      assert blob[at + i * WORD..at + i * WORD + WORD] == Store(pointers[i], WORD);
    }
  }

  /** Fills the block for a given base; the part to be written to the guest is `data`. */
  method FillBlock(host: Text, args: seq<Arg>, base: nat, blob: array<Byte>)
    returns (at: nat, ghost offs: seq<nat>, ghost pointers: seq<U64>, data: seq<Byte>)
    requires blob.Length == Total(host, args) && base + blob.Length <= TWO_64
    modifies blob
    ensures at % 16 == 0 && |data| == at + (|args| + 1) * WORD <= blob.Length
    ensures Filled(data, host, args, base, at, offs, pointers)
  {
    var offsets, off := LayStrings(host, args, blob);
    ghost var laid := blob[..];
    at := RoundUp16(off);
    assert forall i :: 0 <= i < |args| && args[i].Made? ==> StringIn(laid, offsets[i], args[i].str, off);
    var words := PointerList(args, offsets, base, off);
    LayPointers(words, blob, at);
    data := blob[..at + (|args| + 1) * WORD];
    BlockIsLaid(laid, blob[..], data, host, args, offsets, off, at, words);
    offs, pointers := offsets, words;
  }

  /** Builds the block and writes it to the room at `base`; the pointers are at base + at. */
  method WriteBlock(stop: Stop, base: nat, host: Text, args: seq<Arg>) returns (ok: bool, at: nat)
    requires 0 < base && base + Total(host, args) <= TWO_64 && NulFree(host) && NulFreeArgs(args)
    modifies stop`mem
    ensures at % 16 == 0 && at + (|args| + 1) * WORD <= Total(host, args)
    ensures ok ==> Decodes(stop.mem, base, base + at, host, args)
    ensures forall a: nat :: a < base || base + Total(host, args) <= a ==> stop.mem(a) == old(stop.mem)(a)
  {
    var blob := new Byte[Total(host, args)](_ => NUL);
    ghost var offs, pointers;
    var data;
    at, offs, pointers, data := FillBlock(host, args, base, blob);
    ok := stop.GuestWrite(base, data);
    assert ok ==> forall i :: 0 <= i < |data| ==> stop.mem(base + i) == data[i];
    if ok { BlockDecodes(stop.mem, base, data, host, args, at, offs, pointers); }
  }

  /** Lays out the block below the stack pointer and points the two argument registers at it. If there
      is no room, or the memory cannot be written, the call is left with a null path. */
  method PlaceBlock(stop: Stop, pathSlot: nat, argvSlot: nat, host: Text, args: seq<Arg>) returns (ok: bool)
    requires stop.Valid() && 1 <= pathSlot <= 6 && 1 <= argvSlot <= 6 && pathSlot != argvSlot
    requires Total(host, args) <= TWO_64 - 16
    requires NulFree(host) && NulFreeArgs(args)
    modifies stop`mem, stop`scratchTop, stop.args
    ensures stop.Valid()
    ensures forall i :: 0 <= i < 6 && i != pathSlot - 1 && i != argvSlot - 1 ==> stop.args[i] == old(stop.args[i])
    ensures var base := stop.scratchTop;
            if ok then
              && stop.args[pathSlot - 1] == base && stop.args[argvSlot - 1] % 16 == 0
              && Decodes(stop.mem, base, stop.args[argvSlot - 1], host, args)
              && stop.args[argvSlot - 1] + (|args| + 1) * WORD <= base + Total(host, args) <= old(stop.scratchTop)
            else stop.args[pathSlot - 1] == 0 && stop.args[argvSlot - 1] == old(stop.args[argvSlot - 1])
    ensures forall a: nat :: a < stop.scratchTop || old(stop.scratchTop) <= a ==> stop.mem(a) == old(stop.mem)(a)
  {
    ok := false;
    var base := stop.Scratch(Total(host, args));
    if base != 0 {
      var at;
      ok, at := WriteBlock(stop, base, host, args);
      if ok { stop.args[pathSlot - 1], stop.args[argvSlot - 1] := base, base + at; }
    }
    if !ok { stop.args[pathSlot - 1] := 0; }
  }

  /** So the kernel, reading the arguments back, finds the texts of exactly the intended list, provided
      the guest's own strings lie outside the room the block was given. */
  lemma ArgumentsReadBack(sys: System, was: Memory, mem: Memory, low: nat, high: nat, path: nat, argv: nat,
                          host: Text, args: seq<Arg>)
    requires Decodes(mem, path, argv, host, args)
    requires forall a: nat :: a < low || high <= a ==> mem(a) == was(a)
    requires forall i :: 0 <= i < |args| && args[i].Ptr? ==>
               var p, t := args[i].ptr, sys.text(args[i].ptr);
               HoldsText(was, p, t) && (p + |t| < low || high <= p)
    ensures forall i :: 0 <= i < |args| ==> HoldsText(mem, PointerAt(mem, argv + i * WORD), Texts(sys, args)[i])
  {
    forall i | 0 <= i < |args| ensures HoldsText(mem, PointerAt(mem, argv + i * WORD), Texts(sys, args)[i]) {
      assert ArgAt(mem, argv, args, i);
      if args[i].Ptr? {
        var p, t := args[i].ptr, sys.text(args[i].ptr);
        forall k | 0 <= k < |t| ensures mem(p + k) == t[k] { assert was(p + k) == t[k]; }
        assert mem(p + |t|) == was(p + |t|);
      }
    }
  }
}
