/** The seccomp filter: the classic-BPF program the engine builds, an interpreter for the three
    instructions it uses, and the proof that the program traces exactly the listed syscalls. */
module Seccomp {
  import opened Words

  type Byte = x: int | 0 <= x < 256

  const LOAD_WORD: int := 0x20      // BPF_LD | BPF_W | BPF_ABS
  const JUMP_EQUAL: int := 0x15     // BPF_JMP | BPF_JEQ | BPF_K
  const RETURN: int := 0x06         // BPF_RET | BPF_K
  const OFFSET_NR: U32 := 0         // struct seccomp_data: nr, then arch
  const OFFSET_ARCH: U32 := 4
  const RET_ALLOW: U32 := 0x7fff_0000
  const RET_TRACE: U32 := 0x7ff0_0000
  const MAX_FILTERED: nat := 250

  datatype Insn = Insn(code: int, jt: Byte, jf: Byte, k: U32)

  datatype Call = Call(nr: U32, arch: U32)

  function Stmt(code: int, k: U32): Insn { Insn(code, 0, 0, k) }

  // ----- the kernel's side -----

  /** What the kernel's interpreter returns from `pc` on: None if it leaves the program, loads
      outside the call data, or meets an instruction it does not know. */
  function Execute(prog: seq<Insn>, pc: nat, acc: U32, call: Call): (r: Option<U32>)
    decreases |prog| - pc
  {
    if pc >= |prog| then None
    else
      var insn := prog[pc];
      if insn.code == LOAD_WORD then
        if insn.k == OFFSET_NR then Execute(prog, pc + 1, call.nr, call)
        else if insn.k == OFFSET_ARCH then Execute(prog, pc + 1, call.arch, call)
        else None
      else if insn.code == JUMP_EQUAL then
        Execute(prog, pc + 1 + (if acc == insn.k then insn.jt else insn.jf), acc, call)
      else if insn.code == RETURN then Some(insn.k)
      else None
  }

  /** The kernel's check at load time: every jump, taken or not, stays inside, and the last
      instruction returns. */
  ghost predicate Loadable(prog: seq<Insn>) {
    && prog != [] && prog[|prog| - 1].code == RETURN
    && forall i :: 0 <= i < |prog| && prog[i].code == JUMP_EQUAL ==>
         i + 1 + prog[i].jt < |prog| && i + 1 + prog[i].jf < |prog|
  }

  // ----- the program -----

  function Number(nr: int): U32 { nr % TWO_32 }

  /** The comparison for the i-th of `n` syscalls: a match jumps over what is left to TRACE. */
  function Compare(nrs: seq<int>, i: nat): Insn
    requires i < |nrs|
  {
    Insn(JUMP_EQUAL, (|nrs| - i) % 256, 0, Number(nrs[i]))
  }

  function Filter(nrs: seq<int>, ourArch: U32): seq<Insn> {
    [Stmt(LOAD_WORD, OFFSET_ARCH), Insn(JUMP_EQUAL, 1, 0, ourArch), Stmt(RETURN, RET_ALLOW), Stmt(LOAD_WORD, OFFSET_NR)]
    + seq(|nrs|, i requires 0 <= i < |nrs| => Compare(nrs, i))
    + [Stmt(RETURN, RET_ALLOW), Stmt(RETURN, RET_TRACE)]
  }

  /** Builds the program in place; None where the engine declines and traces everything. */
  method BuildFilter(nrs: seq<int>, ourArch: U32) returns (r: Option<seq<Insn>>)
    ensures r == if 1 <= |nrs| <= MAX_FILTERED then Some(Filter(nrs, ourArch)) else None
  {
    if |nrs| == 0 || |nrs| > MAX_FILTERED { return None; }
    var n := |nrs|;
    var prog := new Insn[MAX_FILTERED + 8](_ => Stmt(0, 0));
    var k := 0;
    prog[k] := Stmt(LOAD_WORD, OFFSET_ARCH); k := k + 1;
    prog[k] := Insn(JUMP_EQUAL, 1, 0, ourArch); k := k + 1;
    prog[k] := Stmt(RETURN, RET_ALLOW); k := k + 1;
    prog[k] := Stmt(LOAD_WORD, OFFSET_NR); k := k + 1;
    ghost var want := Filter(nrs, ourArch);
    for i := 0 to n
      invariant k == i + 4
      invariant forall j :: 0 <= j < k ==> prog[j] == want[j]
    {
      prog[k] := Insn(JUMP_EQUAL, (n - i) % 256, 0, nrs[i] % TWO_32); k := k + 1;
    }
    prog[k] := Stmt(RETURN, RET_ALLOW); k := k + 1;
    prog[k] := Stmt(RETURN, RET_TRACE); k := k + 1;
    assert prog[..k] == want;
    return Some(prog[..k]);
  }

  // ----- exactness -----

  ghost predicate Listed(nrs: seq<int>, nr: U32) {
    exists i :: 0 <= i < |nrs| && Number(nrs[i]) == nr
  }

  /** From the i-th comparison on, the program asks whether the rest of the list has the call. */
  lemma {:induction false} ScanFrom(nrs: seq<int>, ourArch: U32, i: nat, call: Call)
    requires i <= |nrs| <= 255
    ensures Execute(Filter(nrs, ourArch), i + 4, call.nr, call)
         == Some(if Listed(nrs[i..], call.nr) then RET_TRACE else RET_ALLOW)
    decreases |nrs| - i
  {
    var prog, n := Filter(nrs, ourArch), |nrs|;
    if i == n {
      assert prog[n + 4] == Stmt(RETURN, RET_ALLOW);
    } else {
      assert prog[i + 4] == Compare(nrs, i);
      assert prog[n + 5] == Stmt(RETURN, RET_TRACE);
      if Number(nrs[i]) == call.nr {
        assert nrs[i..][0] == nrs[i];
        assert Execute(prog, n + 5, call.nr, call) == Some(RET_TRACE);
        assert prog[i + 4].jt == n - i;
      } else {
        ScanFrom(nrs, ourArch, i + 1, call);
        assert forall j :: 1 <= j < n - i ==> nrs[i..][j] == nrs[i + 1..][j - 1];
      }
    }
  }

  /** Every list the engine accepts gives a program the kernel loads and that answers TRACE for
      the listed syscalls of our own ABI, ALLOW for all else. (A jump reaches 255 instructions.) */
  lemma {:induction false} FilterIsExact(nrs: seq<int>, ourArch: U32, call: Call)
    requires 1 <= |nrs| <= 255
    ensures Loadable(Filter(nrs, ourArch))
    ensures Execute(Filter(nrs, ourArch), 0, 0, call)
         == Some(if call.arch == ourArch && Listed(nrs, call.nr) then RET_TRACE else RET_ALLOW)
  {
    var prog := Filter(nrs, ourArch);
    assert prog[1].code == JUMP_EQUAL && prog[2] == Stmt(RETURN, RET_ALLOW) && prog[3] == Stmt(LOAD_WORD, OFFSET_NR);
    forall i | 4 <= i < |nrs| + 4 ensures prog[i] == Compare(nrs, i - 4) {}
    ScanFrom(nrs, ourArch, 0, call);
    assert nrs[0..] == nrs;
    assert Execute(prog, 2, call.arch, call) == Some(RET_ALLOW);
    assert Execute(prog, 3, call.arch, call) == Execute(prog, 4, call.nr, call);
  }

  /** One syscall more than a jump can pass, and the first in the list is no longer traced. */
  lemma {:induction false} OffsetWrapsAt256(nrs: seq<int>, ourArch: U32)
    requires |nrs| == 256
    requires forall i :: 0 < i < |nrs| ==> Number(nrs[i]) != Number(nrs[0])
    ensures Execute(Filter(nrs, ourArch), 0, 0, Call(Number(nrs[0]), ourArch)) == Some(RET_ALLOW)
  {
    var prog, call := Filter(nrs, ourArch), Call(Number(nrs[0]), ourArch);
    assert prog[3] == Stmt(LOAD_WORD, OFFSET_NR) && prog[4] == Compare(nrs, 0);
    ScanUnlisted(nrs, ourArch, 1, call);
    assert Execute(prog, 4, call.nr, call) == Execute(prog, 5, call.nr, call);
    assert Execute(prog, 3, call.arch, call) == Execute(prog, 4, call.nr, call);
    assert Execute(prog, 1, call.arch, call) == Execute(prog, 3, call.arch, call);
  }

  lemma {:induction false} ScanUnlisted(nrs: seq<int>, ourArch: U32, i: nat, call: Call)
    requires i <= |nrs| && forall j :: i <= j < |nrs| ==> Number(nrs[j]) != call.nr
    ensures Execute(Filter(nrs, ourArch), i + 4, call.nr, call) == Some(RET_ALLOW)
    decreases |nrs| - i
  {
    var prog := Filter(nrs, ourArch);
    if i == |nrs| {
      assert prog[i + 4] == Stmt(RETURN, RET_ALLOW);
    } else {
      assert prog[i + 4] == Compare(nrs, i);
      ScanUnlisted(nrs, ourArch, i + 1, call);
    }
  }
}
