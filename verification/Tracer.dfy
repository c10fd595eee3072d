/** The engine over whole runs: each stop of a traced process moves the tracee table and what the
    processes share. Stopping only at handled syscalls is the same as stopping at all of them, and it
    does not matter whether a child or its parent's fork is seen first. */
module Tracer {
  import opened Words
  import opened Syscalls
  import opened Seccomp
  import Creds
  import Bindings

  datatype Engine = Engine(tb: Tables, cfg: Config, arch: U32)

  datatype State = State(tracees: map<nat, Tracee>, shared: Shared)

  /** A stop as waitpid reports it. The registers of a syscall stop read one way at an entry, another at
      an exit; only the tracer's own state says which it is. */
  datatype Stop =
    | SyscallStop(asEntry: Syscalls.Call, asExit: Out)
    | SeccompStop(call: Syscalls.Call)
    | ForkStop(child: nat)
    | StopSignal
    | OtherSignal

  // ----- the tracee table -----

  function NewTracee(cfg: Config): Tracee {
    Tracee(Creds.Init(cfg.id.fake.uid, cfg.id.fake.gid), cfg.root, "", false, false, true,
           0, [0, 0, 0, 0, 0, 0], "", None, "", "", false, false)
  }

  function Inherit(child: Tracee, parent: Tracee): Tracee {
    child.(creds := parent.creds, exe := parent.exe, root := parent.root)
  }

  function Put(st: State, pid: nat, t: Tracee): State { st.(tracees := st.tracees[pid := t]) }

  function Lookup(e: Engine, st: State, pid: nat): State {
    if pid in st.tracees then st else Put(st, pid, NewTracee(e.cfg))
  }

  // ----- one stop -----

  function OnEntry(e: Engine, st: State, pid: nat, call: Syscalls.Call): State
    requires pid in st.tracees
  {
    var t := st.tracees[pid];
    State(st.tracees[pid := EntryTracee(e.tb, e.cfg, st.shared, t, call)], EntryShared(e.tb, e.cfg, st.shared, t, call))
  }

  function OnExit(e: Engine, st: State, pid: nat, out: Out): State
    requires pid in st.tracees
  {
    var t := st.tracees[pid];
    State(st.tracees[pid := ExitTracee(e.tb, e.cfg, t, out)], ExitShared(e.tb, e.cfg, st.shared, t, out))
  }

  function SetFlags(st: State, pid: nat, inSyscall: bool, awaitingExit: bool): State
    requires pid in st.tracees
  {
    Put(st, pid, st.tracees[pid].(inSyscall := inSyscall, awaitingExit := awaitingExit))
  }

  function HandleStop(e: Engine, seccompMode: bool, st: State, pid: nat, stop: Stop): State
    requires pid in st.tracees
  {
    var t := st.tracees[pid];
    match stop
    case SyscallStop(asEntry, asExit) =>
      if !seccompMode then
        if t.inSyscall then SetFlags(OnExit(e, st, pid, asExit), pid, false, t.awaitingExit)
        else SetFlags(OnEntry(e, st, pid, asEntry), pid, true, t.awaitingExit)
      else if t.awaitingExit then SetFlags(OnExit(e, st, pid, asExit), pid, t.inSyscall, false)
      else st
    case SeccompStop(call) => SetFlags(OnEntry(e, st, pid, call), pid, t.inSyscall, true)
    case ForkStop(child) =>
      Put(st, child, Inherit(if child in st.tracees then st.tracees[child] else NewTracee(e.cfg), t))
    case StopSignal => if t.isNew then Put(st, pid, t.(isNew := false)) else st
    case OtherSignal => st
  }

  /** The event loop's part: a process not seen before is added. */
  function Deliver(e: Engine, seccompMode: bool, st: State, pid: nat, stop: Stop): State {
    HandleStop(e, seccompMode, Lookup(e, st, pid), pid, stop)
  }

  // ----- what happens, and what of it stops -----

  /** What processes do. `arch` is the ABI a call is made by; the tracer reads its number and arguments as
      its own ABI's all the same. `refused` calls are those that another filter, a sandbox's, does not let
      through: its refusal counts for more than a TRACE. `asExit` and `asEntry` are how the registers would
      misread. */
  datatype Event =
    | Enter(pid: nat, call: Syscalls.Call, arch: U32, refused: bool, asExit: Out)
    | Leave(pid: nat, out: Out, asEntry: Syscalls.Call)
    | Fork(pid: nat, child: nat)
    | Arrive(pid: nat)
    | Signalled(pid: nat)
    | Gone(pid: nat)

  /** The numbers the filter is built from. */
  function TracedSyscalls(tb: Tables): seq<int> {
    tb.paths + seq(|tb.actions|, i requires 0 <= i < |tb.actions| => tb.actions[i].nr)
    + Listed1(tb.execve) + Listed1(tb.bind) + Listed1(tb.connect) + Listed1(tb.sendto)
  }

  function Listed1(nr: Option<U32>): seq<int> { if nr.Some? then [nr.value] else [] }

  method BuildTracedSyscalls(tb: Tables) returns (list: seq<int>)
    ensures list == TracedSyscalls(tb)
  {
    list := [];
    for i := 0 to |tb.paths|
      invariant list == tb.paths[..i]
    {
      list := list + [tb.paths[i]];
    }
    for i := 0 to |tb.actions|
      invariant list == tb.paths + seq(i, j requires 0 <= j < i => tb.actions[j].nr)
    {
      list := list + [tb.actions[i].nr];
    }
    if tb.execve.Some? { list := list + [tb.execve.value]; }
    if tb.bind.Some? { list := list + [tb.bind.value]; }
    if tb.connect.Some? { list := list + [tb.connect.value]; }
    if tb.sendto.Some? { list := list + [tb.sendto.value]; }
  }

  /** The kernel, running the filter, stops this call. */
  predicate Traced(e: Engine, nr: U32, arch: U32) {
    Execute(Filter(TracedSyscalls(e.tb), e.arch), 0, 0, Seccomp.Call(nr, arch)) == Some(RET_TRACE)
  }

  /** The engine installed its filter. */
  predicate Filtered(e: Engine) { 1 <= |TracedSyscalls(e.tb)| <= MAX_FILTERED }

  lemma {:induction false} ActionFound(entries: seq<ActionEntry>, nr: U32)
    ensures ActionOf(entries, nr).Some? <==> exists i :: 0 <= i < |entries| && entries[i].nr == nr
  {
  }

  lemma ListedIsMember(list: seq<int>, nr: U32)
    requires forall i :: 0 <= i < |list| ==> 0 <= list[i] < TWO_32
    ensures Listed(list, nr) <==> nr in list
  {
    if nr in list {
      var i :| 0 <= i < |list| && list[i] == nr;
      assert Number(list[i]) == nr;
    }
    if Listed(list, nr) {
      var i :| 0 <= i < |list| && Number(list[i]) == nr;
      assert list[i] == nr;
    }
  }

  /** The filter stops exactly the calls of the engine's own ABI that the entry and exit handlers have
      something to do for. */
  lemma {:induction false} TracedIsHandled(e: Engine, nr: U32, arch: U32)
    requires Filtered(e)
    ensures Traced(e, nr, arch) <==> arch == e.arch && Handled(e.tb, nr)
  {
    var list, tb := TracedSyscalls(e.tb), e.tb;
    FilterIsExact(list, e.arch, Seccomp.Call(nr, arch));
    ActionFound(tb.actions, nr);
    var actions := seq(|tb.actions|, i requires 0 <= i < |tb.actions| => tb.actions[i].nr);
    ListedIsMember(list, nr);
    assert nr in actions <==> ActionOf(tb.actions, nr).Some? by {
      if ActionOf(tb.actions, nr).Some? {
        var i :| 0 <= i < |tb.actions| && tb.actions[i].nr == nr;
        assert actions[i] == nr;
      }
    }
    assert nr in list <==> nr in tb.paths || nr in actions || nr in Listed1(tb.execve) || nr in Listed1(tb.bind)
                           || nr in Listed1(tb.connect) || nr in Listed1(tb.sendto);
  }

  /** Full tracing: every syscall stops twice. */
  function FullStep(e: Engine, st: State, ev: Event): State {
    match ev
    case Enter(pid, call, _, _, asExit) => Deliver(e, false, st, pid, SyscallStop(call, asExit))
    case Leave(pid, out, asEntry) => Deliver(e, false, st, pid, SyscallStop(asEntry, out))
    case Fork(pid, child) => Deliver(e, false, st, pid, ForkStop(child))
    case Arrive(pid) => Deliver(e, false, st, pid, StopSignal)
    case Signalled(pid) => Deliver(e, false, st, pid, OtherSignal)
    case Gone(pid) => st.(tracees := st.tracees - {pid})
  }

  /** Was the process last resumed so that it stops at the next syscall boundary? */
  predicate StopsNext(st: State, pid: nat) { pid in st.tracees && st.tracees[pid].awaitingExit }

  /** The fast path: the filter decides at entry, the tracer's last resume at exit. */
  function SeccompStep(e: Engine, st: State, ev: Event): State {
    match ev
    case Enter(pid, call, arch, refused, asExit) =>
      if Traced(e, call.nr, arch) && !refused then Deliver(e, true, st, pid, SeccompStop(call))
      else if StopsNext(st, pid) then Deliver(e, true, st, pid, SyscallStop(call, asExit))
      else st
    case Leave(pid, out, asEntry) =>
      if StopsNext(st, pid) then Deliver(e, true, st, pid, SyscallStop(asEntry, out)) else st
    case Fork(pid, child) => Deliver(e, true, st, pid, ForkStop(child))
    case Arrive(pid) => Deliver(e, true, st, pid, StopSignal)
    case Signalled(pid) => Deliver(e, true, st, pid, OtherSignal)
    case Gone(pid) => st.(tracees := st.tracees - {pid})
  }

  // ----- what the processes see -----

  /** The registers a call runs with; the result it is seen to return, and what it finds in memory. */
  datatype Seen = Args(args: seq<U64>) | Result(result: int, patch: Patch) | Nothing

  function Returned(e: Engine, sh: Shared, t: Tracee, out: Out): Seen {
    Result(ExitResult(e.tb, e.cfg, sh, t, out), ExitPatch(e.tb, e.cfg, sh, t, out))
  }

  function FullSees(e: Engine, st: State, ev: Event): Seen {
    match ev
    case Enter(pid, call, _, _, _) => Args(EntryArgs(e.tb, e.cfg, st.shared, Lookup(e, st, pid).tracees[pid], call))
    case Leave(pid, out, _) => Returned(e, st.shared, Lookup(e, st, pid).tracees[pid], out)
    case _ => Nothing
  }

  function SeccompSees(e: Engine, st: State, ev: Event): Seen {
    match ev
    case Enter(pid, call, arch, refused, _) =>
      if Traced(e, call.nr, arch) && !refused
      then Args(EntryArgs(e.tb, e.cfg, st.shared, Lookup(e, st, pid).tracees[pid], call))
      else Args(call.args)
    case Leave(pid, out, _) =>
      if StopsNext(st, pid) then Returned(e, st.shared, st.tracees[pid], out) else Result(out.ret, Unpatched)
    case _ => Nothing
  }

  // ----- runs -----

  /** Which processes are inside a syscall. */
  function Inside(inside: set<nat>, ev: Event): set<nat> {
    match ev
    case Enter(pid, _, _, _, _) => inside + {pid}
    case Leave(pid, _, _) => inside - {pid}
    case Gone(pid) => inside - {pid}
    case _ => inside
  }

  /** What the kernel can report: entries and exits alternate, a process is known before it makes a
      syscall, and a child is not inside one when its parent's fork is reported. */
  predicate Possible(st: State, inside: set<nat>, ev: Event) {
    match ev
    case Enter(pid, _, _, _, _) => pid in st.tracees && pid !in inside
    case Leave(pid, _, _) => pid in inside
    case Fork(pid, child) => pid in st.tracees && child != pid && child !in inside
    case _ => true
  }

  /** The filter has no say over a call of another ABI, or one that another filter refuses. */
  predicate Unseen(e: Engine, ev: Event) { ev.Enter? && (ev.arch != e.arch || ev.refused) }

  /** The modes treat this event alike: a call goes unseen only if it would be nothing to the engine
      anyway. */
  predicate Understood(e: Engine, ev: Event) { Unseen(e, ev) ==> !Handled(e.tb, ev.call.nr) }

  predicate AllUnderstood(e: Engine, events: seq<Event>) {
    forall i :: 0 <= i < |events| ==> Understood(e, events[i])
  }

  predicate PossibleRun(e: Engine, st: State, inside: set<nat>, events: seq<Event>)
    decreases |events|
  {
    events == [] || (Possible(st, inside, events[0])
                     && PossibleRun(e, FullStep(e, st, events[0]), Inside(inside, events[0]), events[1..]))
  }

  function RunFull(e: Engine, st: State, events: seq<Event>): State
    decreases |events|
  {
    if events == [] then st else RunFull(e, FullStep(e, st, events[0]), events[1..])
  }

  function RunSeccomp(e: Engine, st: State, events: seq<Event>): State
    decreases |events|
  {
    if events == [] then st else RunSeccomp(e, SeccompStep(e, st, events[0]), events[1..])
  }

  function FullRunSees(e: Engine, st: State, events: seq<Event>): seq<Seen>
    decreases |events|
  {
    if events == [] then [] else [FullSees(e, st, events[0])] + FullRunSees(e, FullStep(e, st, events[0]), events[1..])
  }

  function SeccompRunSees(e: Engine, st: State, events: seq<Event>): seq<Seen>
    decreases |events|
  {
    if events == [] then []
    else [SeccompSees(e, st, events[0])] + SeccompRunSees(e, SeccompStep(e, st, events[0]), events[1..])
  }

  // ----- the fast path refines full tracing -----

  /** The same tracee, but for where the tracer takes it to be. */
  predicate SameBut(a: Tracee, b: Tracee) {
    a.(inSyscall := b.inSyscall, awaitingExit := b.awaitingExit) == b
  }

  /** A process under full tracing and on the fast path: inside a handled call the two tracees are the
      same; inside another, the full one is about to do nothing and the fast one is not waiting. */
  predicate Matches(tb: Tables, full: Tracee, fast: Tracee, inside: bool) {
    && SameLasting(full, fast)
    && full.inSyscall == inside && (fast.awaitingExit ==> inside)
    && (inside ==> if fast.awaitingExit then SameBut(full, fast) else Quiet(tb, full))
  }

  ghost predicate Similar(e: Engine, full: State, fast: State, inside: set<nat>) {
    && full.shared == fast.shared && full.tracees.Keys == fast.tracees.Keys && inside <= full.tracees.Keys
    && forall p :: p in full.tracees ==> Matches(e.tb, full.tracees[p], fast.tracees[p], p in inside)
  }

  /** Replacing the tracee of one process, on both sides, by matching ones. */
  lemma SimilarPut(e: Engine, full: State, fast: State, inside: set<nat>, full': State, fast': State, inside': set<nat>,
                   pid: nat, a: Tracee, b: Tracee)
    requires Similar(e, full, fast, inside)
    requires full'.tracees == full.tracees[pid := a] && fast'.tracees == fast.tracees[pid := b]
    requires full'.shared == fast'.shared
    requires inside' == inside + {pid} || inside' == inside - {pid}
    requires Matches(e.tb, a, b, pid in inside')
    ensures Similar(e, full', fast', inside')
  {
  }

  lemma FullEnter(e: Engine, st: State, ev: Event, a: Tracee)
    requires ev.Enter? && ev.pid in st.tracees && !st.tracees[ev.pid].inSyscall
    requires a == EntryTracee(e.tb, e.cfg, st.shared, st.tracees[ev.pid], ev.call).(inSyscall := true)
    ensures FullStep(e, st, ev)
         == State(st.tracees[ev.pid := a], EntryShared(e.tb, e.cfg, st.shared, st.tracees[ev.pid], ev.call))
  {
  }

  lemma FastEnter(e: Engine, st: State, ev: Event, a: Tracee)
    requires ev.Enter? && ev.pid in st.tracees && !st.tracees[ev.pid].awaitingExit
    requires a == EntryTracee(e.tb, e.cfg, st.shared, st.tracees[ev.pid], ev.call).(awaitingExit := true)
    ensures SeccompStep(e, st, ev)
         == if Traced(e, ev.call.nr, ev.arch) && !ev.refused
            then State(st.tracees[ev.pid := a], EntryShared(e.tb, e.cfg, st.shared, st.tracees[ev.pid], ev.call))
            else State(st.tracees[ev.pid := st.tracees[ev.pid]], st.shared)
  {
  }

  lemma {:induction false} EnterKeepsSimilar(e: Engine, full: State, fast: State, inside: set<nat>, ev: Event)
    requires Filtered(e) && Similar(e, full, fast, inside) && Possible(full, inside, ev)
    requires ev.Enter? && Understood(e, ev)
    ensures Similar(e, FullStep(e, full, ev), SeccompStep(e, fast, ev), Inside(inside, ev))
  {
    var pid, call := ev.pid, ev.call;
    var t, u := full.tracees[pid], fast.tracees[pid];
    TracedIsHandled(e, call.nr, ev.arch);
    assert Matches(e.tb, t, u, false);
    var a := EntryTracee(e.tb, e.cfg, full.shared, t, call).(inSyscall := true);
    var b := EntryTracee(e.tb, e.cfg, full.shared, u, call).(awaitingExit := true);
    var full', fast' := FullStep(e, full, ev), SeccompStep(e, fast, ev);
    FullEnter(e, full, ev, a);
    FastEnter(e, fast, ev, b);
    EntryForgets(e.tb, e.cfg, full.shared, t, u, call);
    if !Handled(e.tb, call.nr) { UnhandledLeavesNoTrace(e.tb, e.cfg, full.shared, t, call); }
    SimilarPut(e, full, fast, inside, full', fast', inside + {pid}, pid, a, fast'.tracees[pid]);
  }

  lemma {:induction false} EnterSeesTheSame(e: Engine, full: State, fast: State, inside: set<nat>, ev: Event)
    requires Filtered(e) && Similar(e, full, fast, inside) && Possible(full, inside, ev)
    requires ev.Enter? && Understood(e, ev)
    requires Handled(e.tb, ev.call.nr) || e.tb.execveat != Some(ev.call.nr)
    ensures FullSees(e, full, ev) == SeccompSees(e, fast, ev)
  {
    var t, u := full.tracees[ev.pid], fast.tracees[ev.pid];
    TracedIsHandled(e, ev.call.nr, ev.arch);
    assert Matches(e.tb, t, u, false);
    if Handled(e.tb, ev.call.nr) { EntryForgets(e.tb, e.cfg, full.shared, t, u, ev.call); }
    else { UnhandledLeavesNoTrace(e.tb, e.cfg, full.shared, t, ev.call); }
  }

  /** The exit of a call that was waited for, on both sides; and of one that was not. */
  lemma LeaveMatches(e: Engine, sh: Shared, t: Tracee, u: Tracee, out: Out)
    requires Matches(e.tb, t, u, true)
    ensures var a := ExitTracee(e.tb, e.cfg, t, out).(inSyscall := false);
            if u.awaitingExit then
              Matches(e.tb, a, ExitTracee(e.tb, e.cfg, u, out).(awaitingExit := false), false)
              && ExitShared(e.tb, e.cfg, sh, t, out) == ExitShared(e.tb, e.cfg, sh, u, out)
            else Matches(e.tb, a, u, false) && ExitShared(e.tb, e.cfg, sh, t, out) == sh
  {
    if u.awaitingExit { ExitIgnoresFlags(e.tb, e.cfg, sh, t, u, out); } else { QuietExit(e.tb, e.cfg, sh, t, out); }
  }

  lemma FullLeave(e: Engine, st: State, pid: nat, out: Out, asEntry: Syscalls.Call)
    requires pid in st.tracees && st.tracees[pid].inSyscall
    ensures var t := st.tracees[pid];
            FullStep(e, st, Leave(pid, out, asEntry))
            == State(st.tracees[pid := ExitTracee(e.tb, e.cfg, t, out).(inSyscall := false)],
                     ExitShared(e.tb, e.cfg, st.shared, t, out))
  {
  }

  lemma FastLeave(e: Engine, st: State, pid: nat, out: Out, asEntry: Syscalls.Call)
    requires pid in st.tracees
    ensures var t := st.tracees[pid];
            SeccompStep(e, st, Leave(pid, out, asEntry))
            == if t.awaitingExit
               then State(st.tracees[pid := ExitTracee(e.tb, e.cfg, t, out).(awaitingExit := false)],
                          ExitShared(e.tb, e.cfg, st.shared, t, out))
               else State(st.tracees[pid := t], st.shared)
  {
  }

  lemma {:induction false} LeaveKeepsSimilar(e: Engine, full: State, fast: State, inside: set<nat>, ev: Event)
    requires Filtered(e) && ev.Leave? && Similar(e, full, fast, inside) && Possible(full, inside, ev)
    ensures Similar(e, FullStep(e, full, ev), SeccompStep(e, fast, ev), Inside(inside, ev))
  {
    var pid, out := ev.pid, ev.out;
    var t, u := full.tracees[pid], fast.tracees[pid];
    assert Matches(e.tb, t, u, true);
    LeaveMatches(e, full.shared, t, u, out);
    FullLeave(e, full, pid, out, ev.asEntry);
    FastLeave(e, fast, pid, out, ev.asEntry);
    var full', fast' := FullStep(e, full, ev), SeccompStep(e, fast, ev);
    SimilarPut(e, full, fast, inside, full', fast', inside - {pid}, pid, full'.tracees[pid], fast'.tracees[pid]);
  }

  lemma {:induction false} LeaveSeesTheSame(e: Engine, full: State, fast: State, inside: set<nat>, ev: Event)
    requires ev.Leave? && Similar(e, full, fast, inside) && Possible(full, inside, ev)
    ensures FullSees(e, full, ev) == SeccompSees(e, fast, ev)
  {
    var t, u := full.tracees[ev.pid], fast.tracees[ev.pid];
    assert Matches(e.tb, t, u, true);
    if u.awaitingExit { ExitIgnoresFlags(e.tb, e.cfg, full.shared, t, u, ev.out); }
    else { QuietExit(e.tb, e.cfg, full.shared, t, ev.out); }
  }

  /** A process not seen before is added the same way on both sides. */
  lemma LookupSimilar(e: Engine, full: State, fast: State, inside: set<nat>, pid: nat)
    requires Similar(e, full, fast, inside)
    ensures Similar(e, Lookup(e, full, pid), Lookup(e, fast, pid), inside)
  {
  }

  lemma {:induction false} ForkKeepsSimilar(e: Engine, full: State, fast: State, inside: set<nat>, pid: nat, child: nat)
    requires Similar(e, full, fast, inside) && pid in full.tracees && child != pid && child !in inside
    ensures Similar(e, HandleStop(e, false, full, pid, ForkStop(child)),
                    HandleStop(e, true, fast, pid, ForkStop(child)), inside)
  {
    assert Matches(e.tb, full.tracees[pid], fast.tracees[pid], pid in inside);
    if child in full.tracees { assert Matches(e.tb, full.tracees[child], fast.tracees[child], false); }
    var f, g := HandleStop(e, false, full, pid, ForkStop(child)), HandleStop(e, true, fast, pid, ForkStop(child));
    assert inside - {child} == inside;
    SimilarPut(e, full, fast, inside, f, g, inside, child, f.tracees[child], g.tracees[child]);
  }

  lemma ArriveKeepsSimilar(e: Engine, full: State, fast: State, inside: set<nat>, pid: nat)
    requires Similar(e, full, fast, inside) && pid in full.tracees
    ensures Similar(e, HandleStop(e, false, full, pid, StopSignal), HandleStop(e, true, fast, pid, StopSignal), inside)
  {
    assert Matches(e.tb, full.tracees[pid], fast.tracees[pid], pid in inside);
  }

  lemma {:induction false} OtherKeepsSimilar(e: Engine, full: State, fast: State, inside: set<nat>, ev: Event)
    requires !ev.Enter? && !ev.Leave? && Similar(e, full, fast, inside) && Possible(full, inside, ev)
    ensures Similar(e, FullStep(e, full, ev), SeccompStep(e, fast, ev), Inside(inside, ev))
  {
    LookupSimilar(e, full, fast, inside, ev.pid);
    match ev
    case Fork(pid, child) => ForkKeepsSimilar(e, full, fast, inside, pid, child);
    case Arrive(pid) => ArriveKeepsSimilar(e, Lookup(e, full, pid), Lookup(e, fast, pid), inside, pid);
    case Signalled(pid) =>
    case Gone(pid) =>
  }

  lemma {:induction false} StepKeepsSimilar(e: Engine, full: State, fast: State, inside: set<nat>, ev: Event)
    requires Filtered(e) && Understood(e, ev) && Similar(e, full, fast, inside) && Possible(full, inside, ev)
    ensures Similar(e, FullStep(e, full, ev), SeccompStep(e, fast, ev), Inside(inside, ev))
    ensures FullSees(e, full, ev) == SeccompSees(e, fast, ev) || (ev.Enter? && e.tb.execveat == Some(ev.call.nr))
  {
    if ev.Enter? {
      EnterKeepsSimilar(e, full, fast, inside, ev);
      if e.tb.execveat != Some(ev.call.nr) { EnterSeesTheSame(e, full, fast, inside, ev); }
    } else if ev.Leave? {
      LeaveKeepsSimilar(e, full, fast, inside, ev);
      LeaveSeesTheSame(e, full, fast, inside, ev);
    } else {
      OtherKeepsSimilar(e, full, fast, inside, ev);
    }
  }

  /** Over every run of understood calls, each process's credentials, root and program, the ownership
      table and the bindings are the same under full tracing and on the fast path, and so are the
      registers every call runs with, but for those of an execveat, the results, and the ids, groups and
      owners written to memory. */
  lemma {:induction false} FastPathRefinesFullTracing(e: Engine, full: State, fast: State, inside: set<nat>,
                                                      events: seq<Event>)
    requires Filtered(e) && Similar(e, full, fast, inside)
    requires PossibleRun(e, full, inside, events) && AllUnderstood(e, events)
    ensures var a, b := RunFull(e, full, events), RunSeccomp(e, fast, events);
            a.shared == b.shared && a.tracees.Keys == b.tracees.Keys
            && forall p :: p in a.tracees ==> SameLasting(a.tracees[p], b.tracees[p])
    ensures var a, b := FullRunSees(e, full, events), SeccompRunSees(e, fast, events);
            |a| == |b| == |events|
            && forall i :: 0 <= i < |events| ==>
                 a[i] == b[i] || (events[i].Enter? && e.tb.execveat == Some(events[i].call.nr))
    decreases |events|
  {
    if events == [] {
      forall p | p in full.tracees ensures SameLasting(full.tracees[p], fast.tracees[p]) {
        assert Matches(e.tb, full.tracees[p], fast.tracees[p], p in inside);
      }
    } else {
      var ev := events[0];
      StepKeepsSimilar(e, full, fast, inside, ev);
      FastPathRefinesFullTracing(e, FullStep(e, full, ev), SeccompStep(e, fast, ev), Inside(inside, ev), events[1..]);
    }
  }

  /** The engine starts with one process, in its root, not in a syscall. */
  function Start(e: Engine, first: nat, shared: Shared): State {
    State(map[first := NewTracee(e.cfg).(isNew := false)], shared)
  }

  lemma FastPathRefinesFromStart(e: Engine, first: nat, shared: Shared, events: seq<Event>)
    requires Filtered(e) && PossibleRun(e, Start(e, first, shared), {}, events) && AllUnderstood(e, events)
    ensures var st := Start(e, first, shared);
            var a, b := RunFull(e, st, events), RunSeccomp(e, st, events);
            a.shared == b.shared && a.tracees.Keys == b.tracees.Keys
            && (forall p :: p in a.tracees ==> SameLasting(a.tracees[p], b.tracees[p]))
            && ((forall i :: 0 <= i < |events| && events[i].Enter? ==> e.tb.execveat != Some(events[i].call.nr)) ==>
                  FullRunSees(e, st, events) == SeccompRunSees(e, st, events))
    ensures var x := FullRunSees(e, Start(e, first, shared), events);
            var y := SeccompRunSees(e, Start(e, first, shared), events);
            |x| == |y| == |events| && forall i :: 0 <= i < |events| ==> x[i] == y[i] || events[i].Enter?
  {
    var st := Start(e, first, shared);
    assert Similar(e, st, st, {});
    FastPathRefinesFullTracing(e, st, st, {}, events);
  }

  /** The exception: an execveat the filter does not stop runs with its own registers on the fast path,
      with redirected ones under full tracing. */
  lemma ExecveatIsMissed(e: Engine, st: State, ev: Event)
    requires Filtered(e) && ev.Enter? && ev.pid in st.tracees
    requires e.tb.execveat == Some(ev.call.nr) && !Handled(e.tb, ev.call.nr)
    ensures SeccompSees(e, st, ev) == Args(ev.call.args)
    ensures FullSees(e, st, ev) == Args(ev.call.look.redirect(ViewOf(st.tracees[ev.pid], st.shared), ev.call.args))
  {
    TracedIsHandled(e, ev.call.nr, ev.arch);
  }

  // ----- calls the filter has no say over -----

  /** An unseen call, from its entry to its exit: on the fast path nothing happens. */
  lemma UnseenOnFastPath(e: Engine, st: State, ev: Event, leave: Event)
    requires Filtered(e) && Unseen(e, ev) && ev.pid in st.tracees && !st.tracees[ev.pid].awaitingExit
    requires leave.Leave? && leave.pid == ev.pid
    ensures RunSeccomp(e, st, [ev, leave]) == st
    ensures SeccompRunSees(e, st, [ev, leave]) == [Args(ev.call.args), Result(leave.out.ret, Unpatched)]
  {
    TracedIsHandled(e, ev.call.nr, ev.arch);
    assert [ev, leave][1..] == [leave] && [leave][1..] == [];
    assert RunSeccomp(e, st, [leave]) == RunSeccomp(e, st, []) == st;
    assert SeccompRunSees(e, st, [leave]) == [SeccompSees(e, st, leave)];
  }

  /** Full tracing enters and leaves it, as it does every call. */
  lemma CallInFull(e: Engine, st: State, ev: Event, leave: Event)
    requires ev.Enter? && ev.pid in st.tracees && !st.tracees[ev.pid].inSyscall
    requires leave.Leave? && leave.pid == ev.pid
    ensures var tb, cfg, t := e.tb, e.cfg, st.tracees[ev.pid];
            var u := EntryTracee(tb, cfg, st.shared, t, ev.call).(inSyscall := true);
            var sh := EntryShared(tb, cfg, st.shared, t, ev.call);
            var x := ExitTracee(tb, cfg, u, leave.out).(inSyscall := false);
            && RunFull(e, st, [ev, leave]) == State(st.tracees[ev.pid := x], ExitShared(tb, cfg, sh, u, leave.out))
            && FullRunSees(e, st, [ev, leave])
               == [Args(EntryArgs(tb, cfg, st.shared, t, ev.call)), Returned(e, sh, u, leave.out)]
  {
    var u := EntryTracee(e.tb, e.cfg, st.shared, st.tracees[ev.pid], ev.call).(inSyscall := true);
    FullEnter(e, st, ev, u);
    var mid := FullStep(e, st, ev);
    assert mid.tracees[ev.pid] == u;
    FullLeave(e, mid, ev.pid, leave.out, leave.asEntry);
    assert [ev, leave][1..] == [leave] && [leave][1..] == [];
    var end := FullStep(e, mid, leave);
    assert RunFull(e, mid, [leave]) == RunFull(e, end, []) == end;
    assert FullRunSees(e, mid, [leave]) == [FullSees(e, mid, leave)];
  }

  /** So the two modes are in step again after the call exactly if full tracing changed no credentials, no
      root or program of the process, no owner and no binding. */
  lemma {:induction false} UnseenCallsDivergeIff(e: Engine, full: State, fast: State, inside: set<nat>, ev: Event,
                                                 out: Out, asEntry: Syscalls.Call)
    requires Filtered(e) && Similar(e, full, fast, inside) && Possible(full, inside, ev) && Unseen(e, ev)
    ensures var run := [ev, Leave(ev.pid, out, asEntry)];
            var a, b := RunFull(e, full, run), RunSeccomp(e, fast, run);
            Similar(e, a, b, inside)
            <==> a.shared == full.shared
                 && ev.pid in a.tracees && SameLasting(a.tracees[ev.pid], full.tracees[ev.pid])
  {
    var pid := ev.pid;
    var t, u := full.tracees[pid], fast.tracees[pid];
    assert Matches(e.tb, t, u, false);
    UnseenOnFastPath(e, fast, ev, Leave(pid, out, asEntry));
    CallInFull(e, full, ev, Leave(pid, out, asEntry));
    var a := RunFull(e, full, [ev, Leave(pid, out, asEntry)]);
    var x := a.tracees[pid];
    assert inside - {pid} == inside && fast.tracees == fast.tracees[pid := u];
    if a.shared == full.shared && SameLasting(x, t) {
      SimilarPut(e, full, fast, inside, a, fast, inside, pid, x, u);
    }
    if Similar(e, a, fast, inside) { assert Matches(e.tb, x, u, false); }
  }

  /** In the middle of the call they are in step exactly if it is not one of the calls faked at their exit
      and no creation is noted. */
  lemma {:induction false} UnseenEntriesDivergeIff(e: Engine, full: State, fast: State, inside: set<nat>, ev: Event)
    requires Filtered(e) && Similar(e, full, fast, inside) && Possible(full, inside, ev) && Unseen(e, ev)
    ensures Similar(e, FullStep(e, full, ev), SeccompStep(e, fast, ev), Inside(inside, ev))
       <==> ActionOf(e.tb.actions, ev.call.nr).None?
            && EntryTracee(e.tb, e.cfg, full.shared, full.tracees[ev.pid], ev.call).created == ""
  {
    var pid, call := ev.pid, ev.call;
    var t, u := full.tracees[pid], fast.tracees[pid];
    TracedIsHandled(e, call.nr, ev.arch);
    assert Matches(e.tb, t, u, false);
    var a := EntryTracee(e.tb, e.cfg, full.shared, t, call).(inSyscall := true);
    FullEnter(e, full, ev, a);
    var full' := FullStep(e, full, ev);
    assert fast.tracees == fast.tracees[pid := u];
    if Quiet(e.tb, a) {
      assert EntryShared(e.tb, e.cfg, full.shared, t, call) == full.shared;
      SimilarPut(e, full, fast, inside, full', fast, inside + {pid}, pid, a, u);
    }
    if Similar(e, full', fast, inside + {pid}) { assert Matches(e.tb, full'.tracees[pid], fast.tracees[pid], true); }
  }

  /** A foreign call: with the number of our setuid, it drops root under full tracing only. */
  lemma {:induction false} ForeignSetUidDiffers(e: Engine, st: State, ev: Event, out: Out, asEntry: Syscalls.Call)
    requires Filtered(e) && ev.Enter? && ev.arch != e.arch
    requires e.cfg.hasFakeIds && ActionOf(e.tb.actions, ev.call.nr) == Some(Action.SetUid)
    requires ev.pid in st.tracees && !st.tracees[ev.pid].inSyscall && !st.tracees[ev.pid].awaitingExit
    requires st.tracees[ev.pid].creds.Privileged() && Low32(ev.call.args[0]) !in {0, NOID}
    ensures var run := [ev, Leave(ev.pid, out, asEntry)];
            var a, b := RunFull(e, st, run), RunSeccomp(e, st, run);
            && ev.pid in a.tracees && a.tracees[ev.pid].creds.Dropped()
            && b == st && b.tracees[ev.pid].creds.Privileged()
  {
    UnseenOnFastPath(e, st, ev, Leave(ev.pid, out, asEntry));
    CallInFull(e, st, ev, Leave(ev.pid, out, asEntry));
  }

  /** A refused call: a mount that a sandbox does not let through works under full tracing only. */
  lemma {:induction false} RefusedMountDiffers(e: Engine, st: State, ev: Event, out: Out, asEntry: Syscalls.Call)
    requires Filtered(e) && ev.Enter? && ev.refused && out.ret < 0
    requires e.cfg.hasFakeIds && ActionOf(e.tb.actions, ev.call.nr) == Some(Action.Mount)
    requires ev.pid in st.tracees && !st.tracees[ev.pid].inSyscall && !st.tracees[ev.pid].awaitingExit
    requires st.tracees[ev.pid].creds.Privileged() && |st.shared.bindings| < Bindings.MAX_BINDINGS
    requires var view := ViewOf(st.tracees[ev.pid], st.shared);
             ev.call.look.mountTarget(view).Some? && ev.call.look.mountSource(view).Some?
    ensures var run := [ev, Leave(ev.pid, out, asEntry)];
            var a, b := RunFull(e, st, run), RunSeccomp(e, st, run);
            var x, y := FullRunSees(e, st, run), SeccompRunSees(e, st, run);
            && |a.shared.bindings| == |st.shared.bindings| + 1 && b == st
            && |x| == |y| == 2 && x[1] == Result(0, Unpatched) && y[1] == Result(out.ret, Unpatched)
  {
    UnseenOnFastPath(e, st, ev, Leave(ev.pid, out, asEntry));
    CallInFull(e, st, ev, Leave(ev.pid, out, asEntry));
  }

  // ----- a child and its parent's fork, in either order -----

  datatype Delivery = Delivery(pid: nat, stop: Stop)

  function RunStops(e: Engine, mode: bool, st: State, stops: seq<Delivery>): State
    decreases |stops|
  {
    if stops == [] then st else RunStops(e, mode, Deliver(e, mode, st, stops[0].pid, stops[0].stop), stops[1..])
  }

  /** Stops of processes other than these two, which do not create either of them. */
  predicate Apart(stops: seq<Delivery>, parent: nat, child: nat) {
    forall i :: 0 <= i < |stops| ==>
      stops[i].pid !in {parent, child} && (stops[i].stop.ForkStop? ==> stops[i].stop.child !in {parent, child})
  }

  lemma PutsCommute(st: State, q: nat, x: Tracee, child: nat, t: Tracee)
    requires q != child
    ensures Put(Put(st, q, x), child, t) == Put(Put(st, child, t), q, x)
  {
    assert st.tracees[q := x][child := t] == st.tracees[child := t][q := x];
  }

  /** A stop that is not a fork changes its own process, from what that process and all share. */
  lemma OwnStop(e: Engine, mode: bool, st: State, q: nat, stop: Stop, child: nat, t: Tracee)
    requires q in st.tracees && q != child && !stop.ForkStop?
    ensures var x, y := HandleStop(e, mode, st, q, stop), HandleStop(e, mode, Put(st, child, t), q, stop);
            && x == Put(st.(shared := x.shared), q, x.tracees[q])
            && y == Put(Put(st.(shared := x.shared), child, t), q, x.tracees[q])
  {
    var with := Put(st, child, t);
    assert with.tracees[q] == st.tracees[q] && with.shared == st.shared;
    assert st.tracees[q := st.tracees[q]] == st.tracees && with.tracees[q := st.tracees[q]] == with.tracees;
  }

  /** A stop of one process does not look at another, unless it creates it. */
  lemma StopApart(e: Engine, mode: bool, st: State, q: nat, stop: Stop, child: nat, t: Tracee)
    requires q in st.tracees && q != child && (stop.ForkStop? ==> stop.child != child)
    ensures HandleStop(e, mode, Put(st, child, t), q, stop) == Put(HandleStop(e, mode, st, q, stop), child, t)
  {
    if stop.ForkStop? {
      var c := if stop.child in st.tracees then st.tracees[stop.child] else NewTracee(e.cfg);
      PutsCommute(st, stop.child, Inherit(c, st.tracees[q]), child, t);
    } else {
      var x := HandleStop(e, mode, st, q, stop);
      OwnStop(e, mode, st, q, stop, child, t);
      PutsCommute(st.(shared := x.shared), q, x.tracees[q], child, t);
    }
  }

  lemma DeliverApart(e: Engine, mode: bool, st: State, q: nat, stop: Stop, child: nat, t: Tracee)
    requires q != child && (stop.ForkStop? ==> stop.child != child)
    ensures Deliver(e, mode, Put(st, child, t), q, stop) == Put(Deliver(e, mode, st, q, stop), child, t)
  {
    StopApart(e, mode, Lookup(e, st, q), q, stop, child, t);
    if q !in st.tracees {
      assert st.tracees[child := t][q := NewTracee(e.cfg)] == st.tracees[q := NewTracee(e.cfg)][child := t];
    }
    assert Lookup(e, Put(st, child, t), q) == Put(Lookup(e, st, q), child, t);
  }

  lemma DeliverKeepsOthers(e: Engine, mode: bool, st: State, q: nat, stop: Stop, other: nat)
    requires q != other && (stop.ForkStop? ==> stop.child != other) && other in st.tracees
    ensures other in Deliver(e, mode, st, q, stop).tracees
    ensures Deliver(e, mode, st, q, stop).tracees[other] == st.tracees[other]
  {
  }

  lemma {:induction false} ApartFromChild(e: Engine, mode: bool, st: State, stops: seq<Delivery>, parent: nat,
                                          child: nat, t: Tracee)
    requires Apart(stops, parent, child) && parent != child && parent in st.tracees
    ensures RunStops(e, mode, Put(st, child, t), stops) == Put(RunStops(e, mode, st, stops), child, t)
    ensures var after := RunStops(e, mode, st, stops).tracees;
            parent in after && after[parent] == st.tracees[parent]
    decreases |stops|
  {
    if stops != [] {
      var q, stop := stops[0].pid, stops[0].stop;
      var next := Deliver(e, mode, st, q, stop);
      assert q !in {parent, child};
      DeliverApart(e, mode, st, q, stop, child, t);
      DeliverKeepsOthers(e, mode, st, q, stop, parent);
      ApartFromChild(e, mode, next, stops[1..], parent, child, t);
    }
  }

  /** Whether the child's first stop or its parent's fork is reported first, with any stops of other
      processes in between, the same table results, and the child has what its parent had. */
  lemma {:induction false} ForkOrderDoesNotMatter(e: Engine, mode: bool, st: State, parent: nat, child: nat,
                                                  between: seq<Delivery>)
    requires parent in st.tracees && child !in st.tracees && parent != child && Apart(between, parent, child)
    ensures var forkFirst := RunStops(e, mode, Deliver(e, mode, st, parent, ForkStop(child)), between);
            var childFirst := RunStops(e, mode, Deliver(e, mode, st, child, StopSignal), between);
            var a := Deliver(e, mode, forkFirst, child, StopSignal);
            var b := Deliver(e, mode, childFirst, parent, ForkStop(child));
            a == b && child in a.tracees && !a.tracees[child].isNew
            && a.tracees[child].creds == st.tracees[parent].creds && a.tracees[child].root == st.tracees[parent].root
            && a.tracees[child].exe == st.tracees[parent].exe
  {
    var p, c := st.tracees[parent], NewTracee(e.cfg);
    ApartFromChild(e, mode, st, between, parent, child, Inherit(c, p));
    ApartFromChild(e, mode, st, between, parent, child, c.(isNew := false));
    var rest := RunStops(e, mode, st, between);
    var arrived := Put(Put(st, child, c), child, c.(isNew := false));
    assert arrived == Put(st, child, c.(isNew := false));
    assert Deliver(e, mode, st, parent, ForkStop(child)) == Put(st, child, Inherit(c, p));
    assert Deliver(e, mode, st, child, StopSignal) == Put(st, child, c.(isNew := false));
    var done := Inherit(c, p).(isNew := false);
    assert Put(Put(rest, child, Inherit(c, p)), child, done) == Put(rest, child, done);
    assert Put(Put(rest, child, c.(isNew := false)), child, done) == Put(rest, child, done);
  }
}
