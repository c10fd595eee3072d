/** Credentials from one call to a later one, over runs of the engine: what a process sets is what it reads
    back, whatever happens in between, in both tracing modes. */
module IdentityRuns {
  import opened Words
  import opened Syscalls
  import opened Emulation
  import Creds
  import Tracer

  /** Entries and exits are told apart: the flag of each process says whether it is in a call. */
  ghost predicate Flagged(st: Tracer.State, inside: set<nat>) {
    inside <= st.tracees.Keys && forall p :: p in st.tracees ==> st.tracees[p].inSyscall == (p in inside)
  }

  /** The call a process is in is none that sets ids. */
  predicate NotSetting(e: Tracer.Engine, t: Tracee) {
    var action := ActionOf(e.tb.actions, t.sysno);
    action.Some? ==> !SetsIds(action.value)
  }

  /** Events that leave the ids of `pid` alone: all but its own set*id calls, its death, and a fork that is
      reported to have made it. */
  predicate LeavesIds(e: Tracer.Engine, pid: nat, ev: Tracer.Event) {
    match ev
    case Enter(p, call, _, _, _) =>
      var action := ActionOf(e.tb.actions, call.nr);
      p == pid && action.Some? ==> !SetsIds(action.value)
    case Fork(_, child) => child != pid
    case Gone(p) => p != pid
    case _ => true
  }

  ghost predicate Holds(e: Tracer.Engine, st: Tracer.State, inside: set<nat>, pid: nat, c: Creds.State) {
    && Flagged(st, inside) && pid in st.tracees && st.tracees[pid].creds == c
    && (pid in inside ==> NotSetting(e, st.tracees[pid]))
  }

  lemma NoCredsCall(action: Action, args: Registers, out: Out)
    requires !SetsIds(action)
    ensures CredsCall(action, args, out).None?
  {
  }

  lemma {:induction false} StepHolds(e: Tracer.Engine, st: Tracer.State, inside: set<nat>, pid: nat, c: Creds.State,
                                     ev: Tracer.Event)
    requires Holds(e, st, inside, pid, c) && Tracer.Possible(st, inside, ev) && LeavesIds(e, pid, ev)
    ensures Holds(e, Tracer.FullStep(e, st, ev), Tracer.Inside(inside, ev), pid, c)
  {
    if ev.Enter? {
      var t := st.tracees[ev.pid];
      Tracer.FullEnter(e, st, ev, EntryTracee(e.tb, e.cfg, st.shared, t, ev.call).(inSyscall := true));
    } else if ev.Leave? {
      var t := st.tracees[ev.pid];
      Tracer.FullLeave(e, st, ev.pid, ev.out, ev.asEntry);
      var action := ActionOf(e.tb.actions, t.sysno);
      if ev.pid == pid && action.Some? { NoCredsCall(action.value, t.args, ev.out); }
    }
  }

  lemma {:induction false} RunHolds(e: Tracer.Engine, st: Tracer.State, inside: set<nat>, pid: nat, c: Creds.State,
                                    events: seq<Tracer.Event>)
    requires Holds(e, st, inside, pid, c) && Tracer.PossibleRun(e, st, inside, events)
    requires forall i :: 0 <= i < |events| ==> LeavesIds(e, pid, events[i])
    ensures pid in Tracer.RunFull(e, st, events).tracees && Tracer.RunFull(e, st, events).tracees[pid].creds == c
    decreases |events|
  {
    if events != [] {
      StepHolds(e, st, inside, pid, c, events[0]);
      RunHolds(e, Tracer.FullStep(e, st, events[0]), Tracer.Inside(inside, events[0]), pid, c, events[1..]);
    }
  }

  // ----- runs in parts -----

  lemma {:induction false} RunInParts(e: Tracer.Engine, st: Tracer.State, a: seq<Tracer.Event>, b: seq<Tracer.Event>)
    ensures Tracer.RunFull(e, st, a + b) == Tracer.RunFull(e, Tracer.RunFull(e, st, a), b)
    ensures Tracer.FullRunSees(e, st, a + b)
         == Tracer.FullRunSees(e, st, a) + Tracer.FullRunSees(e, Tracer.RunFull(e, st, a), b)
    decreases |a|
  {
    if a == [] {
      assert a + b == b;
    } else {
      assert (a + b)[1..] == a[1..] + b;
      RunInParts(e, Tracer.FullStep(e, st, a[0]), a[1..], b);
    }
  }

  /** A process sets ids, other things happen that leave them alone, and it reads them. */
  predicate SetThenRead(e: Tracer.Engine, pid: nat, set1: seq<Tracer.Event>, between: seq<Tracer.Event>,
                        read: seq<Tracer.Event>, action: Action, reading: Action)
  {
    && |set1| == |read| == 2
    && set1[0].Enter? && set1[1].Leave? && set1[0].pid == set1[1].pid == pid
    && read[0].Enter? && read[1].Leave? && read[0].pid == read[1].pid == pid
    && ActionOf(e.tb.actions, set1[0].call.nr) == Some(action) && set1[0].call.nr !in e.tb.paths
    && ActionOf(e.tb.actions, read[0].call.nr) == Some(reading) && Reads(reading)
    && forall i :: 0 <= i < |between| ==> LeavesIds(e, pid, between[i])
  }

  function InsideAfter(inside: set<nat>, events: seq<Tracer.Event>): set<nat>
    decreases |events|
  {
    if events == [] then inside else InsideAfter(Tracer.Inside(inside, events[0]), events[1..])
  }

  lemma {:induction false} PossibleParts(e: Tracer.Engine, st: Tracer.State, inside: set<nat>, a: seq<Tracer.Event>,
                                         b: seq<Tracer.Event>)
    requires Tracer.PossibleRun(e, st, inside, a + b)
    ensures Tracer.PossibleRun(e, st, inside, a)
    ensures Tracer.PossibleRun(e, Tracer.RunFull(e, st, a), InsideAfter(inside, a), b)
    decreases |a|
  {
    if a == [] {
      assert a + b == b;
    } else {
      assert (a + b)[1..] == a[1..] + b;
      PossibleParts(e, Tracer.FullStep(e, st, a[0]), Tracer.Inside(inside, a[0]), a[1..], b);
    }
  }

  lemma {:induction false} RunFlagged(e: Tracer.Engine, st: Tracer.State, inside: set<nat>, events: seq<Tracer.Event>)
    requires Flagged(st, inside) && Tracer.PossibleRun(e, st, inside, events)
    ensures Flagged(Tracer.RunFull(e, st, events), InsideAfter(inside, events))
    decreases |events|
  {
    if events != [] {
      StepFlagged(e, st, inside, events[0]);
      RunFlagged(e, Tracer.FullStep(e, st, events[0]), Tracer.Inside(inside, events[0]), events[1..]);
    }
  }

  lemma {:induction false} StepFlagged(e: Tracer.Engine, st: Tracer.State, inside: set<nat>, ev: Tracer.Event)
    requires Flagged(st, inside) && Tracer.Possible(st, inside, ev)
    ensures Flagged(Tracer.FullStep(e, st, ev), Tracer.Inside(inside, ev))
  {
    if ev.Enter? {
      var t := st.tracees[ev.pid];
      Tracer.FullEnter(e, st, ev, EntryTracee(e.tb, e.cfg, st.shared, t, ev.call).(inSyscall := true));
    } else if ev.Leave? {
      Tracer.FullLeave(e, st, ev.pid, ev.out, ev.asEntry);
    }
  }

  lemma {:induction false} SeesEach(e: Tracer.Engine, st: Tracer.State, events: seq<Tracer.Event>)
    ensures |Tracer.FullRunSees(e, st, events)| == |events|
    decreases |events|
  {
    if events != [] { SeesEach(e, Tracer.FullStep(e, st, events[0]), events[1..]); }
  }

  // ----- setting, and reading later -----

  lemma {:induction false} TwoEvents(e: Tracer.Engine, st: Tracer.State, inside: set<nat>, call: seq<Tracer.Event>,
                                     pid: nat)
    requires Flagged(st, inside) && Tracer.PossibleRun(e, st, inside, call)
    requires |call| == 2 && call[0].Enter? && call[1].Leave? && call[0].pid == call[1].pid == pid
    ensures WholeCall(st, call[0], call[1]) && pid !in inside && InsideAfter(inside, call) == inside
    ensures call == [call[0], call[1]]
  {
    assert call[1..] == [call[1]] && call[1..][1..] == [];
    assert InsideAfter(inside + {pid}, [call[1]]) == InsideAfter(inside + {pid} - {pid}, []) == inside + {pid} - {pid};
    assert inside + {pid} - {pid} == inside;
  }

  lemma {:induction false} AfterSetting(e: Tracer.Engine, st: Tracer.State, inside: set<nat>, pid: nat,
                                        call: seq<Tracer.Event>, action: Action, asked: Creds.Call)
    requires Flagged(st, inside) && Tracer.PossibleRun(e, st, inside, call) && e.cfg.hasFakeIds
    requires |call| == 2 && call[0].Enter? && call[1].Leave? && call[0].pid == call[1].pid == pid
    requires ActionOf(e.tb.actions, call[0].call.nr) == Some(action) && call[0].call.nr !in e.tb.paths
    requires AsksFor(action, call[0].call.args, call[1].out, asked)
    ensures pid in st.tracees && pid !in inside && InsideAfter(inside, call) == inside
    ensures Holds(e, Tracer.RunFull(e, st, call), inside, pid, Creds.Step(st.tracees[pid].creds, asked))
    ensures var seen := Tracer.FullRunSees(e, st, call);
            |seen| == 2 && seen[1] == Tracer.Result(Creds.Answer(st.tracees[pid].creds, asked), Unpatched)
  {
    TwoEvents(e, st, inside, call, pid);
    MadeInFull(e, st, call[0], call[1]);
    SetCallTakesEffect(e.tb, e.cfg, st.shared, st.tracees[pid], call[0].call, call[1].out, action, asked);
    RunFlagged(e, st, inside, call);
  }

  lemma {:induction false} WhenReading(e: Tracer.Engine, st: Tracer.State, inside: set<nat>, pid: nat,
                                       call: seq<Tracer.Event>, reading: Action)
    requires Flagged(st, inside) && Tracer.PossibleRun(e, st, inside, call) && e.cfg.hasFakeIds
    requires |call| == 2 && call[0].Enter? && call[1].Leave? && call[0].pid == call[1].pid == pid
    requires ActionOf(e.tb.actions, call[0].call.nr) == Some(reading) && Reads(reading)
    ensures pid in st.tracees
    ensures var seen := Tracer.FullRunSees(e, st, call);
            |seen| == 2 && seen[1].Result?
            && Tells(reading, st.tracees[pid].creds, call[0].call.args[0], seen[1].result, seen[1].patch)
  {
    TwoEvents(e, st, inside, call, pid);
    MadeInFull(e, st, call[0], call[1]);
    ReadCallTells(e.tb, e.cfg, st.shared, st.tracees[pid], call[0].call, call[1].out, reading);
  }

  lemma {:induction false} SeenInParts(e: Tracer.Engine, st: Tracer.State, a: seq<Tracer.Event>, b: seq<Tracer.Event>,
                                       c: seq<Tracer.Event>)
    ensures var mid := Tracer.RunFull(e, st, a);
            var end := Tracer.RunFull(e, mid, b);
            Tracer.FullRunSees(e, st, a + b + c)
            == Tracer.FullRunSees(e, st, a) + Tracer.FullRunSees(e, mid, b) + Tracer.FullRunSees(e, end, c)
  {
    RunInParts(e, st, a + b, c);
    RunInParts(e, st, a, b);
  }

  lemma {:induction false} ReadyToRead(e: Tracer.Engine, st: Tracer.State, inside: set<nat>, pid: nat,
                                       set1: seq<Tracer.Event>, between: seq<Tracer.Event>, read: seq<Tracer.Event>,
                                       c: Creds.State)
    requires Tracer.PossibleRun(e, st, inside, set1 + between + read)
    requires Holds(e, Tracer.RunFull(e, st, set1), inside, pid, c) && InsideAfter(inside, set1) == inside
    requires forall i :: 0 <= i < |between| ==> LeavesIds(e, pid, between[i])
    ensures var end := Tracer.RunFull(e, Tracer.RunFull(e, st, set1), between);
            && pid in end.tracees && end.tracees[pid].creds == c && Flagged(end, InsideAfter(inside, between))
            && Tracer.PossibleRun(e, end, InsideAfter(inside, between), read)
  {
    PossibleParts(e, st, inside, set1 + between, read);
    PossibleParts(e, st, inside, set1, between);
    var mid := Tracer.RunFull(e, st, set1);
    RunHolds(e, mid, inside, pid, c, between);
    RunFlagged(e, mid, inside, between);
    RunInParts(e, st, set1, between);
    InsideInParts(inside, set1, between);
  }

  /** Then it reads exactly what the set*id call, as the manual pages have it, made of what it had before. */
  lemma {:induction false} ReadsWhatItSet(e: Tracer.Engine, st: Tracer.State, inside: set<nat>, pid: nat,
                                          set1: seq<Tracer.Event>, between: seq<Tracer.Event>,
                                          read: seq<Tracer.Event>, action: Action, reading: Action, asked: Creds.Call)
    requires SetThenRead(e, pid, set1, between, read, action, reading) && e.cfg.hasFakeIds
    requires Flagged(st, inside) && Tracer.PossibleRun(e, st, inside, set1 + between + read)
    requires AsksFor(action, set1[0].call.args, set1[1].out, asked)
    ensures pid in st.tracees && |Tracer.FullRunSees(e, st, set1 + between + read)| == |between| + 4
    ensures var seen, c := Tracer.FullRunSees(e, st, set1 + between + read), st.tracees[pid].creds;
            var last := seen[|between| + 3];
            && seen[1] == Tracer.Result(Creds.Answer(c, asked), Unpatched)
            && last.Result?
            && Tells(reading, Creds.Step(c, asked), read[0].call.args[0], last.result, last.patch)
  {
    PossibleParts(e, st, inside, set1 + between, read);
    PossibleParts(e, st, inside, set1, between);
    AfterSetting(e, st, inside, pid, set1, action, asked);
    var mid := Tracer.RunFull(e, st, set1);
    ReadyToRead(e, st, inside, pid, set1, between, read, Creds.Step(st.tracees[pid].creds, asked));
    var end := Tracer.RunFull(e, mid, between);
    WhenReading(e, end, InsideAfter(inside, between), pid, read, reading);
    SeenInParts(e, st, set1, between, read);
    SeesEach(e, mid, between);
    Parts(Tracer.FullRunSees(e, st, set1), Tracer.FullRunSees(e, mid, between), Tracer.FullRunSees(e, end, read));
  }

  lemma Parts<T>(x: seq<T>, y: seq<T>, z: seq<T>)
    requires |x| == |z| == 2
    ensures (x + y + z)[1] == x[1] && (x + y + z)[|y| + 3] == z[1] && |x + y + z| == |y| + 4
  {
  }

  lemma {:induction false} InsideInParts(inside: set<nat>, a: seq<Tracer.Event>, b: seq<Tracer.Event>)
    ensures InsideAfter(inside, a + b) == InsideAfter(InsideAfter(inside, a), b)
    decreases |a|
  {
    if a == [] {
      assert a + b == b;
    } else {
      assert (a + b)[1..] == a[1..] + b;
      InsideInParts(Tracer.Inside(inside, a[0]), a[1..], b);
    }
  }

  // ----- what that comes to -----

  /** After a setresuid that answers 0, every way of asking gives the three ids it set. */
  lemma {:induction false} ResUidReadBack(c: Creds.State, r: U32, e: U32, s: U32)
    requires NOID !in {r, e, s} && Creds.Answer(c, Creds.SetResUid(r, e, s)) == 0
    ensures var after := Creds.Step(c, Creds.SetResUid(r, e, s));
            && (forall x, p :: Tells(GetUid, after, 0, x, p) ==> x == r)
            && (forall x, p :: Tells(GetEuid, after, 0, x, p) ==> x == e)
            && (forall x, p :: Tells(GetResUid, after, 0, x, p) ==> x == 0 && p == Ids(Creds.Ids(r, e, s)))
            && after.gid == c.gid && after.groups == c.groups && after.fsuid == e
  {
  }

  lemma {:induction false} ResGidReadBack(c: Creds.State, r: U32, e: U32, s: U32)
    requires NOID !in {r, e, s} && Creds.Answer(c, Creds.SetResGid(r, e, s)) == 0
    ensures var after := Creds.Step(c, Creds.SetResGid(r, e, s));
            && (forall x, p :: Tells(GetGid, after, 0, x, p) ==> x == r)
            && (forall x, p :: Tells(GetEgid, after, 0, x, p) ==> x == e)
            && (forall x, p :: Tells(GetResGid, after, 0, x, p) ==> x == 0 && p == Ids(Creds.Ids(r, e, s)))
            && after.uid == c.uid && after.groups == c.groups && after.fsgid == e
  {
  }

  /** After a setgroups that answers 0, getgroups counts and lists exactly those groups. */
  lemma {:induction false} GroupsReadBack(c: Creds.State, list: nat -> U32, n: int, size: U64)
    requires Creds.Answer(c, Creds.SetGroups(list, n)) == 0
    ensures var after := Creds.Step(c, Creds.SetGroups(list, n));
            && n >= 0 && after.uid == c.uid && after.gid == c.gid
            && (forall x, p :: Tells(GetGroups, after, 0, x, p) ==> x == n)
            && (forall x, p :: n <= Signed(size) && size > 0 && Tells(GetGroups, after, size, x, p) ==>
                  x == n && p == Groups(seq(n, i requires 0 <= i => list(i))))
            && (forall x, p :: Signed(size) < n && size != 0 && Tells(GetGroups, after, size, x, p) ==> x == -EINVAL)
  {
  }

  /** The first process starts as the fake identity, in the engine's root; so does one seen before its
      parent's fork, until that is reported. */
  lemma StartsAsFakeIdentity(e: Tracer.Engine, first: nat, shared: Shared)
    ensures var t, id := Tracer.Start(e, first, shared).tracees[first], e.cfg.id.fake;
            && t.root == e.cfg.root && t.exe == "" && Flagged(Tracer.Start(e, first, shared), {})
            && (forall x, p :: Tells(GetResUid, t.creds, 0, x, p) ==> p == Ids(Creds.Ids(id.uid, id.uid, id.uid)))
            && (forall x, p :: Tells(GetResGid, t.creds, 0, x, p) ==> p == Ids(Creds.Ids(id.gid, id.gid, id.gid)))
            && (forall x, p :: Tells(GetGroups, t.creds, 1, x, p) ==> x == 1 && p == Groups([id.gid]))
    ensures forall st: Tracer.State, pid :: pid !in st.tracees ==>
              Tracer.Lookup(e, st, pid).tracees[pid] == Tracer.Start(e, pid, shared).tracees[pid].(isNew := true)
  {
  }

  /** On the fast path the process sees the same. */
  lemma {:induction false} FastPathReadsTheSame(e: Tracer.Engine, full: Tracer.State, fast: Tracer.State,
                                                inside: set<nat>, events: seq<Tracer.Event>)
    requires Tracer.Filtered(e) && Tracer.Similar(e, full, fast, inside)
    requires Tracer.PossibleRun(e, full, inside, events) && Tracer.AllUnderstood(e, events)
    ensures |Tracer.FullRunSees(e, full, events)| == |Tracer.SeccompRunSees(e, fast, events)| == |events|
    ensures forall i :: 0 <= i < |events| && events[i].Leave? ==>
              Tracer.FullRunSees(e, full, events)[i] == Tracer.SeccompRunSees(e, fast, events)[i]
    ensures Flagged(full, inside)
  {
    Tracer.FastPathRefinesFullTracing(e, full, fast, inside, events);
    forall p | p in full.tracees ensures full.tracees[p].inSyscall == (p in inside) {
      assert Tracer.Matches(e.tb, full.tracees[p], fast.tracees[p], p in inside);
    }
  }
}
