/** The owner of every file over whole runs of the engine: what the event loop does to the ownership
    table is what the per-file model of chown and file creation does, in both tracing modes. */
module OwnerRuns {
  import opened Words
  import opened OwnerTable
  import opened Syscalls
  import Emulation
  import FileOwner
  import Tracer

  /** The file a chown truly names, whether or not the tracer can look at it. */
  type Targets = Tracer.Event -> Key

  predicate IsChown(e: Tracer.Engine, nr: U32) {
    e.cfg.hasFakeIds && ActionOf(e.tb.actions, nr) == Some(Action.Chown)
  }

  function MadeUnder(t: Tracee): Owner { Owner(t.creds.fsuid, t.creds.fsgid) }

  /** What happens to owners when a process enters a call, and when it leaves one. */
  function Begins(e: Tracer.Engine, target: Targets, t: Tracee, shared: Shared, ev: Tracer.Event): seq<FileOwner.Event>
    requires ev.Enter?
  {
    if !IsChown(e, ev.call.nr) then []
    else
      var k := if e.tb.fchownat == Some(ev.call.nr) then 2 else 1;
      [FileOwner.Enter(ev.pid, target(ev), Low32(ev.call.args[k]), Low32(ev.call.args[k + 1]),
                       ev.call.look.chownStat(ViewOf(t, shared)).Some?)]
  }

  /** A call that was to make a file at `path`, and made it, makes it under the ids of its process. */
  function Creations(e: Tracer.Engine, path: string, t: Tracee, out: Out): seq<FileOwner.Event> {
    if e.cfg.hasFakeIds && path != "" && out.ret >= 0 && out.stat(path).Some?
    then [FileOwner.Create(out.stat(path).value, MadeUnder(t), out.roomToCreate)] else []
  }

  function Returns(e: Tracer.Engine, pid: nat, t: Tracee, out: Out): seq<FileOwner.Event> {
    if IsChown(e, t.sysno) then [FileOwner.Leave(pid, out.ret, out.roomToChown)] else []
  }

  /** The per-file model beside a run: its files and owners, and the path each process inside a call is
      about to make a file at, if any, known from the call alone. */
  datatype Book = Book(w: FileOwner.World, making: map<nat, string>)

  function OwnerEvents(e: Tracer.Engine, target: Targets, st: Tracer.State, b: Book, ev: Tracer.Event)
    : seq<FileOwner.Event>
  {
    match ev
    case Enter(pid, _, _, _, _) => if pid in st.tracees then Begins(e, target, st.tracees[pid], st.shared, ev) else []
    case Leave(pid, out, _) =>
      if pid in st.tracees && pid in b.making
      then Creations(e, b.making[pid], st.tracees[pid], out) + Returns(e, pid, st.tracees[pid], out) else []
    case _ => []
  }

  function NextBook(e: Tracer.Engine, target: Targets, st: Tracer.State, b: Book, ev: Tracer.Event): Book {
    var w := FileOwner.Run(e.cfg.id, b.w, OwnerEvents(e, target, st, b, ev));
    match ev
    case Enter(pid, call, _, _, _) =>
      Book(w, if pid in st.tracees then b.making[pid := call.look.creates(ViewOf(st.tracees[pid], st.shared))]
              else b.making)
    case Leave(pid, _, _) => Book(w, b.making - {pid})
    case _ => Book(w, b.making)
  }

  function AllOwnerEvents(e: Tracer.Engine, target: Targets, st: Tracer.State, b: Book, events: seq<Tracer.Event>)
    : seq<FileOwner.Event>
    decreases |events|
  {
    if events == [] then []
    else
      var ev := events[0];
      OwnerEvents(e, target, st, b, ev)
      + AllOwnerEvents(e, target, Tracer.FullStep(e, st, ev), NextBook(e, target, st, b, ev), events[1..])
  }

  /** The tracer's own stat of a file about to be chowned finds that file, as it is on the disk; and only
      calls that may create files do. */
  predicate Truly(e: Tracer.Engine, target: Targets, st: Tracer.State, disk: FileOwner.Disk, ev: Tracer.Event) {
    ev.Enter? && ev.pid in st.tracees ==>
      var view := ViewOf(st.tracees[ev.pid], st.shared);
      var found := ev.call.look.chownStat(view);
      && (IsChown(e, ev.call.nr) && found.Some? ==> found.value == FileOwner.Stat(target(ev), disk(target(ev))))
      && (ev.call.look.creates(view) != "" ==> Emulation.MayCreate(e.tb, ev.call.nr))
  }

  predicate TrulyRun(e: Tracer.Engine, target: Targets, st: Tracer.State, b: Book, events: seq<Tracer.Event>)
    decreases |events|
  {
    events == [] ||
    (Truly(e, target, st, b.w.disk, events[0])
     && TrulyRun(e, target, Tracer.FullStep(e, st, events[0]), NextBook(e, target, st, b, events[0]), events[1..]))
  }

  /** A process inside a call, and what the per-file model knows of the call. */
  predicate TiedTo(e: Tracer.Engine, pid: nat, t: Tracee, b: Book) {
    && t.inSyscall && pid in b.making
    && t.created == (if e.cfg.hasFakeIds && MadeUnder(t) != e.cfg.id.fake then b.making[pid] else "")
    && (IsChown(e, t.sysno) ==> pid in b.w.pending && b.w.pending[pid].AsNote() == t.note)
  }

  /** Table and calls in progress are the same in the engine and in the per-file model. */
  ghost predicate Tied(e: Tracer.Engine, st: Tracer.State, inside: set<nat>, b: Book) {
    && st.shared.owners == b.w.table && inside <= st.tracees.Keys
    && (forall p :: p in inside ==> TiedTo(e, p, st.tracees[p], b))
    && (forall p :: p in st.tracees && p !in inside ==> !st.tracees[p].inSyscall)
  }

  lemma EnterNotes(e: Tracer.Engine, target: Targets, st: Tracer.State, w: FileOwner.World, ev: Tracer.Event)
    requires ev.Enter? && ev.pid in st.tracees && Truly(e, target, st, w.disk, ev)
    ensures var t, view := st.tracees[ev.pid], ViewOf(st.tracees[ev.pid], st.shared);
            EntryTracee(e.tb, e.cfg, st.shared, t, ev.call).created
            == if e.cfg.hasFakeIds && MadeUnder(t) != e.cfg.id.fake then ev.call.look.creates(view) else ""
  {
    var t := st.tracees[ev.pid];
    if Emulation.MayCreate(e.tb, ev.call.nr) { assert Emulated(e.tb, e.cfg, st.shared, t, ev.call).None?; }
  }

  lemma EnterKeepsTied(e: Tracer.Engine, target: Targets, st: Tracer.State, inside: set<nat>, b: Book, ev: Tracer.Event)
    requires Tied(e, st, inside, b) && Tracer.Possible(st, inside, ev)
    requires ev.Enter? && Truly(e, target, st, b.w.disk, ev)
    ensures Tied(e, Tracer.FullStep(e, st, ev), Tracer.Inside(inside, ev), NextBook(e, target, st, b, ev))
  {
    var t := st.tracees[ev.pid];
    var a := EntryTracee(e.tb, e.cfg, st.shared, t, ev.call).(inSyscall := true);
    Tracer.FullEnter(e, st, ev, a);
    EnterNotes(e, target, st, b.w, ev);
    var pieces := Begins(e, target, t, st.shared, ev);
    var after := NextBook(e, target, st, b, ev);
    if pieces != [] {
      RunOne(e.cfg.id, b.w, pieces[0]);
    }
    assert after.w.table == b.w.table;
    assert TiedTo(e, ev.pid, a, after);
    forall p | p in inside ensures TiedTo(e, p, st.tracees[p], after) {
      assert TiedTo(e, p, st.tracees[p], b);
    }
  }

  lemma RunOne(id: FileOwner.Identity, w: FileOwner.World, ev: FileOwner.Event)
    ensures FileOwner.Run(id, w, [ev]) == FileOwner.Next(id, w, ev)
  {
    assert [ev][1..] == [];
  }

  lemma {:induction false} RunAppend(id: FileOwner.Identity, w: FileOwner.World, a: seq<FileOwner.Event>,
                                     b: seq<FileOwner.Event>)
    ensures FileOwner.Run(id, w, a + b) == FileOwner.Run(id, FileOwner.Run(id, w, a), b)
    decreases |a|
  {
    if a == [] {
      assert a + b == b;
    } else {
      assert (a + b)[1..] == a[1..] + b;
      RunAppend(id, FileOwner.Next(id, w, a[0]), a[1..], b);
    }
  }

  /** What is recorded of a creation: nothing under the default identity, which shows without. */
  lemma CreationsRecord(e: Tracer.Engine, pid: nat, t: Tracee, out: Out, b: Book)
    requires TiedTo(e, pid, t, b)
    ensures var after := FileOwner.Run(e.cfg.id, b.w, Creations(e, b.making[pid], t, out));
            && after.table == OwnersCreated(b.w.table, t, out)
            && forall p :: p in b.w.pending ==>
                 p in after.pending && after.pending[p].AsNote() == b.w.pending[p].AsNote()
  {
    var made := Creations(e, b.making[pid], t, out);
    if made != [] { RunOne(e.cfg.id, b.w, made[0]); }
  }

  /** The events of an exit change the table as the exit handler does, and no other process's call. */
  lemma LeaveEvents(e: Tracer.Engine, pid: nat, t: Tracee, out: Out, shared: Shared, b: Book)
    requires TiedTo(e, pid, t, b) && shared.owners == b.w.table
    ensures var after := FileOwner.Run(e.cfg.id, b.w, Creations(e, b.making[pid], t, out) + Returns(e, pid, t, out));
            && after.table == ExitShared(e.tb, e.cfg, shared, t, out).owners
            && forall p :: p in b.w.pending && p != pid ==>
                 p in after.pending && after.pending[p].AsNote() == b.w.pending[p].AsNote()
  {
    var id, made, back := e.cfg.id, Creations(e, b.making[pid], t, out), Returns(e, pid, t, out);
    RunAppend(id, b.w, made, back);
    CreationsRecord(e, pid, t, out, b);
    if back != [] { RunOne(id, FileOwner.Run(id, b.w, made), back[0]); }
  }

  lemma LeaveKeepsTied(e: Tracer.Engine, target: Targets, st: Tracer.State, inside: set<nat>, b: Book, ev: Tracer.Event)
    requires Tied(e, st, inside, b) && Tracer.Possible(st, inside, ev) && ev.Leave?
    ensures Tied(e, Tracer.FullStep(e, st, ev), Tracer.Inside(inside, ev), NextBook(e, target, st, b, ev))
  {
    var pid, t := ev.pid, st.tracees[ev.pid];
    assert TiedTo(e, pid, t, b);
    Tracer.FullLeave(e, st, pid, ev.out, ev.asEntry);
    LeaveEvents(e, pid, t, ev.out, st.shared, b);
    var after := NextBook(e, target, st, b, ev);
    forall p | p in inside && p != pid ensures TiedTo(e, p, st.tracees[p], after) {
      assert TiedTo(e, p, st.tracees[p], b);
    }
  }

  lemma OtherKeepsTied(e: Tracer.Engine, target: Targets, st: Tracer.State, inside: set<nat>, b: Book, ev: Tracer.Event)
    requires Tied(e, st, inside, b) && Tracer.Possible(st, inside, ev) && !ev.Enter? && !ev.Leave?
    ensures Tied(e, Tracer.FullStep(e, st, ev), Tracer.Inside(inside, ev), NextBook(e, target, st, b, ev))
  {
    var after := Tracer.FullStep(e, st, ev);
    assert NextBook(e, target, st, b, ev) == b;
    forall p | p in Tracer.Inside(inside, ev) ensures p in after.tracees && TiedTo(e, p, after.tracees[p], b) {
      assert TiedTo(e, p, st.tracees[p], b);
    }
  }

  lemma StepKeepsTied(e: Tracer.Engine, target: Targets, st: Tracer.State, inside: set<nat>, b: Book, ev: Tracer.Event)
    requires Tied(e, st, inside, b) && Tracer.Possible(st, inside, ev) && Truly(e, target, st, b.w.disk, ev)
    ensures Tied(e, Tracer.FullStep(e, st, ev), Tracer.Inside(inside, ev), NextBook(e, target, st, b, ev))
  {
    if ev.Enter? { EnterKeepsTied(e, target, st, inside, b, ev); }
    else if ev.Leave? { LeaveKeepsTied(e, target, st, inside, b, ev); }
    else { OtherKeepsTied(e, target, st, inside, b, ev); }
  }

  /** Over every run, the engine's table is the per-file model's. */
  lemma {:induction false} RunKeepsTied(e: Tracer.Engine, target: Targets, st: Tracer.State, inside: set<nat>, b: Book,
                                        events: seq<Tracer.Event>)
    requires Tied(e, st, inside, b) && Tracer.PossibleRun(e, st, inside, events) && TrulyRun(e, target, st, b, events)
    ensures Tracer.RunFull(e, st, events).shared.owners
         == FileOwner.Run(e.cfg.id, b.w, AllOwnerEvents(e, target, st, b, events)).table
    decreases |events|
  {
    if events != [] {
      var ev := events[0];
      StepKeepsTied(e, target, st, inside, b, ev);
      var st', b' := Tracer.FullStep(e, st, ev), NextBook(e, target, st, b, ev);
      RunKeepsTied(e, target, st', Tracer.Inside(inside, ev), b', events[1..]);
      RunAppend(e.cfg.id, b.w, OwnerEvents(e, target, st, b, ev), AllOwnerEvents(e, target, st', b', events[1..]));
    }
  }

  // ----- what stat calls of the run are shown -----

  /** The kernel fills a stat buffer with the owner on the disk. */
  predicate FillsTruly(disk: FileOwner.Disk, ev: Tracer.Event) {
    ev.Leave? && ev.out.buffer.Some? ==> ev.out.buffer.value.owner == disk(ev.out.buffer.value.key)
  }

  predicate FillsTrulyRun(e: Tracer.Engine, target: Targets, st: Tracer.State, b: Book, events: seq<Tracer.Event>)
    decreases |events|
  {
    events == [] ||
    var after := NextBook(e, target, st, b, events[0]);
    FillsTruly(after.w.disk, events[0])
    && FillsTrulyRun(e, target, Tracer.FullStep(e, st, events[0]), after, events[1..])
  }

  /** If an owner is written into a stat buffer, it is the one in `owners`. */
  predicate ShowsOwner(seen: Tracer.Seen, ev: Tracer.Event, owners: FileOwner.Disk) {
    ev.Leave? && seen.Result? && seen.patch.FileOwnedBy? ==>
      ev.out.buffer.Some? && seen.patch.owner == owners(ev.out.buffer.value.key)
  }

  /** Every stat of the run is shown the plain owner its file has at that moment. */
  predicate StatsShow(e: Tracer.Engine, target: Targets, st: Tracer.State, b: Book, owners: FileOwner.Disk,
                      events: seq<Tracer.Event>, seen: seq<Tracer.Seen>)
    requires |seen| == |events|
    decreases |events|
  {
    events == [] ||
    var now := FileOwner.RunOwners(e.cfg.id, owners, b.w, OwnerEvents(e, target, st, b, events[0]));
    ShowsOwner(seen[0], events[0], now)
    && StatsShow(e, target, Tracer.FullStep(e, st, events[0]), NextBook(e, target, st, b, events[0]), now, events[1..],
                 seen[1..])
  }

  lemma {:induction false} TruthfulParts(id: FileOwner.Identity, w: FileOwner.World, a: seq<FileOwner.Event>,
                                         b: seq<FileOwner.Event>)
    ensures FileOwner.TruthfulRun(id, w, a + b)
       <==> FileOwner.TruthfulRun(id, w, a) && FileOwner.TruthfulRun(id, FileOwner.Run(id, w, a), b)
    decreases |a|
  {
    if a == [] {
      assert a + b == b;
    } else {
      assert (a + b)[1..] == a[1..] + b;
      TruthfulParts(id, FileOwner.Next(id, w, a[0]), a[1..], b);
    }
  }

  lemma StaysAgreeing(id: FileOwner.Identity, w: FileOwner.World, owners: FileOwner.Disk, events: seq<FileOwner.Event>)
    requires FileOwner.Agrees(id, w, owners) && FileOwner.TruthfulRun(id, w, events)
    ensures FileOwner.Agrees(id, FileOwner.Run(id, w, events), FileOwner.RunOwners(id, owners, w, events))
  {
    FileOwner.OneOwnerIff(id, w, owners, events);
    FileOwner.EndsAgreeing(id, w, owners, events);
  }

  lemma EventShowsOwner(e: Tracer.Engine, target: Targets, st: Tracer.State, inside: set<nat>, b: Book,
                        owners: FileOwner.Disk, ev: Tracer.Event)
    requires Tied(e, st, inside, b) && Tracer.Possible(st, inside, ev)
    requires FileOwner.Agrees(e.cfg.id, b.w, owners)
    requires FileOwner.TruthfulRun(e.cfg.id, b.w, OwnerEvents(e, target, st, b, ev))
    requires FillsTruly(NextBook(e, target, st, b, ev).w.disk, ev)
    ensures ShowsOwner(Tracer.FullSees(e, st, ev), ev,
                       FileOwner.RunOwners(e.cfg.id, owners, b.w, OwnerEvents(e, target, st, b, ev)))
  {
    StaysAgreeing(e.cfg.id, b.w, owners, OwnerEvents(e, target, st, b, ev));
    if ev.Leave? && Tracer.FullSees(e, st, ev).patch.FileOwnedBy? {
      var t, file := st.tracees[ev.pid], ev.out.buffer.value;
      assert TiedTo(e, ev.pid, t, b);
      LeaveEvents(e, ev.pid, t, ev.out, st.shared, b);
      var after := NextBook(e, target, st, b, ev).w;
      assert after.table == OwnersCreated(st.shared.owners, t, ev.out);
      assert Tracer.FullSees(e, st, ev).patch.owner == FileOwner.Visible(e.cfg.id, after.table, after.disk, file.key);
    }
  }

  lemma {:induction false} StatsShowPlainOwners(e: Tracer.Engine, target: Targets, st: Tracer.State, inside: set<nat>,
                                                b: Book, owners: FileOwner.Disk, events: seq<Tracer.Event>)
    requires Tied(e, st, inside, b) && FileOwner.Agrees(e.cfg.id, b.w, owners)
    requires Tracer.PossibleRun(e, st, inside, events) && TrulyRun(e, target, st, b, events)
    requires FillsTrulyRun(e, target, st, b, events)
    requires FileOwner.TruthfulRun(e.cfg.id, b.w, AllOwnerEvents(e, target, st, b, events))
    ensures |Tracer.FullRunSees(e, st, events)| == |events|
    ensures StatsShow(e, target, st, b, owners, events, Tracer.FullRunSees(e, st, events))
    decreases |events|
  {
    if events != [] {
      var ev, next, b' := events[0], Tracer.FullStep(e, st, events[0]), NextBook(e, target, st, b, events[0]);
      var happened := OwnerEvents(e, target, st, b, ev);
      TruthfulParts(e.cfg.id, b.w, happened, AllOwnerEvents(e, target, next, b', events[1..]));
      EventShowsOwner(e, target, st, inside, b, owners, ev);
      StaysAgreeing(e.cfg.id, b.w, owners, happened);
      StepKeepsTied(e, target, st, inside, b, ev);
      StatsShowPlainOwners(e, target, next, Tracer.Inside(inside, ev), b',
                           FileOwner.RunOwners(e.cfg.id, owners, b.w, happened), events[1..]);
    }
  }

  /** Only what exits show matters. */
  lemma {:induction false} StatsShowToo(e: Tracer.Engine, target: Targets, st: Tracer.State, b: Book,
                                        owners: FileOwner.Disk, events: seq<Tracer.Event>, x: seq<Tracer.Seen>,
                                        y: seq<Tracer.Seen>)
    requires |x| == |y| == |events| && forall i :: 0 <= i < |events| ==> x[i] == y[i] || events[i].Enter?
    requires StatsShow(e, target, st, b, owners, events, x)
    ensures StatsShow(e, target, st, b, owners, events, y)
    decreases |events|
  {
    if events != [] {
      StatsShowToo(e, target, Tracer.FullStep(e, st, events[0]), NextBook(e, target, st, b, events[0]),
                   FileOwner.RunOwners(e.cfg.id, owners, b.w, OwnerEvents(e, target, st, b, events[0])), events[1..],
                   x[1..], y[1..]);
    }
  }

  function StartBook(shared: Shared, disk: FileOwner.Disk): Book {
    Book(FileOwner.World(disk, shared.owners, map[]), map[])
  }

  /** From the start of the engine, in either mode: the owners it shows are the plain per-file owners, of
      files created as much as of files chowned, at every moment if and only if every creation and every exit
      of a chown is truthful, and then they are what each stat call of the run finds in its buffer. */
  lemma {:induction false} ShownOwnersOverRuns(e: Tracer.Engine, target: Targets, first: nat, shared: Shared,
                                               disk: FileOwner.Disk, events: seq<Tracer.Event>)
    requires Tracer.PossibleRun(e, Tracer.Start(e, first, shared), {}, events)
    requires TrulyRun(e, target, Tracer.Start(e, first, shared), StartBook(shared, disk), events)
    ensures var id, st, b := e.cfg.id, Tracer.Start(e, first, shared), StartBook(shared, disk);
            var happened := AllOwnerEvents(e, target, st, b, events);
            var owners := (k: Key) => FileOwner.Visible(id, shared.owners, disk, k);
            && (FileOwner.AgreesThroughout(id, b.w, owners, happened) <==> FileOwner.TruthfulRun(id, b.w, happened))
            && Tracer.RunFull(e, st, events).shared.owners == FileOwner.Run(id, b.w, happened).table
            && (Tracer.Filtered(e) && Tracer.AllUnderstood(e, events) ==>
                  Tracer.RunSeccomp(e, st, events).shared.owners == FileOwner.Run(id, b.w, happened).table)
            && (FileOwner.TruthfulRun(id, b.w, happened) && FillsTrulyRun(e, target, st, b, events) ==>
                  var x, y := Tracer.FullRunSees(e, st, events), Tracer.SeccompRunSees(e, st, events);
                  && |x| == |events| && StatsShow(e, target, st, b, owners, events, x)
                  && (Tracer.Filtered(e) && Tracer.AllUnderstood(e, events) ==>
                        |y| == |events| && StatsShow(e, target, st, b, owners, events, y)))
  {
    var id, st, b := e.cfg.id, Tracer.Start(e, first, shared), StartBook(shared, disk);
    var happened := AllOwnerEvents(e, target, st, b, events);
    var owners := (k: Key) => FileOwner.Visible(id, shared.owners, disk, k);
    assert FileOwner.Agrees(id, b.w, owners);
    FileOwner.OneOwnerIff(id, b.w, owners, happened);
    assert Tied(e, st, {}, b);
    RunKeepsTied(e, target, st, {}, b, events);
    if FileOwner.TruthfulRun(id, b.w, happened) && FillsTrulyRun(e, target, st, b, events) {
      StatsShowPlainOwners(e, target, st, {}, b, owners, events);
    }
    if Tracer.Filtered(e) && Tracer.AllUnderstood(e, events) {
      Tracer.FastPathRefinesFromStart(e, first, shared, events);
      if FileOwner.TruthfulRun(id, b.w, happened) && FillsTrulyRun(e, target, st, b, events) {
        StatsShowToo(e, target, st, b, owners, events, Tracer.FullRunSees(e, st, events),
                     Tracer.SeccompRunSees(e, st, events));
      }
    }
  }
}
