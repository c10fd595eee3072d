/** The tracee table as the engine keeps it: a list of processes searched from the front, extended at
    the end, and closed up by moving the last one into a gap. */
module TraceeTable {
  import opened Words
  import opened Syscalls
  import opened Tracer
  import opened Bindings
  import opened OwnerTable
  import opened FileOwner
  import Creds

  class Process {
    const pid: nat
    var data: Tracee

    constructor (pid: nat, data: Tracee)
      ensures this.pid == pid && this.data == data
    {
      this.pid, this.data := pid, data;
    }

    /** The entry handler, step by step. Returns what the processes then share and the registers. */
    method Enter(tb: Tables, cfg: Config, shared: Shared, call: Syscalls.Call) returns (sh: Shared, regs: seq<U64>)
      modifies this`data
      ensures data == EntryTracee(tb, cfg, shared, old(data), call)
      ensures sh == EntryShared(tb, cfg, shared, old(data), call)
      ensures regs == EntryArgs(tb, cfg, shared, old(data), call)
    {
      ghost var was := data;
      data := data.(sysno := call.nr, args := call.args, procLink := false, pendingExe := "", note := None,
                    created := "", pendingRoot := "", mountHandled := false);
      sh, regs := shared, call.args;
      if cfg.hasFakeIds {
        var action, handled := ActionOf(tb.actions, call.nr), false;
        regs := Neutral(cfg.id, action, regs);
        if action == Some(Action.Chown) { data := data.(note := NoteOf(tb, cfg, shared, data, call)); }
        if data.creds.Privileged() {
          handled, sh, regs := EmulateMounts(action, shared, call, regs);
        }
        if handled { return; }
      }
      regs := RedirectPaths(tb, cfg, shared, call, regs, was);
    }

    /** chroot, mount and umount by a fake root. */
    method EmulateMounts(action: Option<Action>, shared: Shared, call: Syscalls.Call, args: seq<U64>)
      returns (handled: bool, sh: Shared, regs: seq<U64>)
      requires data.pendingRoot == "" && !data.mountHandled
      modifies this`data
      ensures var view := View(old(data).root, shared.bindings);
              var dir, target := call.look.directory(view), call.look.mountTarget(view);
              var source := call.look.mountSource(view);
              match action
              case Some(Chroot) =>
                handled == (dir.Some? && dir.value != "") && sh == shared
                && data == (if handled then old(data).(pendingRoot := dir.value) else old(data))
                && regs == (if handled then call.look.redirect(view, args) else args)
              case Some(Mount) =>
                handled && data == old(data).(mountHandled := target.Some?)
                && regs == (if target.Some? then call.look.redirect(view, args) else args)
                && sh == if target.None? || source.None? then shared
                         else
                           var b := Binding(source.value, target.value.guest, target.value.host);
                           shared.(bindings := Apply(shared.bindings, Push(b)))
              case Some(Umount) =>
                handled && data == old(data).(mountHandled := target.Some?)
                && regs == (if target.Some? then call.look.redirect(view, args) else args)
                && sh == if target.None? then shared
                         else shared.(bindings := RemoveNewest(shared.bindings, target.value.guest))
              case _ => !handled && data == old(data) && sh == shared && regs == args
    {
      var view := View(data.root, shared.bindings);
      handled, sh, regs := false, shared, args;
      if action == Some(Action.Chroot) {
        var dir := call.look.directory(view);
        if dir.None? { return; }
        data := data.(pendingRoot := dir.value);
        handled := data.pendingRoot != "";
        if handled { regs := call.look.redirect(view, args); }
      } else if action == Some(Action.Mount) || action == Some(Action.Umount) {
        handled := true;
        var target := call.look.mountTarget(view);
        if target.None? { return; }
        if action == Some(Action.Mount) {
          var source := call.look.mountSource(view);
          if source.Some? && |sh.bindings| < MAX_BINDINGS {
            sh := sh.(bindings := sh.bindings + [Binding(source.value, target.value.guest, target.value.host)]);
          }
        } else {
          sh := sh.(bindings := RemoveNewest(sh.bindings, target.value.guest));
        }
        data := data.(mountHandled := true);
        regs := call.look.redirect(view, args);
      }
    }

    /** The rest of the entry handler: execve, socket addresses, and the table of path arguments. */
    method RedirectPaths(tb: Tables, cfg: Config, shared: Shared, call: Syscalls.Call, args: seq<U64>,
                         ghost was: Tracee)
      returns (regs: seq<U64>)
      requires Emulated(tb, cfg, shared, was, call).None?
      requires data == was.(sysno := call.nr, args := call.args, procLink := false, pendingExe := "", created := "",
                            note := NoteOf(tb, cfg, shared, was, call), pendingRoot := "", mountHandled := false)
      requires args == if cfg.hasFakeIds then Neutral(cfg.id, ActionOf(tb.actions, call.nr), call.args) else call.args
      modifies this`data
      ensures data == EntryTracee(tb, cfg, shared, was, call)
      ensures regs == EntryArgs(tb, cfg, shared, was, call)
    {
      var nr, view := call.nr, View(data.root, shared.bindings);
      regs := args;
      if tb.execve == Some(nr) {
        var exec := call.look.exec(view);
        if exec.Rewritten? {
          data := data.(pendingExe := exec.exe);
          regs := call.look.redirect(view, regs);
          return;
        }
      }
      if tb.bind == Some(nr) || tb.connect == Some(nr) || tb.sendto == Some(nr) {
        regs := call.look.redirect(view, regs);
        return;
      }
      if nr in tb.paths {
        if cfg.hasFakeIds && !(data.creds.fsuid == cfg.id.fake.uid && data.creds.fsgid == cfg.id.fake.gid) {
          data := data.(created := call.look.creates(view));
        }
        data := data.(procLink := call.look.procLink(view));
        regs := call.look.redirect(view, regs);
        return;
      }
      if tb.execve == Some(nr) || tb.execveat == Some(nr) { regs := call.look.redirect(view, regs); }
    }

    /** The exit handler, step by step. Returns what the processes then share, the result seen, and what is
        written to the guest. */
    method Exit(tb: Tables, cfg: Config, shared: Shared, out: Out) returns (sh: Shared, result: int, patch: Patch)
      modifies this`data
      ensures data == ExitTracee(tb, cfg, old(data), out)
      ensures sh == ExitShared(tb, cfg, shared, old(data), out)
      ensures result == ExitResult(tb, cfg, shared, old(data), out)
      ensures patch == ExitPatch(tb, cfg, shared, old(data), out)
    {
      ghost var was := data;
      result, patch := out.ret, Unpatched;
      var owners := RecordCreated(shared.owners, out);
      var action := ActionOf(tb.actions, data.sysno);
      ExitByAction(tb, cfg, was, out);
      if action.Some? {
        ResultIgnoresCreated(cfg, shared, was, out, action.value);
        result, owners, patch := ExitKnown(cfg, shared, action.value, owners, out);
      }
      sh := shared.(owners := owners);
    }

    /** A file the call may just have made gets the owner it was made under. */
    method RecordCreated(owners: OwnerMap, out: Out) returns (now: OwnerMap)
      modifies this`data
      ensures data == old(data).(created := "") && now == OwnersCreated(owners, old(data), out)
    {
      now := owners;
      if data.created != "" {
        var key := if out.ret >= 0 then out.stat(data.created) else None;
        if key.Some? && out.roomToCreate { now := now[key.value := Owner(data.creds.fsuid, data.creds.fsgid)]; }
        data := data.(created := "");
      }
    }

    /** The exit of a call the engine knows. */
    method ExitKnown(cfg: Config, shared: Shared, action: Action, owners: OwnerMap, out: Out)
      returns (result: int, now: OwnerMap, patch: Patch)
      modifies this`data
      ensures data == AfterExit(cfg, old(data), out, action)
      ensures result == KnownResult(cfg, shared, old(data), out, action)
      ensures now == if cfg.hasFakeIds && action == Action.Chown
                     then Committed(owners, old(data).note, out.ret, out.roomToChown) else owners
      ensures patch == if cfg.hasFakeIds then FakedPatch(cfg, owners, old(data), out, action) else Unpatched
    {
      ghost var was := data;
      now, patch := owners, Unpatched;
      var finished;
      finished, result := FinishCall(cfg, action, shared, out);
      if finished { return; }
      LateExit(cfg, shared, was, out, action);
      if cfg.hasFakeIds {
        patch := PatchMemory(cfg, action, owners, out);
        result, now := PatchIds(action, owners, out);
      }
    }

    /** The calls whose exit is not about identity: `finished` says nothing more is to be done. */
    method FinishCall(cfg: Config, action: Action, shared: Shared, out: Out) returns (finished: bool, result: int)
      modifies this`data
      ensures finished == EndsEarly(old(data), action)
      ensures finished ==> data == AfterExit(cfg, old(data), out, action)
                           && result == KnownResult(cfg, shared, old(data), out, action)
      ensures !finished ==> data == old(data) && result == out.ret
    {
      if EndsEarly(data, action) { EarlyExit(cfg, shared, data, out, action); }
      var answer := out.answer(View(data.root, shared.bindings));
      finished, result := true, out.ret;
      if action == Action.GetCwd {
        if out.ret > 0 && answer.Some? { result := answer.value; }
      } else if action == Action.Execve {
        if out.ret == 0 { data := data.(exe := data.pendingExe); }
      } else if action == Action.Chroot && data.pendingRoot != "" {
        data := data.(root := data.pendingRoot);
        data := data.(pendingRoot := "");
        result := 0;
      } else if (action == Action.Mount || action == Action.Umount) && data.mountHandled {
        result := 0;
      } else if action == Action.ReadLink {
        if data.procLink && out.ret > 0 && answer.Some? { result := answer.value; }
      } else {
        finished := false;
      }
    }

    /** The faked buffers: ids, groups, and the owner in a stat buffer. */
    method PatchMemory(cfg: Config, action: Action, owners: OwnerMap, out: Out) returns (patch: Patch)
      ensures patch == FakedPatch(cfg, owners, data, out, action)
    {
      if action == Action.GetResUid { return Ids(data.creds.uid); }
      if action == Action.GetResGid { return Ids(data.creds.gid); }
      if action == Action.GetGroups {
        var fits := Signed(data.args[0]) >= |data.creds.groups|;
        return if data.args[0] != 0 && fits then Groups(data.creds.groups) else Unpatched;
      }
      if action in {Action.Stat2, Action.Stat3, Action.Statx} && out.ret == 0 && out.buffer.Some? {
        var file := out.buffer.value;
        if file.key in owners { return FileOwnedBy(owners[file.key]); }
        return FileOwnedBy(Shown(cfg.id, file.owner));
      }
      return Unpatched;
    }

    /** The faked results: credentials read and changed, a chown committed. */
    method PatchIds(action: Action, owners: OwnerMap, out: Out) returns (result: int, now: OwnerMap)
      modifies this`data
      ensures var call := CredsCall(action, old(data).args, out);
              data == if call.Some? then old(data).(creds := Creds.Step(old(data).creds, call.value)) else old(data)
      ensures now == if action == Action.Chown then Committed(owners, old(data).note, out.ret, out.roomToChown)
                     else owners
      ensures result == FakedResult(action, old(data), out)
    {
      result, now := out.ret, owners;
      var read := ReadIds(action);
      if read.Some? {
        result := read.value;
      } else if action == Action.Chown {
        now := Committed(owners, data.note, out.ret, out.roomToChown);
        if out.ret == -EPERM || out.ret == -EINVAL { result := 0; }
      } else {
        var call := CredsCall(action, data.args, out);
        if call.Some? {
          result := Creds.Answer(data.creds, call.value);
          data := data.(creds := Creds.Step(data.creds, call.value));
        } else if action == Action.SetGroups {
          result := -EFAULT;
        }
      }
    }

    /** The answer of a call that only reads the fake credentials. */
    method ReadIds(action: Action) returns (r: Option<int>)
      ensures r == ReadResult(action, data.creds, data.args[0])
      ensures r.Some? ==> action != Action.Chown && forall out :: CredsCall(action, data.args, out).None?
    {
      var c := data.creds;
      if action == Action.GetUid { return Some(c.uid.own); }
      if action == Action.GetEuid { return Some(c.uid.effective); }
      if action == Action.GetGid { return Some(c.gid.own); }
      if action == Action.GetEgid { return Some(c.gid.effective); }
      if action == Action.GetResUid || action == Action.GetResGid { return Some(0); }
      if action == Action.GetGroups {
        return Some(if data.args[0] != 0 && Signed(data.args[0]) < |c.groups| then -EINVAL else |c.groups|);
      }
      return None;
    }
  }

  /** Putting the last entry in the place of another leaves the others, each once. */
  lemma {:induction false} SwapRemoved<T>(s: seq<T>, at: nat, r: seq<T>)
    requires at < |s| && r == s[at := s[|s| - 1]][..|s| - 1]
    requires forall i, j :: 0 <= i < j < |s| ==> s[i] != s[j]
    ensures forall i :: 0 <= i < |r| ==> r[i] == s[if i == at then |s| - 1 else i]
    ensures forall x :: x in r <==> x in s && x != s[at]
  {
    forall x | x in s && x != s[at] ensures x in r {
      var i :| 0 <= i < |s| && s[i] == x;
      assert r[if i == |s| - 1 then at else i] == x;
    }
  }

  class Table {
    const engine: Engine
    var v: seq<Process>
    var shared: Shared
    ghost var tracees: map<nat, Tracee>

    ghost predicate Distinct() reads this, v {
      && (forall i, j :: 0 <= i < j < |v| ==> v[i] != v[j])
      && (forall t, u :: t in v && u in v && t != u ==> t.pid != u.pid)
    }

    /** One entry for each process, and no process twice. */
    ghost predicate Valid() reads this, v {
      && Distinct()
      && (forall t :: t in v ==> t.pid in tracees && tracees[t.pid] == t.data)
      && (forall p :: p in tracees ==> exists t :: t in v && t.pid == p)
    }

    ghost function Value(): State reads this { State(tracees, shared) }

    constructor (engine: Engine, shared: Shared)
      ensures Valid() && v == [] && this.engine == engine && Value() == State(map[], shared)
    {
      this.engine, this.shared, v, tracees := engine, shared, [], map[];
    }

    method Find(pid: nat) returns (t: Process?)
      requires Valid()
      ensures t == null <==> pid !in tracees
      ensures t != null ==> t in v && t.pid == pid && t.data == tracees[pid]
    {
      for i := 0 to |v|
        invariant forall j :: 0 <= j < i ==> v[j].pid != pid
      {
        if v[i].pid == pid { return v[i]; }
      }
      return null;
    }

    /** Appends a process; it starts as a copy of its parent where there is one. */
    method Add(pid: nat, parent: Process?) returns (t: Process)
      requires Valid() && pid !in tracees
      modifies this`v, this`tracees
      ensures Valid() && fresh(t) && v == old(v) + [t] && t.pid == pid
      ensures forall p :: p in v ==> p in old(v) || fresh(p)
      ensures Value() == Tracer.Put(old(Value()), pid,
                             if parent == null then NewTracee(engine.cfg)
                             else Inherit(NewTracee(engine.cfg), parent.data))
    {
      var data := NewTracee(engine.cfg);
      if parent != null { data := Inherit(data, parent.data); }
      t := new Process(pid, data);
      ghost var before := v;
      v := v + [t];
      assert forall u :: u in v <==> u in before || u == t;
      tracees := tracees[pid := data];
      forall p | p in tracees ensures exists u :: u in v && u.pid == p {
        if p != pid {
          var u :| u in before && u.pid == p;
          assert u in v;
        }
      }
    }

    method IndexOf(t: Process) returns (at: nat)
      requires t in v
      ensures at < |v| && v[at] == t
    {
      at := 0;
      while v[at] != t
        invariant 0 <= at < |v| && forall j :: 0 <= j < at ==> v[j] != t
        decreases |v| - at
      {
        at := at + 1;
      }
    }

    /** Swap-removal: the last process takes the place of the one that is gone. */
    method TakeOut(t: Process)
      requires t in v && Distinct()
      modifies this`v
      ensures Distinct() && forall p :: p in v <==> p in old(v) && p != t
    {
      ghost var before := v;
      var n := |v| - 1;
      var at := IndexOf(t);
      v := v[at := v[n]][..n];
      SwapRemoved(before, at, v);
    }

    method Remove(t: Process)
      requires Valid() && t in v
      modifies this`v, this`tracees
      ensures Valid() && forall p :: p in v ==> p in old(v)
      ensures tracees == old(tracees) - {t.pid} && shared == old(shared)
    {
      ghost var before := v;
      TakeOut(t);
      tracees := tracees - {t.pid};
      forall p | p in tracees ensures exists u :: u in v && u.pid == p {
        var u :| u in before && u.pid == p;
        assert u in v;
      }
    }

    method SetData(t: Process, data: Tracee)
      requires Valid() && t in v
      modifies this`tracees, t`data
      ensures Valid() && t.data == data && Value() == Tracer.Put(old(Value()), t.pid, data)
    {
      t.data := data;
      tracees := tracees[t.pid := data];
    }

    /** The entry and the exit handler, run for one process. */
    method OnSyscallEntry(t: Process, call: Syscalls.Call)
      requires Valid() && t in v
      modifies this`tracees, this`shared, t`data
      ensures Valid() && Value() == OnEntry(engine, old(Value()), t.pid, call)
    {
      var after, _ := t.Enter(engine.tb, engine.cfg, shared, call);
      tracees, shared := tracees[t.pid := t.data], after;
    }

    method OnSyscallExit(t: Process, out: Out)
      requires Valid() && t in v
      modifies this`tracees, this`shared, t`data
      ensures Valid() && Value() == OnExit(engine, old(Value()), t.pid, out)
    {
      var after, _, _ := t.Exit(engine.tb, engine.cfg, shared, out);
      tracees, shared := tracees[t.pid := t.data], after;
    }

    /** A stop at a syscall's entry or exit: which, only the tracee's own flags say. */
    method SyscallBoundary(t: Process, asEntry: Syscalls.Call, asExit: Out, seccompMode: bool)
      requires Valid() && t in v
      modifies this`tracees, this`shared, t`data
      ensures Valid() && Value() == HandleStop(engine, seccompMode, old(Value()), t.pid, SyscallStop(asEntry, asExit))
    {
      if !seccompMode {
        var inside := t.data.inSyscall;
        if inside { OnSyscallExit(t, asExit); } else { OnSyscallEntry(t, asEntry); }
        SetData(t, t.data.(inSyscall := !inside));
      } else if t.data.awaitingExit {
        OnSyscallExit(t, asExit);
        SetData(t, t.data.(awaitingExit := false));
      }
    }

    method SeccompEntry(t: Process, call: Syscalls.Call, seccompMode: bool)
      requires Valid() && t in v
      modifies this`tracees, this`shared, t`data
      ensures Valid() && Value() == HandleStop(engine, seccompMode, old(Value()), t.pid, SeccompStop(call))
    {
      OnSyscallEntry(t, call);
      SetData(t, t.data.(awaitingExit := true));
    }

    /** The child of a fork: one that was seen already becomes a copy of its parent, another is added. */
    method ForkSeen(t: Process, child: nat, seccompMode: bool)
      requires Valid() && t in v
      modifies this`v, this`tracees, v`data
      ensures Valid() && t in v && (forall p :: p in v ==> p in old(v) || fresh(p))
      ensures Value() == HandleStop(engine, seccompMode, old(Value()), t.pid, ForkStop(child))
    {
      var c := Find(child);
      if c != null { SetData(c, Inherit(c.data, t.data)); }
      else { var _ := Add(child, t); }
    }

    /** A new child's initial stop. */
    method FirstStop(t: Process, seccompMode: bool)
      requires Valid() && t in v
      modifies this`tracees, t`data
      ensures Valid() && Value() == HandleStop(engine, seccompMode, old(Value()), t.pid, StopSignal)
    {
      if t.data.isNew { SetData(t, t.data.(isNew := false)); }
    }

    /** One stop of a known process. */
    method HandleOne(t: Process, stop: Stop, seccompMode: bool)
      requires Valid() && t in v
      modifies this`v, this`tracees, this`shared, v`data
      ensures Valid() && t in v && (forall p :: p in v ==> p in old(v) || fresh(p))
      ensures Value() == HandleStop(engine, seccompMode, old(Value()), t.pid, stop)
    {
      match stop
      case SyscallStop(asEntry, asExit) => SyscallBoundary(t, asEntry, asExit, seccompMode);
      case SeccompStop(call) => SeccompEntry(t, call, seccompMode);
      case ForkStop(child) => ForkSeen(t, child, seccompMode);
      case StopSignal => FirstStop(t, seccompMode);
      case OtherSignal =>
    }

    /** The process with this pid, added if it was not seen before. */
    method FindOrAdd(pid: nat) returns (t: Process)
      requires Valid()
      modifies this`v, this`tracees
      ensures Valid() && t in v && t.pid == pid && Value() == Tracer.Lookup(engine, old(Value()), pid)
      ensures forall p :: p in v ==> p in old(v) || fresh(p)
    {
      var found := Find(pid);
      if found == null { t := Add(pid, null); } else { t := found; }
    }

    /** The event loop's body for a stopped process: find or add it, handle the stop, and say whether
        it is to be resumed up to the next syscall boundary. */
    method Stopped(pid: nat, stop: Stop, seccompMode: bool) returns (toNextSyscall: bool)
      requires Valid()
      modifies this`v, this`tracees, this`shared, v`data
      ensures Valid() && (forall p :: p in v ==> p in old(v) || fresh(p))
      ensures Value() == Deliver(engine, seccompMode, old(Value()), pid, stop)
      ensures toNextSyscall <==> !seccompMode || (pid in tracees && tracees[pid].awaitingExit)
    {
      var t := FindOrAdd(pid);
      assert forall i :: 0 <= i < |v| ==> v[i] in v;
      HandleOne(t, stop, seccompMode);
      toNextSyscall := !seccompMode || t.data.awaitingExit;
    }

    /** And for one that has exited. */
    method Exited(pid: nat)
      requires Valid()
      modifies this`v, this`tracees
      ensures Valid() && tracees == old(tracees) - {pid} && shared == old(shared)
    {
      var t := FindOrAdd(pid);
      Remove(t);
    }
  }
}
