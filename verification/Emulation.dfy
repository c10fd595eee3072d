/** What a process experiences of the calls the engine fakes, each from its entry to its exit: in terms of
    its registers, results, memory and later state alone. */
module Emulation {
  import opened Words
  import opened OwnerTable
  import opened Syscalls
  import Bindings
  import Creds
  import FileOwner
  import Tracer

  /** A call as it was: the process and what is shared afterwards, the registers the kernel saw, the result
      and the memory the process sees. */
  datatype Experience = Experience(t: Tracee, shared: Shared, args: seq<U64>, result: int, patch: Patch)

  function Made(tb: Tables, cfg: Config, sh: Shared, t: Tracee, call: Call, out: Out): Experience {
    var u := EntryTracee(tb, cfg, sh, t, call).(inSyscall := true);
    var mid := EntryShared(tb, cfg, sh, t, call);
    Experience(ExitTracee(tb, cfg, u, out).(inSyscall := false), ExitShared(tb, cfg, mid, u, out),
               EntryArgs(tb, cfg, sh, t, call), ExitResult(tb, cfg, mid, u, out), ExitPatch(tb, cfg, mid, u, out))
  }

  /** A process that is not in a call enters one, and leaves it. */
  predicate WholeCall(st: Tracer.State, enter: Tracer.Event, leave: Tracer.Event) {
    && enter.Enter? && leave.Leave? && leave.pid == enter.pid
    && enter.pid in st.tracees && !st.tracees[enter.pid].inSyscall
  }

  /** That is what full tracing makes of it; the fast path is the same for every call it sees. */
  lemma MadeInFull(e: Tracer.Engine, st: Tracer.State, enter: Tracer.Event, leave: Tracer.Event)
    requires WholeCall(st, enter, leave)
    ensures var x := Made(e.tb, e.cfg, st.shared, st.tracees[enter.pid], enter.call, leave.out);
            && Tracer.RunFull(e, st, [enter, leave]) == Tracer.State(st.tracees[enter.pid := x.t], x.shared)
            && Tracer.FullRunSees(e, st, [enter, leave]) == [Tracer.Args(x.args), Tracer.Result(x.result, x.patch)]
  {
    Tracer.CallInFull(e, st, enter, leave);
  }

  /** A call with no path in its arguments. */
  predicate Pathless(tb: Tables, nr: U32) {
    nr !in tb.paths && Some(nr) !in {tb.execve, tb.bind, tb.connect, tb.sendto, tb.execveat}
  }

  // ----- the nine set*id calls -----

  /** The call that the registers, read in the order of the manual pages, ask for. */
  ghost predicate AsksFor(action: Action, args: Registers, out: Out, call: Creds.Call) {
    var a, b, c := args[0] % TWO_32, args[1] % TWO_32, args[2] % TWO_32;
    match action
    case SetUid => call == Creds.SetUid(a)
    case SetGid => call == Creds.SetGid(a)
    case SetReUid => call == Creds.SetReUid(a, b)
    case SetReGid => call == Creds.SetReGid(a, b)
    case SetResUid => call == Creds.SetResUid(a, b, c)
    case SetResGid => call == Creds.SetResGid(a, b, c)
    case SetFsUid => call == Creds.SetFsUid(a)
    case SetFsGid => call == Creds.SetFsGid(a)
    case SetGroups => out.groups.Some? && call == Creds.SetGroups(out.groups.value, Signed(args[0]))
    case _ => false
  }

  lemma AskedCall(action: Action, args: Registers, out: Out, call: Creds.Call)
    requires AsksFor(action, args, out, call)
    ensures CredsCall(action, args, out) == Some(call) && ReadResult(action, Creds.Init(0, 0), args[0]).None?
  {
  }

  /** What of a process a call may change, but for where the tracer takes it to be. */
  predicate OnlyCreds(was: Tracee, now: Tracee) {
    now.root == was.root && now.exe == was.exe && now.isNew == was.isNew && now.awaitingExit == was.awaitingExit
  }

  /** Each changes the fake credentials as it says, answers accordingly, and changes nothing else. */
  lemma {:induction false} SetCallTakesEffect(tb: Tables, cfg: Config, sh: Shared, t: Tracee, call: Call, out: Out,
                                              action: Action, asked: Creds.Call)
    requires cfg.hasFakeIds && ActionOf(tb.actions, call.nr) == Some(action) && call.nr !in tb.paths
    requires AsksFor(action, call.args, out, asked)
    ensures var x := Made(tb, cfg, sh, t, call, out);
            && x.t.creds == Creds.Step(t.creds, asked) && x.result == Creds.Answer(t.creds, asked)
            && OnlyCreds(t, x.t) && x.shared == sh && x.patch == Unpatched
  {
    AskedCall(action, call.args, out, asked);
    var u := EntryTracee(tb, cfg, sh, t, call).(inSyscall := true);
    assert u.creds == t.creds && u.args == call.args && u.sysno == call.nr && u.created == "";
    assert EntryShared(tb, cfg, sh, t, call) == sh && sh.(owners := sh.owners) == sh;
    assert !EndsEarly(u, action);
    LateExit(cfg, sh, u, out, action);
    ExitByAction(tb, cfg, u, out);
  }

  /** A setgroups whose list cannot be read changes nothing and says so; a list that is too long is not
      read. */
  lemma {:induction false} UnreadableGroups(tb: Tables, cfg: Config, sh: Shared, t: Tracee, call: Call, out: Out)
    requires cfg.hasFakeIds && ActionOf(tb.actions, call.nr) == Some(SetGroups) && out.groups.None?
    requires Signed(call.args[0]) != 0
    ensures var x, n := Made(tb, cfg, sh, t, call, out), Signed(call.args[0]);
            && x.t.creds == t.creds
            && x.result == if 0 < n <= 32 then -14 else if t.creds.Privileged() then -EINVAL else -EPERM
  {
    var u := EntryTracee(tb, cfg, sh, t, call).(inSyscall := true);
    assert u.creds == t.creds && u.args == call.args && u.sysno == call.nr && !EndsEarly(u, SetGroups);
    LateExit(cfg, EntryShared(tb, cfg, sh, t, call), u, out, SetGroups);
    ExitByAction(tb, cfg, u, out);
  }

  /** The process's true ids stay as they are: given the registers the engine hands on, the kernel's own
      version of the call changes nothing. Only setgroups is handed on as it was made. */
  lemma {:induction false} TrueIdsStay(id: FileOwner.Identity, action: Action, args: Registers, out: Out,
                                       truly: Creds.State, call: Creds.Call)
    requires truly.uid == Creds.Ids(id.actual.uid, id.actual.uid, id.actual.uid) && truly.fsuid == id.actual.uid
    requires truly.gid == Creds.Ids(id.actual.gid, id.actual.gid, id.actual.gid) && truly.fsgid == id.actual.gid
    requires AsksFor(action, Neutral(id, Some(action), args), out, call)
    ensures action != Action.SetGroups ==> Creds.Step(truly, call) == truly
    ensures action == Action.SetGroups ==> Neutral(id, Some(action), args) == args
  {
  }

  /** So setgroups does happen, exactly if the engine itself runs as root. */
  lemma TrueGroupsChangeIff(truly: Creds.State, list: nat -> U32, n: int)
    requires 0 <= n <= Creds.MAX_GROUPS && seq(n, i requires 0 <= i => list(i)) != truly.groups
    ensures Creds.Step(truly, Creds.SetGroups(list, n)) != truly <==> truly.Privileged()
  {
  }

  // ----- registers -----

  /** An identity call's registers are the harmless ones. */
  lemma {:induction false} HandedOn(tb: Tables, cfg: Config, sh: Shared, t: Tracee, call: Call, out: Out)
    requires cfg.hasFakeIds && Pathless(tb, call.nr)
    requires ActionOf(tb.actions, call.nr) !in {Some(Chroot), Some(Mount), Some(Umount)}
    ensures Made(tb, cfg, sh, t, call, out).args == Neutral(cfg.id, ActionOf(tb.actions, call.nr), call.args)
  {
  }

  predicate SetsIds(action: Action) {
    action in {Action.SetUid, Action.SetGid, Action.SetReUid, Action.SetReGid, Action.SetResUid, Action.SetResGid,
               Action.SetFsUid, Action.SetFsGid, Action.SetGroups}
  }

  /** A call with a path runs with it redirected, unless it is emulated. */
  lemma {:induction false} PathIsRedirected(tb: Tables, cfg: Config, sh: Shared, t: Tracee, call: Call, out: Out)
    requires !Pathless(tb, call.nr)
    requires var action := ActionOf(tb.actions, call.nr);
             action.Some? ==> !SetsIds(action.value) && action.value !in {Chroot, Mount, Umount}
    ensures Made(tb, cfg, sh, t, call, out).args == call.look.redirect(ViewOf(t, sh), call.args)
  {
    assert Neutral(cfg.id, ActionOf(tb.actions, call.nr), call.args) == call.args;
    assert Emulated(tb, cfg, sh, t, call).None?;
  }

  // ----- the calls that read credentials -----

  /** What each tells the process, of its three ids, and of its groups given the size it has room for. */
  predicate Tells(action: Action, c: Creds.State, size: U64, result: int, patch: Patch) {
    match action
    case GetUid => result == c.uid.own && patch == Unpatched
    case GetEuid => result == c.uid.effective && patch == Unpatched
    case GetGid => result == c.gid.own && patch == Unpatched
    case GetEgid => result == c.gid.effective && patch == Unpatched
    case GetResUid => result == 0 && patch == Ids(c.uid)
    case GetResGid => result == 0 && patch == Ids(c.gid)
    case GetGroups =>
      if size == 0 then result == |c.groups| && patch == Unpatched
      else if Signed(size) < |c.groups| then result == -EINVAL && patch == Unpatched
      else result == |c.groups| && patch == Groups(c.groups)
    case _ => false
  }

  predicate Reads(action: Action) {
    action in {Action.GetUid, Action.GetEuid, Action.GetGid, Action.GetEgid, Action.GetResUid, Action.GetResGid,
               Action.GetGroups}
  }

  lemma {:induction false} ReadCallTells(tb: Tables, cfg: Config, sh: Shared, t: Tracee, call: Call, out: Out,
                                         action: Action)
    requires cfg.hasFakeIds && ActionOf(tb.actions, call.nr) == Some(action) && Reads(action)
    ensures var x := Made(tb, cfg, sh, t, call, out); Tells(action, t.creds, call.args[0], x.result, x.patch)
  {
    var u := EntryTracee(tb, cfg, sh, t, call).(inSyscall := true);
    assert u.creds == t.creds && u.args == call.args && u.sysno == call.nr && !EndsEarly(u, action);
    LateExit(cfg, EntryShared(tb, cfg, sh, t, call), u, out, action);
  }

  // ----- chroot, mount, umount, execve, getcwd, readlink -----

  /** A chroot by the fake root to a directory that exists succeeds, whatever the kernel says, and moves the
      root there. Any other is left to the kernel. */
  lemma {:induction false} ChrootMovesRoot(tb: Tables, cfg: Config, sh: Shared, t: Tracee, call: Call, out: Out)
    requires ActionOf(tb.actions, call.nr) == Some(Chroot)
    ensures var x, dir := Made(tb, cfg, sh, t, call, out), call.look.directory(ViewOf(t, sh));
            if cfg.hasFakeIds && t.creds.Privileged() && dir.Some? && dir.value != ""
            then x.t.root == dir.value && x.result == 0 && x.args == call.look.redirect(ViewOf(t, sh), call.args)
            else x.t.root == t.root && x.result == out.ret
  {
    var u := EntryTracee(tb, cfg, sh, t, call).(inSyscall := true);
    if !EndsEarly(u, Chroot) { LateExit(cfg, sh, u, out, Chroot); }
  }

  /** A mount by the fake root succeeds, whatever the kernel says, if its target can be read, and binds the
      source, if there is one, there. Any other is left to the kernel. */
  lemma {:induction false} MountBinds(tb: Tables, cfg: Config, sh: Shared, t: Tracee, call: Call, out: Out)
    requires ActionOf(tb.actions, call.nr) == Some(Mount)
    ensures var x, view := Made(tb, cfg, sh, t, call, out), ViewOf(t, sh);
            var target, source := call.look.mountTarget(view), call.look.mountSource(view);
            if !cfg.hasFakeIds || !t.creds.Privileged() || target.None?
            then x.result == out.ret && x.shared.bindings == sh.bindings
            else
              && x.result == 0 && x.args == call.look.redirect(view, call.args)
              && x.shared.bindings
                 == if source.None? || |sh.bindings| >= Bindings.MAX_BINDINGS then sh.bindings
                    else sh.bindings + [Bindings.Binding(source.value, target.value.guest, target.value.host)]
  {
    var u := EntryTracee(tb, cfg, sh, t, call).(inSyscall := true);
    if !EndsEarly(u, Mount) { LateExit(cfg, sh, u, out, Mount); }
  }

  /** A umount takes the newest binding of its target away. */
  lemma {:induction false} UmountUnbinds(tb: Tables, cfg: Config, sh: Shared, t: Tracee, call: Call, out: Out)
    requires ActionOf(tb.actions, call.nr) == Some(Umount)
    ensures var x, view := Made(tb, cfg, sh, t, call, out), ViewOf(t, sh);
            var target := call.look.mountTarget(view);
            if !cfg.hasFakeIds || !t.creds.Privileged() || target.None?
            then x.result == out.ret && x.shared.bindings == sh.bindings
            else x.result == 0 && x.args == call.look.redirect(view, call.args)
                 && x.shared.bindings == Bindings.RemoveNewest(sh.bindings, target.value.guest)
  {
    var u := EntryTracee(tb, cfg, sh, t, call).(inSyscall := true);
    if !EndsEarly(u, Umount) { LateExit(cfg, sh, u, out, Umount); }
  }

  /** No other call binds or unbinds, or moves a root. */
  lemma {:induction false} OthersDoNotMount(tb: Tables, cfg: Config, sh: Shared, t: Tracee, call: Call, out: Out)
    requires ActionOf(tb.actions, call.nr) !in {Some(Chroot), Some(Mount), Some(Umount)}
    ensures var x := Made(tb, cfg, sh, t, call, out); x.shared.bindings == sh.bindings && x.t.root == t.root
  {
  }

  /** An execve that succeeds sets what /proc says the program is; one that fails does not. */
  lemma {:induction false} ExecveSetsProgram(tb: Tables, cfg: Config, sh: Shared, t: Tracee, call: Call, out: Out)
    requires ActionOf(tb.actions, call.nr) == Some(Execve) && tb.execve == Some(call.nr)
    ensures var x, exec := Made(tb, cfg, sh, t, call, out), call.look.exec(ViewOf(t, sh));
            && x.result == out.ret
            && x.t.exe == if out.ret != 0 then t.exe else if exec.Rewritten? then exec.exe else ""
  {
    assert Emulated(tb, cfg, sh, t, call).None?;
  }

  /** getcwd, and a readlink of a link in /proc, answer with the guest's view of the path. */
  lemma {:induction false} PathsAreShownAsGuest(tb: Tables, cfg: Config, sh: Shared, t: Tracee, call: Call, out: Out)
    requires ActionOf(tb.actions, call.nr) in {Some(GetCwd), Some(ReadLink)} && tb.execve != Some(call.nr)
    ensures var x, answer := Made(tb, cfg, sh, t, call, out), out.answer(ViewOf(t, sh));
            var ours := ActionOf(tb.actions, call.nr) == Some(GetCwd)
                        || (call.nr in tb.paths && Some(call.nr) !in {tb.bind, tb.connect, tb.sendto}
                            && call.look.procLink(ViewOf(t, sh)));
            x.result == if ours && out.ret > 0 && answer.Some? then answer.value else out.ret
  {
    assert Emulated(tb, cfg, sh, t, call).None?;
    assert EntryShared(tb, cfg, sh, t, call) == sh;
  }

  // ----- owners -----

  lemma PlainEntry(tb: Tables, cfg: Config, sh: Shared, t: Tracee, call: Call)
    requires ActionOf(tb.actions, call.nr) !in {Some(Chroot), Some(Mount), Some(Umount)}
    ensures var u := EntryTracee(tb, cfg, sh, t, call);
            EntryShared(tb, cfg, sh, t, call) == sh && u.creds == t.creds && u.sysno == call.nr && u.args == call.args
            && (call.look.creates(ViewOf(t, sh)) == "" ==> u.created == "")
  {
    assert Emulated(tb, cfg, sh, t, call).None?;
  }

  /** A chown the kernel carries out, or refuses to an ordinary user, succeeds, and the file is shown with
      the ids asked for, in the order of the manual page, and with the others as they were. */
  lemma {:induction false} ChownIsRemembered(tb: Tables, cfg: Config, sh: Shared, t: Tracee, call: Call, out: Out)
    requires cfg.hasFakeIds && ActionOf(tb.actions, call.nr) == Some(Chown)
    requires call.look.chownStat(ViewOf(t, sh)).Some? && out.roomToChown && call.look.creates(ViewOf(t, sh)) == ""
    ensures var x, st := Made(tb, cfg, sh, t, call, out), call.look.chownStat(ViewOf(t, sh)).value;
            var first := if tb.fchownat == Some(call.nr) then 2 else 1;
            var uid, gid := call.args[first] % TWO_32, call.args[first + 1] % TWO_32;
            var shown := FileOwner.Visible(cfg.id, sh.owners, (_: Key) => st.owner, st.key);
            if out.ret in {0, -EPERM, -EINVAL}
            then x.result == 0
                 && x.shared.owners == sh.owners[st.key := Owner(if uid == NOID then shown.uid else uid,
                                                                if gid == NOID then shown.gid else gid)]
            else x.result == out.ret && x.shared.owners == sh.owners
  {
    var u := EntryTracee(tb, cfg, sh, t, call).(inSyscall := true);
    PlainEntry(tb, cfg, sh, t, call);
    assert !EndsEarly(u, Chown);
    LateExit(cfg, sh, u, out, Chown);
  }

  /** Is this a call that may create a file under a path of the table? */
  predicate MayCreate(tb: Tables, nr: U32) {
    && nr in tb.paths && Some(nr) !in {tb.execve, tb.bind, tb.connect, tb.sendto}
    && ActionOf(tb.actions, nr) !in {Some(Chroot), Some(Mount), Some(Umount), Some(Chown)}
  }

  /** A file made under another identity than the default is remembered with the fsuid and fsgid it was made
      under; nothing else is. */
  lemma {:induction false} CreationIsRemembered(tb: Tables, cfg: Config, sh: Shared, t: Tracee, call: Call, out: Out)
    requires MayCreate(tb, call.nr)
    ensures var x, path := Made(tb, cfg, sh, t, call, out), call.look.creates(ViewOf(t, sh));
            var ids := Owner(t.creds.fsuid, t.creds.fsgid);
            x.shared.owners
            == if cfg.hasFakeIds && ids != cfg.id.fake && path != "" && out.ret >= 0 && out.stat(path).Some?
                  && out.roomToCreate
               then sh.owners[out.stat(path).value := ids] else sh.owners
  {
    var u := EntryTracee(tb, cfg, sh, t, call).(inSyscall := true);
    assert Emulated(tb, cfg, sh, t, call).None? && EntryShared(tb, cfg, sh, t, call) == sh;
    assert u.creds == t.creds && u.sysno == call.nr;
  }

  /** A stat shows the remembered owner, or else the fake identity in place of the real user's. */
  lemma {:induction false} StatShows(tb: Tables, cfg: Config, sh: Shared, t: Tracee, call: Call, out: Out,
                                     st: FileOwner.Stat)
    requires cfg.hasFakeIds && ActionOf(tb.actions, call.nr) in {Some(Stat2), Some(Stat3), Some(Statx)}
    requires out.ret == 0 && out.buffer == Some(st) && call.look.creates(ViewOf(t, sh)) == ""
    ensures Made(tb, cfg, sh, t, call, out).patch
         == FileOwnedBy(if st.key in sh.owners then sh.owners[st.key]
                        else Owner(if st.owner.uid == cfg.id.actual.uid then cfg.id.fake.uid else st.owner.uid,
                                   if st.owner.gid == cfg.id.actual.gid then cfg.id.fake.gid else st.owner.gid))
  {
    var u := EntryTracee(tb, cfg, sh, t, call).(inSyscall := true);
    PlainEntry(tb, cfg, sh, t, call);
    assert OwnersCreated(sh.owners, u, out) == sh.owners;
    var action := ActionOf(tb.actions, call.nr).value;
    assert ExitPatch(tb, cfg, sh, u, out) == FakedPatch(cfg, sh.owners, u, out, action);
  }

  /** So a stat of a file just made under another identity shows that identity. */
  lemma {:induction false} CreatedThenStat(tb: Tables, cfg: Config, sh: Shared, t: Tracee, call: Call, out: Out,
                                           stat: Call, found: Out, st: FileOwner.Stat)
    requires cfg.hasFakeIds && Owner(t.creds.fsuid, t.creds.fsgid) != cfg.id.fake
    requires MayCreate(tb, call.nr) && out.ret >= 0 && out.roomToCreate
    requires var path := call.look.creates(ViewOf(t, sh)); path != "" && out.stat(path) == Some(st.key)
    requires ActionOf(tb.actions, stat.nr) in {Some(Stat2), Some(Stat3), Some(Statx)}
    requires found.ret == 0 && found.buffer == Some(st)
    requires var x := Made(tb, cfg, sh, t, call, out); stat.look.creates(ViewOf(x.t, x.shared)) == ""
    ensures var x := Made(tb, cfg, sh, t, call, out);
            Made(tb, cfg, x.shared, x.t, stat, found).patch == FileOwnedBy(Owner(t.creds.fsuid, t.creds.fsgid))
  {
    CreationIsRemembered(tb, cfg, sh, t, call, out);
    var x := Made(tb, cfg, sh, t, call, out);
    StatShows(tb, cfg, x.shared, x.t, stat, found, st);
  }
}
