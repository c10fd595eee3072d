/** What one syscall does to the tracer's state: the entry handler notes and redirects, the exit
    handler commits. The outside world is whatever it is at that moment: functions of what the process
    sees. */
module Syscalls {
  import opened Words
  import opened OwnerTable
  import opened FileOwner
  import opened Bindings
  import Creds

  datatype Action =
    | GetUid | GetEuid | GetGid | GetEgid | GetResUid | GetResGid | GetGroups
    | SetUid | SetGid | SetReUid | SetReGid | SetResUid | SetResGid | SetGroups | SetFsUid | SetFsGid
    | Chown | Stat2 | Stat3 | Statx | GetCwd | Chroot | Mount | Umount | ReadLink | Execve | Uname

  datatype ActionEntry = ActionEntry(nr: U32, action: Action)

  /** The syscall tables of one architecture; a call it lacks has no number. */
  datatype Tables = Tables(paths: seq<U32>, actions: seq<ActionEntry>, execve: Option<U32>, bind: Option<U32>,
                           connect: Option<U32>, sendto: Option<U32>, execveat: Option<U32>, fchownat: Option<U32>)

  function ActionOf(entries: seq<ActionEntry>, nr: U32): (a: Option<Action>)
    ensures a.None? <==> forall i :: 0 <= i < |entries| ==> entries[i].nr != nr
  {
    if entries == [] then None
    else if entries[0].nr == nr then Some(entries[0].action)
    else ActionOf(entries[1..], nr)
  }

  /** The calls the engine has something to do for; what the seccomp filter is to stop. */
  predicate Handled(tb: Tables, nr: U32) {
    || nr in tb.paths || ActionOf(tb.actions, nr).Some?
    || tb.execve == Some(nr) || tb.bind == Some(nr) || tb.connect == Some(nr) || tb.sendto == Some(nr)
  }

  datatype Config = Config(hasFakeIds: bool, id: Identity, root: string)

  /** What all processes share. */
  datatype Shared = Shared(bindings: seq<Binding>, owners: OwnerMap)

  datatype Tracee = Tracee(
    creds: Creds.State, root: string, exe: string,                    // lasting
    inSyscall: bool, awaitingExit: bool, isNew: bool,                  // where it is
    sysno: U32, args: Registers, pendingExe: string, note: Option<Note>,  // the call in progress
    created: string, pendingRoot: string, mountHandled: bool, procLink: bool)

  /** How a process names things: its root and the bindings. */
  datatype View = View(root: string, bindings: seq<Binding>)

  datatype MountPoint = MountPoint(guest: string, host: string)
  datatype Exec = Declined | Rewritten(exe: string)

  /** What the entry handler finds when it looks: the file a chown names, the directory a chroot names,
      where a mount goes and what it mounts, the host path of a file about to be created, what becomes
      of an execve, whether a readlink is of /proc, and the registers once paths are redirected. */
  datatype Look = Look(
    chownStat: View -> Option<Stat>, directory: View -> Option<string>, mountTarget: View -> Option<MountPoint>,
    mountSource: View -> Option<string>, creates: View -> string, exec: View -> Exec, procLink: View -> bool,
    redirect: (View, seq<U64>) -> seq<U64>)

  type Registers = s: seq<U64> | |s| == 6 witness [0, 0, 0, 0, 0, 0]

  datatype Call = Call(nr: U32, args: Registers, look: Look)

  /** What the exit handler finds: the result, the file now at a path, a group list if readable, the
      length of an answer mapped back to guest paths, the file a stat buffer is about if it can be read,
      and whether the ownership table has room for a created file and for a chown. */
  datatype Out = Out(ret: int, stat: string -> Option<Key>, groups: Option<nat -> U32>, answer: View -> Option<int>,
                     buffer: Option<Stat>, roomToCreate: bool, roomToChown: bool)

  /** What the exit handler writes into the guest's memory. */
  datatype Patch = Unpatched | Ids(ids: Creds.Ids) | Groups(groups: seq<U32>) | FileOwnedBy(owner: Owner)

  function ViewOf(t: Tracee, sh: Shared): View { View(t.root, sh.bindings) }

  function Low32(a: U64): U32 { a % TWO_32 }

  function Signed(a: U64): (n: int)
    ensures -0x8000_0000_0000_0000 <= n < 0x8000_0000_0000_0000 && n % TWO_64 == a
  {
    if a < TWO_64 / 2 then a else a - TWO_64
  }

  // ----- entry -----

  /** A credential change must not happen for real. */
  function Neutral(id: Identity, action: Option<Action>, args: Registers): Registers {
    var none: U64 := NOID;
    match action
    case Some(SetUid) => args[0 := id.actual.uid]
    case Some(SetGid) => args[0 := id.actual.gid]
    case Some(SetReUid) => args[0 := none][1 := none]
    case Some(SetReGid) => args[0 := none][1 := none]
    case Some(SetResUid) => args[0 := none][1 := none][2 := none]
    case Some(SetResGid) => args[0 := none][1 := none][2 := none]
    case Some(SetFsUid) => args[0 := none]
    case Some(SetFsGid) => args[0 := none]
    case _ => args
  }

  function NoteOf(tb: Tables, cfg: Config, sh: Shared, t: Tracee, call: Call): Option<Note> {
    var st := call.look.chownStat(ViewOf(t, sh));
    if !cfg.hasFakeIds || ActionOf(tb.actions, call.nr) != Some(Chown) || st.None? then None
    else
      var k := if tb.fchownat == Some(call.nr) then 2 else 1;
      Some(Noted(cfg.id, sh.owners, st.value, Low32(call.args[k]), Low32(call.args[k + 1])))
  }

  /** Is this chroot, mount or umount emulated, so that nothing else is done at its entry? */
  function Emulated(tb: Tables, cfg: Config, sh: Shared, t: Tracee, call: Call): Option<Action> {
    var action := ActionOf(tb.actions, call.nr);
    if !cfg.hasFakeIds || !t.creds.Privileged() then None
    else if action == Some(Mount) || action == Some(Umount) then action
    else if action == Some(Chroot) && NewRoot(sh, t, call) != "" then action
    else None
  }

  function NewRoot(sh: Shared, t: Tracee, call: Call): string {
    var dir := call.look.directory(ViewOf(t, sh));
    if dir.Some? then dir.value else ""
  }

  /** The tracee after the entry handler: everything about the call in progress is set anew. */
  function EntryTracee(tb: Tables, cfg: Config, sh: Shared, t: Tracee, call: Call): Tracee {
    var view, emulated := ViewOf(t, sh), Emulated(tb, cfg, sh, t, call);
    var exec := if emulated.None? && tb.execve == Some(call.nr) then call.look.exec(view) else Declined;
    var path := emulated.None? && exec.Declined? && call.nr in tb.paths
                && Some(call.nr) !in {tb.bind, tb.connect, tb.sendto};
    t.(sysno := call.nr, args := call.args,
       note := NoteOf(tb, cfg, sh, t, call),
       pendingRoot := if emulated == Some(Chroot) then NewRoot(sh, t, call) else "",
       mountHandled := emulated.Some? && emulated != Some(Chroot) && call.look.mountTarget(view).Some?,
       pendingExe := if exec.Rewritten? then exec.exe else "",
       created := if path && cfg.hasFakeIds && Owner(t.creds.fsuid, t.creds.fsgid) != cfg.id.fake
                  then call.look.creates(view) else "",
       procLink := path && call.look.procLink(view))
  }

  function EntryShared(tb: Tables, cfg: Config, sh: Shared, t: Tracee, call: Call): Shared {
    var view := ViewOf(t, sh);
    var target := call.look.mountTarget(view);
    match Emulated(tb, cfg, sh, t, call)
    case Some(Mount) =>
      var source := call.look.mountSource(view);
      if target.None? || source.None? then sh
      else sh.(bindings := Apply(sh.bindings, Push(Binding(source.value, target.value.guest, target.value.host))))
    case Some(Umount) =>
      if target.None? then sh else sh.(bindings := RemoveNewest(sh.bindings, target.value.guest))
    case _ => sh
  }

  /** The argument registers the kernel then sees. */
  function EntryArgs(tb: Tables, cfg: Config, sh: Shared, t: Tracee, call: Call): seq<U64> {
    var args := if cfg.hasFakeIds then Neutral(cfg.id, ActionOf(tb.actions, call.nr), call.args) else call.args;
    var view, emulated := ViewOf(t, sh), Emulated(tb, cfg, sh, t, call);
    var redirected := if emulated.Some? then emulated == Some(Chroot) || call.look.mountTarget(view).Some?
                      else call.nr in tb.paths
                           || Some(call.nr) in {tb.execve, tb.bind, tb.connect, tb.sendto, tb.execveat};
    if redirected then call.look.redirect(view, args) else args
  }

  // ----- exit -----

  /** The set*id call the guest made, if it made one whose arguments could be read. */
  function CredsCall(action: Action, args: Registers, out: Out): Option<Creds.Call> {
    var a, b, c := Low32(args[0]), Low32(args[1]), Low32(args[2]);
    match action
    case SetUid => Some(Creds.SetUid(a))
    case SetGid => Some(Creds.SetGid(a))
    case SetReUid => Some(Creds.SetReUid(a, b))
    case SetReGid => Some(Creds.SetReGid(a, b))
    case SetResUid => Some(Creds.SetResUid(a, b, c))
    case SetResGid => Some(Creds.SetResGid(a, b, c))
    case SetFsUid => Some(Creds.SetFsUid(a))
    case SetFsGid => Some(Creds.SetFsGid(a))
    case SetGroups =>
      var n := Signed(args[0]);
      if 0 < n <= Creds.MAX_GROUPS && out.groups.None? then None
      else Some(Creds.SetGroups(if out.groups.Some? then out.groups.value else (_: nat) => 0, n))
    case _ => None
  }

  function ExitTracee(tb: Tables, cfg: Config, t: Tracee, out: Out): Tracee {
    var action := ActionOf(tb.actions, t.sysno);
    var call := if cfg.hasFakeIds && action.Some? then CredsCall(action.value, t.args, out) else None;
    t.(created := "",
       exe := if action == Some(Execve) && out.ret == 0 then t.pendingExe else t.exe,
       root := if action == Some(Chroot) && t.pendingRoot != "" then t.pendingRoot else t.root,
       pendingRoot := if action == Some(Chroot) then "" else t.pendingRoot,
       creds := if call.Some? then Creds.Step(t.creds, call.value) else t.creds)
  }

  /** The file the call turns out to have made, under another identity than the default. */
  function CreatedKey(t: Tracee, out: Out): Option<Key> {
    if t.created != "" && out.ret >= 0 then out.stat(t.created) else None
  }

  function OwnersCreated(owners: OwnerMap, t: Tracee, out: Out): OwnerMap {
    var key := CreatedKey(t, out);
    if key.Some? && out.roomToCreate then owners[key.value := Owner(t.creds.fsuid, t.creds.fsgid)] else owners
  }

  function ExitShared(tb: Tables, cfg: Config, sh: Shared, t: Tracee, out: Out): Shared {
    var owners := OwnersCreated(sh.owners, t, out);
    if cfg.hasFakeIds && ActionOf(tb.actions, t.sysno) == Some(Chown)
    then sh.(owners := Committed(owners, t.note, out.ret, out.roomToChown)) else sh.(owners := owners)
  }

  /** The calls that only read the fake credentials. */
  function ReadResult(action: Action, c: Creds.State, arg: U64): Option<int> {
    match action
    case GetUid => Some(c.uid.own)
    case GetEuid => Some(c.uid.effective)
    case GetGid => Some(c.gid.own)
    case GetEgid => Some(c.gid.effective)
    case GetResUid => Some(0)
    case GetResGid => Some(0)
    case GetGroups => Some(if arg != 0 && Signed(arg) < |c.groups| then -EINVAL else |c.groups|)
    case _ => None
  }

  /** What a call that is answered from the fake identity is seen to return. */
  function FakedResult(action: Action, t: Tracee, out: Out): int {
    var read, call := ReadResult(action, t.creds, t.args[0]), CredsCall(action, t.args, out);
    if read.Some? then read.value
    else if action == Chown then if out.ret == -EPERM || out.ret == -EINVAL then 0 else out.ret
    else if call.Some? then Creds.Answer(t.creds, call.value)
    else if action == SetGroups then -EFAULT
    else out.ret
  }

  function ExitResult(tb: Tables, cfg: Config, sh: Shared, t: Tracee, out: Out): int {
    match ActionOf(tb.actions, t.sysno)
    case None => out.ret
    case Some(action) => KnownResult(cfg, sh, t, out, action)
  }

  function KnownResult(cfg: Config, sh: Shared, t: Tracee, out: Out, action: Action): int {
    var answer := out.answer(ViewOf(t, sh));
    if action == GetCwd || (action == ReadLink && t.procLink) then
      if out.ret > 0 && answer.Some? then answer.value else out.ret
    else if action == Chroot && t.pendingRoot != "" then 0
    else if (action == Mount || action == Umount) && t.mountHandled then 0
    else if action == ReadLink || action == Execve then out.ret
    else if cfg.hasFakeIds then FakedResult(action, t, out)
    else out.ret
  }

  /** Fake ids, groups, and the owner of the file in a stat buffer. */
  function FakedPatch(cfg: Config, owners: OwnerMap, t: Tracee, out: Out, action: Action): Patch {
    if action == GetResUid then Ids(t.creds.uid)
    else if action == GetResGid then Ids(t.creds.gid)
    else if action == GetGroups && t.args[0] != 0 && Signed(t.args[0]) >= |t.creds.groups| then Groups(t.creds.groups)
    else if action in {Stat2, Stat3, Statx} && out.ret == 0 && out.buffer.Some? then
      var file := out.buffer.value;
      FileOwnedBy(FileOwner.Visible(cfg.id, owners, (_: Key) => file.owner, file.key))
    else Unpatched
  }

  function ExitPatch(tb: Tables, cfg: Config, sh: Shared, t: Tracee, out: Out): Patch {
    match ActionOf(tb.actions, t.sysno)
    case None => Unpatched
    case Some(action) =>
      if cfg.hasFakeIds then FakedPatch(cfg, OwnersCreated(sh.owners, t, out), t, out, action) else Unpatched
  }

  lemma ResultIgnoresCreated(cfg: Config, sh: Shared, t: Tracee, out: Out, action: Action)
    ensures KnownResult(cfg, sh, t.(created := ""), out, action) == KnownResult(cfg, sh, t, out, action)
  {
  }

  /** Is the exit of this call not about identity? */
  predicate EndsEarly(t: Tracee, action: Action) {
    || action in {GetCwd, Execve, ReadLink}
    || (action == Chroot && t.pendingRoot != "")
    || (action in {Mount, Umount} && t.mountHandled)
  }

  lemma EarlyExit(cfg: Config, sh: Shared, t: Tracee, out: Out, action: Action)
    requires EndsEarly(t, action)
    ensures AfterExit(cfg, t, out, action)
         == if action == Execve && out.ret == 0 then t.(exe := t.pendingExe)
            else if action == Chroot then t.(root := t.pendingRoot, pendingRoot := "") else t
  {
  }

  lemma LateExit(cfg: Config, sh: Shared, t: Tracee, out: Out, action: Action)
    requires !EndsEarly(t, action)
    ensures var call := CredsCall(action, t.args, out);
            AfterExit(cfg, t, out, action)
            == if cfg.hasFakeIds && call.Some? then t.(creds := Creds.Step(t.creds, call.value)) else t
    ensures KnownResult(cfg, sh, t, out, action) == if cfg.hasFakeIds then FakedResult(action, t, out) else out.ret
  {
  }

  /** The exit handler's changes to the tracee, call by call. */
  function AfterExit(cfg: Config, u: Tracee, out: Out, action: Action): Tracee {
    var call := CredsCall(action, u.args, out);
    if action == Execve then if out.ret == 0 then u.(exe := u.pendingExe) else u
    else if action == Chroot && u.pendingRoot != "" then u.(root := u.pendingRoot, pendingRoot := "")
    else if cfg.hasFakeIds && call.Some? then u.(creds := Creds.Step(u.creds, call.value))
    else u
  }

  lemma ExitByAction(tb: Tables, cfg: Config, t: Tracee, out: Out)
    ensures ExitTracee(tb, cfg, t, out)
         == match ActionOf(tb.actions, t.sysno)
            case None => t.(created := "")
            case Some(action) => AfterExit(cfg, t.(created := ""), out, action)
  {
  }

  // ----- calls the engine does not handle -----

  /** The call in progress is one the exit handler will do nothing for. */
  predicate Quiet(tb: Tables, t: Tracee) { t.created == "" && ActionOf(tb.actions, t.sysno).None? }

  /** What of a tracee outlives a call. */
  predicate SameLasting(a: Tracee, b: Tracee) {
    a.creds == b.creds && a.root == b.root && a.exe == b.exe && a.isNew == b.isNew
  }

  /** Entry and exit of a call the engine does not handle leave nothing behind; execveat apart, they
      leave its registers alone too. */
  lemma {:induction false} UnhandledLeavesNoTrace(tb: Tables, cfg: Config, sh: Shared, t: Tracee, call: Call)
    requires !Handled(tb, call.nr)
    ensures var u := EntryTracee(tb, cfg, sh, t, call);
            SameLasting(u, t) && Quiet(tb, u) && u.inSyscall == t.inSyscall && u.awaitingExit == t.awaitingExit
    ensures EntryShared(tb, cfg, sh, t, call) == sh
    ensures tb.execveat != Some(call.nr) ==> EntryArgs(tb, cfg, sh, t, call) == call.args
  {
    assert ActionOf(tb.actions, call.nr).None?;
    assert Emulated(tb, cfg, sh, t, call).None?;
  }

  lemma {:induction false} QuietExit(tb: Tables, cfg: Config, sh: Shared, t: Tracee, out: Out)
    requires Quiet(tb, t)
    ensures SameLasting(ExitTracee(tb, cfg, t, out), t) && ExitShared(tb, cfg, sh, t, out) == sh
    ensures ExitResult(tb, cfg, sh, t, out) == out.ret && ExitPatch(tb, cfg, sh, t, out) == Unpatched
    ensures var u := ExitTracee(tb, cfg, t, out); u.inSyscall == t.inSyscall && u.awaitingExit == t.awaitingExit
  {
    assert sh.(owners := sh.owners) == sh;
  }

  /** The entry handler does not depend on what an earlier call left in the tracee: the same lasting
      state gives the same tracee, but for where the two processes are. */
  lemma {:induction false} EntryForgets(tb: Tables, cfg: Config, sh: Shared, a: Tracee, b: Tracee, call: Call)
    requires SameLasting(a, b)
    ensures EntryTracee(tb, cfg, sh, a, call).(inSyscall := b.inSyscall, awaitingExit := b.awaitingExit)
         == EntryTracee(tb, cfg, sh, b, call)
    ensures EntryShared(tb, cfg, sh, a, call) == EntryShared(tb, cfg, sh, b, call)
    ensures EntryArgs(tb, cfg, sh, a, call) == EntryArgs(tb, cfg, sh, b, call)
  {
  }

  lemma ResultIgnoresFlags(tb: Tables, cfg: Config, sh: Shared, t: Tracee, x: bool, y: bool, out: Out)
    ensures ExitResult(tb, cfg, sh, t.(inSyscall := x, awaitingExit := y), out) == ExitResult(tb, cfg, sh, t, out)
    ensures ExitPatch(tb, cfg, sh, t.(inSyscall := x, awaitingExit := y), out) == ExitPatch(tb, cfg, sh, t, out)
  {
  }

  /** Nor does the exit handler look at where the tracer takes the process to be. */
  lemma {:induction false} ExitIgnoresFlags(tb: Tables, cfg: Config, sh: Shared, a: Tracee, b: Tracee, out: Out)
    requires a.(inSyscall := b.inSyscall, awaitingExit := b.awaitingExit) == b
    ensures ExitTracee(tb, cfg, a, out).(inSyscall := b.inSyscall, awaitingExit := b.awaitingExit)
         == ExitTracee(tb, cfg, b, out)
    ensures ExitShared(tb, cfg, sh, a, out) == ExitShared(tb, cfg, sh, b, out)
    ensures ExitResult(tb, cfg, sh, a, out) == ExitResult(tb, cfg, sh, b, out)
    ensures ExitPatch(tb, cfg, sh, a, out) == ExitPatch(tb, cfg, sh, b, out)
  {
    ResultIgnoresFlags(tb, cfg, sh, a, b.inSyscall, b.awaitingExit, out);
  }
}
