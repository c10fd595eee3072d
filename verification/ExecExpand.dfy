/** execve expanded by the tracer: script interpreters and the root's own loader are put in front of
    the arguments, so that the program that finally runs sees what a native exec would show it. */
module ExecExpand {
  import opened Words
  import opened GuestMemory

  const MAX_EXEC_ARGS: nat := 8192
  const SLOTS: nat := MAX_EXEC_ARGS + 16
  const MAX_SHEBANG_DEPTH: nat := 5
  const FOLLOWED: nat := MAX_SHEBANG_DEPTH - 1   // how many scripts in a row the tracer gets to the end of
  const NATIVE_SCRIPTS: nat := 5                 // how many the kernel does
  const ARGV0_FLAG: Text := "--argv0"

  /** An argv entry: a string the tracer made up, or a pointer into guest memory. */
  datatype Arg = Made(str: Text) | Ptr(ptr: U64)

  datatype Shebang = Shebang(interp: Text, arg: Option<Text>)

  /** What the file at a host path is, as far as execve cares. */
  datatype Image =
    | Missing
    | Script(line: Shebang)
    | Static
    | Dynamic(loader: Text)

  /** The file system seen from one process: guest path to host path, the files there, which two paths
      are one file, and which loaders understand --argv0; and the strings in its memory. */
  datatype System = System(host: Text -> Text, file: Text -> Image, same: (Text, Text) -> bool,
                           knowsArgv0: Text -> bool, text: U64 -> Text)

  /** The kernel, looking for this loader on the host, finds the very one the guest means. */
  predicate InPlace(sys: System, loader: Text) {
    !sys.file(loader).Missing? && !sys.file(sys.host(loader)).Missing? && sys.same(loader, sys.host(loader))
  }

  function TextOf(sys: System, a: Arg): Text { if a.Made? then a.str else sys.text(a.ptr) }

  function Texts(sys: System, args: seq<Arg>): (t: seq<Text>)
    ensures |t| == |args|
  {
    seq(|args|, i requires 0 <= i < |args| => TextOf(sys, args[i]))
  }

  function MadeUp(strs: seq<Text>): (a: seq<Arg>)
    ensures |a| == |strs| && forall i :: 0 <= i < |a| ==> a[i] == Made(strs[i])
  {
    seq(|strs|, i requires 0 <= i < |strs| => Made(strs[i]))
  }

  function Lead(line: Shebang, script: Text): (s: seq<Text>)
    ensures 2 <= |s| <= 3 && s[0] == line.interp
  {
    [line.interp] + (if line.arg.Some? then [line.arg.value] else []) + [script]
  }

  // ----- what a native exec runs -----

  /** The program, its argv, and the loader it runs on, by its host path. */
  datatype Run = Run(program: Text, argv: seq<Text>, loader: Option<Text>)

  /** The kernel's own expansion: at most `scripts` interpreters, then a program. */
  function Native(sys: System, path: Text, argv: seq<Text>, scripts: nat): Option<Run>
    requires argv != []
    decreases scripts
  {
    match sys.file(sys.host(path))
    case Missing => None
    case Script(line) =>
      if scripts == 0 then None else Native(sys, line.interp, Lead(line, path) + argv[1..], scripts - 1)
    case Dynamic(loader) =>
      if sys.file(sys.host(loader)).Missing? then None else Some(Run(sys.host(path), argv, Some(sys.host(loader))))
    case Static => Some(Run(sys.host(path), argv, None))
  }

  // ----- what the tracer makes of the call -----

  /** The rewritten call: the host path handed to the kernel, the arguments, and the program when it
      runs by way of a loader. */
  datatype Plan = Plan(rewritten: bool, host: Text, args: seq<Arg>, viaLoader: Option<Text>)

  function Expand(sys: System, path: Text, args: seq<Arg>, depth: nat, rewritten: bool, host: Text): (plan: Plan)
    requires args != [] && depth <= MAX_SHEBANG_DEPTH
    ensures plan.args != []
    decreases MAX_SHEBANG_DEPTH - depth
  {
    if depth == MAX_SHEBANG_DEPTH then Plan(rewritten, host, args, None)
    else
      var here := sys.host(path);
      match sys.file(here)
      case Missing => Plan(rewritten, here, args, None)
      case Script(line) => Expand(sys, line.interp, MadeUp(Lead(line, path)) + args[1..], depth + 1, true, here)
      case Static => Plan(rewritten, here, args, None)
      case Dynamic(loader) =>
        if InPlace(sys, loader) then Plan(rewritten, here, args, None)
        else Plan(true, sys.host(loader), MadeUp(LoaderLead(sys, loader, args[0], path)) + args[1..], Some(path))
  }

  function LoaderLead(sys: System, loader: Text, arg0: Arg, path: Text): (s: seq<Text>)
    ensures 2 <= |s| <= 4
  {
    [loader] + (if sys.knowsArgv0(sys.host(loader)) then [ARGV0_FLAG, TextOf(sys, arg0)] else []) + [path]
  }

  /** What a loader started with these arguments runs, and with which: it takes its own name, --argv0
      if it knows it, and the program's path off the front. */
  function LoaderRuns(sys: System, loaderHost: Text, argv: seq<Text>): Option<Run> {
    if sys.file(loaderHost).Missing? then None
    else if sys.knowsArgv0(loaderHost) && |argv| >= 4 && argv[1] == ARGV0_FLAG then
      Some(Run(sys.host(argv[3]), [argv[2]] + argv[4..], Some(loaderHost)))
    else if |argv| >= 2 then Some(Run(sys.host(argv[1]), argv[1..], Some(loaderHost)))
    else None
  }

  /** What the kernel runs when handed a host path: an interpreter or a loader is looked up just as the
      file names it, on the host. */
  function HostRuns(sys: System, host: Text, argv: seq<Text>, scripts: nat): Option<Run>
    requires argv != []
    decreases scripts
  {
    match sys.file(host)
    case Missing => None
    case Script(line) =>
      if scripts == 0 then None else HostRuns(sys, line.interp, Lead(line, host) + argv[1..], scripts - 1)
    case Dynamic(loader) => if sys.file(loader).Missing? then None else Some(Run(host, argv, Some(loader)))
    case Static => Some(Run(host, argv, None))
  }

  /** The program that finally runs, and the argv it observes. */
  function Observed(sys: System, plan: Plan): Option<Run>
    requires plan.args != []
  {
    if plan.viaLoader.Some? then LoaderRuns(sys, plan.host, Texts(sys, plan.args))
    else HostRuns(sys, plan.host, Texts(sys, plan.args), NATIVE_SCRIPTS)
  }

  /** With the call as it was made: one that is not rewritten keeps its arguments, and only its path is
      translated. */
  function Seen(sys: System, path: Text, args: seq<Arg>, plan: Plan): Option<Run>
    requires args != [] && plan.args != []
  {
    if plan.rewritten then Observed(sys, plan) else HostRuns(sys, sys.host(path), Texts(sys, args), NATIVE_SCRIPTS)
  }

  // ----- the loop -----

  /** Puts made-up strings in place of the first `drop` entries. */
  method ReplaceHead(args: array<Arg>, nargs: nat, drop: nat, strs: seq<Text>) returns (n: nat)
    requires drop <= nargs <= args.Length && nargs - drop + |strs| <= args.Length
    modifies args
    ensures n == nargs - drop + |strs|
    ensures args[..n] == MadeUp(strs) + old(args[drop..nargs])
  {
    forall i | drop <= i < nargs { args[i - drop + |strs|] := args[i]; }
    forall i | 0 <= i < |strs| { args[i] := Made(strs[i]); }
    n := nargs - drop + |strs|;
  }

  /** Reads the argv pointers up to the null pointer or the limit. */
  method CollectArgs(argv: seq<U64>, args: array<Arg>) returns (nargs: nat)
    requires args.Length == SLOTS
    modifies args
    ensures nargs <= MAX_EXEC_ARGS && nargs <= |argv|
    ensures forall i :: 0 <= i < nargs ==> argv[i] != 0 && args[i] == Ptr(argv[i])
    ensures nargs == MAX_EXEC_ARGS || nargs == |argv| || argv[nargs] == 0
  {
    nargs := 0;
    while nargs < MAX_EXEC_ARGS && nargs < |argv| && argv[nargs] != 0
      invariant nargs <= MAX_EXEC_ARGS && nargs <= |argv|
      invariant forall i :: 0 <= i < nargs ==> argv[i] != 0 && args[i] == Ptr(argv[i])
    {
      args[nargs] := Ptr(argv[nargs]);
      nargs := nargs + 1;
    }
  }

  /** The expansion loop. The array it shifts about in never overflows: at most two more entries for
      each script and three for the loader. */
  method ExpandExec(sys: System, path: Text, args: array<Arg>, nargs0: nat) returns (plan: Plan, nargs: nat)
    requires args.Length == SLOTS && 0 < nargs0 <= MAX_EXEC_ARGS
    modifies args
    ensures plan == Expand(sys, path, old(args[..nargs0]), 0, false, [])
    ensures nargs <= SLOTS && plan.args == args[..nargs]
  {
    nargs := nargs0;
    var execPath, host: Text, rewritten, depth := path, [], false, 0;
    ghost var want := Expand(sys, path, args[..nargs0], 0, false, []);
    var via: Option<Text> := None;
    ghost var settled := false;
    while depth < MAX_SHEBANG_DEPTH
      invariant depth <= MAX_SHEBANG_DEPTH && !settled
      invariant 0 < nargs <= nargs0 + 2 * depth
      invariant want == Expand(sys, execPath, args[..nargs], depth, rewritten, host)
    {
      host := sys.host(execPath);
      var image := sys.file(host);
      if image.Missing? || image.Static? || (image.Dynamic? && InPlace(sys, image.loader)) {
        return Plan(rewritten, host, args[..nargs], None), nargs;
      }
      ghost var before := args[..nargs];
      if image.Script? {
        var lead := if image.line.arg.Some? then [image.line.interp, image.line.arg.value, execPath]
                    else [image.line.interp, execPath];
        assert lead == Lead(image.line, execPath);
        nargs := ReplaceHead(args, nargs, 1, lead);
        assert args[..nargs] == MadeUp(lead) + before[1..];
        execPath, rewritten, depth := image.line.interp, true, depth + 1;
        continue;
      }
      var loaderHost := sys.host(image.loader);
      var lead := [image.loader];
      if sys.knowsArgv0(loaderHost) { lead := lead + [ARGV0_FLAG, TextOf(sys, args[0])]; }
      lead := lead + [execPath];
      assert lead == LoaderLead(sys, image.loader, before[0], execPath);
      nargs := ReplaceHead(args, nargs, 1, lead);
      assert args[..nargs] == MadeUp(lead) + before[1..];
      return Plan(true, loaderHost, args[..nargs], Some(execPath)), nargs;
    }
    return Plan(rewritten, host, args[..nargs], None), nargs;
  }

  // ----- meaning preserved -----

  /** Two paths of one loader, or none. */
  predicate SameLoader(sys: System, a: Option<Text>, b: Option<Text>) {
    a == b || (a.Some? && b.Some? && sys.same(a.value, b.value))
  }

  /** The same program runs with the same arguments, on the same loader; or nothing does. */
  predicate Alike(sys: System, a: Option<Run>, b: Option<Run>) {
    if a.Some? && b.Some?
    then a.value.program == b.value.program && a.value.argv == b.value.argv
         && SameLoader(sys, a.value.loader, b.value.loader)
    else a.None? && b.None?
  }

  /** What the kernel does with a script: interpreter, the line's argument if it has one, the script, and
      the arguments after the first. */
  lemma ScriptArguments(sys: System, path: Text, line: Shebang, argv: seq<Text>, scripts: nat)
    requires argv != [] && scripts > 0 && sys.file(sys.host(path)) == Script(line)
    ensures var lead := match line.arg case None => [line.interp, path] case Some(a) => [line.interp, a, path];
            Native(sys, path, argv, scripts) == Native(sys, line.interp, lead + argv[1..], scripts - 1)
  {
    var lead := match line.arg case None => [line.interp, path] case Some(a) => [line.interp, a, path];
    assert Lead(line, path) == lead;
  }

  lemma TextsLead(sys: System, strs: seq<Text>, args: seq<Arg>)
    requires args != []
    ensures Texts(sys, MadeUp(strs) + args[1..]) == strs + Texts(sys, args)[1..]
  {
  }

  /** Is the program reached after at most `scripts` scripts one the kernel starts through a loader,
      which one, and from which argv? */
  function LoaderOf(sys: System, path: Text, scripts: nat): Option<Text>
    decreases scripts
  {
    match sys.file(sys.host(path))
    case Script(line) => if scripts == 0 then None else LoaderOf(sys, line.interp, scripts - 1)
    case Dynamic(loader) => if InPlace(sys, loader) then None else Some(loader)
    case _ => None
  }

  /** Does the final program see its first argument as a native exec would show it? */
  predicate Argv0Kept(sys: System, path: Text, arg0: Text, scripts: nat) {
    var loader := LoaderOf(sys, path, scripts);
    loader.None? || sys.knowsArgv0(sys.host(loader.value)) || sys.file(sys.host(path)).Script? || arg0 == path
  }

  /** Do at most `scripts` scripts lead to something that is not one, if only to a missing file? */
  predicate Ends(sys: System, path: Text, scripts: nat)
    decreases scripts
  {
    match sys.file(sys.host(path))
    case Script(line) => scripts > 0 && Ends(sys, line.interp, scripts - 1)
    case _ => true
  }

  /** For every chain of fewer scripts than the limit: it fails natively exactly if it fails under the
      tracer; otherwise the same program runs, all arguments after the first are the same, and the
      first is the same exactly when the loader knows --argv0, or it equals the path anyway. */
  lemma {:induction false} ExpansionKeepsMeaning(sys: System, path: Text, args: seq<Arg>, depth: nat,
                                                 rewritten: bool, host: Text)
    requires args != [] && depth < MAX_SHEBANG_DEPTH && Ends(sys, path, MAX_SHEBANG_DEPTH - 1 - depth)
    ensures var left := MAX_SHEBANG_DEPTH - 1 - depth;
            var native := Native(sys, path, Texts(sys, args), left);
            var seen := Observed(sys, Expand(sys, path, args, depth, rewritten, host));
            && (seen.None? <==> native.None?)
            && (seen.Some? ==>
                  && seen.value.program == native.value.program
                  && SameLoader(sys, seen.value.loader, native.value.loader)
                  && seen.value.argv != [] && native.value.argv != [] && seen.value.argv[1..] == native.value.argv[1..]
                  && (seen.value.argv[0] == native.value.argv[0] <==> Argv0Kept(sys, path, TextOf(sys, args[0]), left)))
    decreases MAX_SHEBANG_DEPTH - depth
  {
    match sys.file(sys.host(path))
    case Script(line) =>
      var next := MadeUp(Lead(line, path)) + args[1..];
      TextsLead(sys, Lead(line, path), args);
      ExpansionKeepsMeaning(sys, line.interp, next, depth + 1, true, sys.host(path));
    case Dynamic(loader) =>
      if !InPlace(sys, loader) { LoaderSeesArgs(sys, path, args, loader); }
    case _ =>
  }

  lemma LoaderSeesArgs(sys: System, path: Text, args: seq<Arg>, loader: Text)
    requires args != []
    ensures var lead := LoaderLead(sys, loader, args[0], path);
            var run := LoaderRuns(sys, sys.host(loader), Texts(sys, MadeUp(lead) + args[1..]));
            var first := if sys.knowsArgv0(sys.host(loader)) then TextOf(sys, args[0]) else path;
            run == if sys.file(sys.host(loader)).Missing? then None
                   else Some(Run(sys.host(path), [first] + Texts(sys, args)[1..], Some(sys.host(loader))))
  {
    var lead := LoaderLead(sys, loader, args[0], path);
    TextsLead(sys, lead, args);
    var argv := lead + Texts(sys, args)[1..];
    if sys.knowsArgv0(sys.host(loader)) {
      assert argv[1] == ARGV0_FLAG && argv[2] == TextOf(sys, args[0]) && argv[3] == path;
      assert argv[4..] == Texts(sys, args)[1..];
    } else {
      assert argv[1..] == [path] + Texts(sys, args)[1..];
    }
  }

  /** A call is left alone only if the plan for it is the call itself. */
  lemma LeftAlone(sys: System, path: Text, args: seq<Arg>)
    requires args != []
    ensures var plan := Expand(sys, path, args, 0, false, []);
            Seen(sys, path, args, plan) == Observed(sys, plan)
  {
    if sys.file(sys.host(path)).Script? {
      var line := sys.file(sys.host(path)).line;
      StaysRewritten(sys, line.interp, MadeUp(Lead(line, path)) + args[1..], 1, sys.host(path));
    }
  }

  lemma {:induction false} StaysRewritten(sys: System, path: Text, args: seq<Arg>, depth: nat, host: Text)
    requires args != [] && depth <= MAX_SHEBANG_DEPTH
    ensures Expand(sys, path, args, depth, true, host).rewritten
    decreases MAX_SHEBANG_DEPTH - depth
  {
    if depth < MAX_SHEBANG_DEPTH && sys.file(sys.host(path)).Script? {
      var line := sys.file(sys.host(path)).line;
      StaysRewritten(sys, line.interp, MadeUp(Lead(line, path)) + args[1..], depth + 1, sys.host(path));
    }
  }

  // ----- more scripts than the tracer follows -----

  /** The first script whose interpreter the tracer does not look up any more, on the host. */
  function LastScript(sys: System, path: Text, scripts: nat): Text
    requires !Ends(sys, path, scripts)
    decreases scripts
  {
    if scripts == 0 then sys.host(path) else LastScript(sys, sys.file(sys.host(path)).line.interp, scripts - 1)
  }

  /** Do at most `scripts` scripts lead to a program, with the loader it needs, if any? */
  predicate Leads(sys: System, path: Text, scripts: nat)
    decreases scripts
  {
    match sys.file(sys.host(path))
    case Missing => false
    case Script(line) => scripts > 0 && Leads(sys, line.interp, scripts - 1)
    case Dynamic(loader) => !sys.file(sys.host(loader)).Missing?
    case Static => true
  }

  /** And with interpreters and loader looked up on the host? */
  predicate LeadsOnHost(sys: System, host: Text, scripts: nat)
    decreases scripts
  {
    match sys.file(host)
    case Missing => false
    case Script(line) => scripts > 0 && LeadsOnHost(sys, line.interp, scripts - 1)
    case Dynamic(loader) => !sys.file(loader).Missing?
    case Static => true
  }

  lemma {:induction false} NativeIff(sys: System, path: Text, argv: seq<Text>, scripts: nat)
    requires argv != []
    ensures Native(sys, path, argv, scripts).Some? <==> Leads(sys, path, scripts)
    decreases scripts
  {
    match sys.file(sys.host(path))
    case Script(line) => if scripts > 0 { NativeIff(sys, line.interp, Lead(line, path) + argv[1..], scripts - 1); }
    case _ =>
  }

  /** Following more scripts than there are changes nothing. */
  lemma {:induction false} NativeEnough(sys: System, path: Text, argv: seq<Text>, few: nat, many: nat)
    requires argv != [] && few <= many && Ends(sys, path, few)
    ensures Native(sys, path, argv, many) == Native(sys, path, argv, few)
    decreases few
  {
    match sys.file(sys.host(path))
    case Script(line) => NativeEnough(sys, line.interp, Lead(line, path) + argv[1..], few - 1, many - 1);
    case _ =>
  }

  /** Each script makes the argument list longer. */
  lemma {:induction false} HostRunsIff(sys: System, host: Text, argv: seq<Text>, scripts: nat)
    requires argv != []
    ensures var run := HostRuns(sys, host, argv, scripts);
            && (run.Some? <==> LeadsOnHost(sys, host, scripts))
            && (run.Some? ==> |run.value.argv| >= |argv| + if sys.file(host).Script? then 1 else 0)
    decreases scripts
  {
    match sys.file(host)
    case Script(line) => if scripts > 0 { HostRunsIff(sys, line.interp, Lead(line, host) + argv[1..], scripts - 1); }
    case _ =>
  }

  /** The loop then ends with the host path of the last script, but with the arguments of the program
      that script leads to. */
  lemma {:induction false} LoopGivesUp(sys: System, path: Text, args: seq<Arg>, depth: nat, rewritten: bool, host: Text)
    requires args != [] && depth < MAX_SHEBANG_DEPTH && !Ends(sys, path, FOLLOWED - depth)
    ensures var plan := Expand(sys, path, args, depth, rewritten, host);
            var last := LastScript(sys, path, FOLLOWED - depth);
            var native := Native(sys, path, Texts(sys, args), NATIVE_SCRIPTS - depth);
            && plan.rewritten && plan.viaLoader.None? && plan.host == last
            && sys.file(last).Script? && plan.args[0] == Made(sys.file(last).line.interp)
            && (native.Some? ==> native.value.argv == Texts(sys, plan.args))
    decreases MAX_SHEBANG_DEPTH - depth
  {
    var here := sys.host(path);
    var line := sys.file(here).line;
    TextsLead(sys, Lead(line, path), args);
    if depth < FOLLOWED { LoopGivesUp(sys, line.interp, MadeUp(Lead(line, path)) + args[1..], depth + 1, true, here); }
  }

  /** Of five scripts in a row or more, the fifth is handed to the kernel once more, its interpreter's
      name already in front of the arguments. What runs then, if its interpreter leads to a program on
      the host itself, is never what runs natively. */
  lemma {:induction false} FiveScriptsLeaveAStaleHost(sys: System, path: Text, args: seq<Arg>)
    requires args != [] && !Ends(sys, path, FOLLOWED)
    ensures var plan, last := Expand(sys, path, args, 0, false, []), LastScript(sys, path, FOLLOWED);
            var native, seen := Native(sys, path, Texts(sys, args), NATIVE_SCRIPTS), Observed(sys, plan);
            && plan.host == last && sys.file(last).Script? && plan.args[0] == Made(sys.file(last).line.interp)
            && (native.Some? <==> Leads(sys, path, NATIVE_SCRIPTS))
            && (seen.Some? <==> LeadsOnHost(sys, last, NATIVE_SCRIPTS))
            && (native.Some? && seen.Some? ==> !Alike(sys, seen, native))
  {
    LoopGivesUp(sys, path, args, 0, false, []);
    NativeIff(sys, path, Texts(sys, args), NATIVE_SCRIPTS);
    var plan := Expand(sys, path, args, 0, false, []);
    HostRunsIff(sys, plan.host, Texts(sys, plan.args), NATIVE_SCRIPTS);
  }

  /** path[0], ..., path[scripts - 1] are scripts, each named as interpreter by the one before. */
  predicate Chain(sys: System, path: seq<Text>, scripts: nat)
    requires |path| == scripts + 1
  {
    forall i :: 0 <= i < scripts ==>
      sys.file(sys.host(path[i])).Script? && sys.file(sys.host(path[i])).line.interp == path[i + 1]
  }

  lemma {:induction false} ChainFacts(sys: System, path: seq<Text>, scripts: nat)
    requires |path| == scripts + 1 && Chain(sys, path, scripts)
    ensures scripts > 0 ==> !Ends(sys, path[0], scripts - 1)
                            && LastScript(sys, path[0], scripts - 1) == sys.host(path[scripts - 1])
    ensures sys.file(sys.host(path[scripts])).Static? ==> Leads(sys, path[0], scripts)
    decreases scripts
  {
    if scripts > 0 { ChainFacts(sys, path[1..], scripts - 1); }
  }

  /** For instance: five scripts, as many as the kernel follows, and a program that only the root has.
      It runs natively, and not here. */
  lemma {:induction false} FiveScriptsInRootFail(sys: System, path: seq<Text>, args: seq<Arg>)
    requires |path| == 6 && args != [] && Chain(sys, path, 5)
    requires sys.file(sys.host(path[5])).Static? && sys.file(path[5]).Missing?
    ensures Native(sys, path[0], Texts(sys, args), NATIVE_SCRIPTS).Some?
    ensures Observed(sys, Expand(sys, path[0], args, 0, false, [])).None?
  {
    ChainFacts(sys, path, 5);
    assert sys.file(sys.host(path[4])).line.interp == path[5];
    FiveScriptsLeaveAStaleHost(sys, path[0], args);
  }

  lemma {:induction false} NamesItself(sys: System, path: Text, scripts: nat)
    requires sys.file(sys.host(path)).Script? && sys.file(sys.host(path)).line.interp == path
    ensures !Ends(sys, path, scripts) && LastScript(sys, path, scripts) == sys.host(path) && !Leads(sys, path, scripts)
    decreases scripts
  {
    if scripts > 0 { NamesItself(sys, path, scripts - 1); }
  }

  /** Or: a guest script that names itself as its interpreter, where the host has a program of that
      name. No exec of it succeeds natively; here the host's program runs. */
  lemma {:induction false} SelfScriptRunsOnHost(sys: System, path: Text, args: seq<Arg>)
    requires args != [] && sys.file(path).Static?
    requires sys.file(sys.host(path)).Script? && sys.file(sys.host(path)).line.interp == path
    ensures Native(sys, path, Texts(sys, args), NATIVE_SCRIPTS).None?
    ensures var seen := Observed(sys, Expand(sys, path, args, 0, false, [])); seen.Some? && seen.value.program == path
  {
    NamesItself(sys, path, FOLLOWED);
    NamesItself(sys, path, NATIVE_SCRIPTS);
    FiveScriptsLeaveAStaleHost(sys, path, args);
  }

  // ----- the call as the guest makes it -----

  function Pointers(argv: seq<U64>): (args: seq<Arg>)
    ensures |args| == |argv| && forall i :: 0 <= i < |args| ==> args[i] == Ptr(argv[i])
  {
    seq(|argv|, i requires 0 <= i < |argv| => Ptr(argv[i]))
  }

  /** For every call: the same program runs with the same argv on the same loader, or both fail, exactly
      if there are at most four scripts and the call fails or its first argument is kept, or there are more
      and they lead to a program neither in the guest nor, from the fifth on, on the host. */
  lemma {:induction false} ExecKeepsMeaning(sys: System, path: Text, argv: seq<U64>)
    requires argv != []
    ensures var args := Pointers(argv);
            var native := Native(sys, path, Texts(sys, args), NATIVE_SCRIPTS);
            var seen := Seen(sys, path, args, Expand(sys, path, args, 0, false, []));
            && (Alike(sys, seen, native) <==>
                  if Ends(sys, path, FOLLOWED)
                  then !Leads(sys, path, NATIVE_SCRIPTS) || Argv0Kept(sys, path, sys.text(argv[0]), FOLLOWED)
                  else !Leads(sys, path, NATIVE_SCRIPTS)
                       && !LeadsOnHost(sys, LastScript(sys, path, FOLLOWED), NATIVE_SCRIPTS))
            && (Ends(sys, path, FOLLOWED) && native.Some? ==>
                  seen.Some? && seen.value.program == native.value.program
                  && SameLoader(sys, seen.value.loader, native.value.loader))
  {
    var args := Pointers(argv);
    LeftAlone(sys, path, args);
    NativeIff(sys, path, Texts(sys, args), NATIVE_SCRIPTS);
    if Ends(sys, path, FOLLOWED) {
      ExpansionKeepsMeaning(sys, path, args, 0, false, []);
      NativeEnough(sys, path, Texts(sys, args), FOLLOWED, NATIVE_SCRIPTS);
      var native := Native(sys, path, Texts(sys, args), NATIVE_SCRIPTS);
      var seen := Observed(sys, Expand(sys, path, args, 0, false, []));
      if native.Some? {
        assert seen.value.argv == [seen.value.argv[0]] + seen.value.argv[1..];
        assert native.value.argv == [native.value.argv[0]] + native.value.argv[1..];
      }
    } else {
      FiveScriptsLeaveAStaleHost(sys, path, args);
    }
  }
}
