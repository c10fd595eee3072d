/** Resolving a guest path: the in-place walk over one text buffer, the list walk it follows step by
    step, and a resolver that treats every link's target as a path of its own. */
module Walk {
  import opened Words
  import opened PathText
  import opened Bindings
  import opened Namespace

  const MAX_HOPS: nat := 40

  /** A link's text is never empty. */
  type Target = s: string | s != "" witness "/"

  /** The host file system as the tracer sees it: the target of the link at a host path, if any. */
  type Links = string -> Option<Target>

  /** A path's text taken apart. */
  datatype Parsed = Parsed(rooted: bool, comps: seq<string>, slash: bool)

  function Parse(path: string): Parsed { Parsed(Rooted(path), Split(path), EndsWithSlash(path)) }

  /** The guest's directory tree, as far as resolution looks at it: which places lie in /proc, where
      links are the kernel's business, and which are links to what. */
  datatype Tree = Tree(inProc: seq<string> -> bool, linkAt: seq<string> -> Option<Parsed>)

  datatype Env = Env(bs: seq<Binding>, root: string, links: Links) {
    function Host(dir: seq<string>): string { MapToHost(bs, root, Render(dir)) }

    function TreeOf(): Tree {
      Tree((dir: seq<string>) => "/proc/" <= Host(dir),
           (dir: seq<string>) => var link := links(Host(dir)); if link.Some? then Some(Parse(link.value)) else None)
    }
  }

  datatype Outcome =
    | Complete(dir: seq<string>, slash: bool, hops: nat)
    | Stopped

  function Parent(dir: seq<string>): seq<string> { if dir == [] then [] else dir[..|dir| - 1] }

  function Base(dir: seq<string>, target: Parsed): seq<string> { if target.rooted then [] else dir }

  /** What the first component comes to: the end of the walk, another directory, or a link to follow
      from the directory that holds it. */
  datatype Sight =
    | Ended(outcome: Outcome)
    | Onward(dir: seq<string>)
    | Link(base: seq<string>, target: Parsed)

  /** `slash` says the path ends in a slash, `follow` that a link in its last place is followed all the
      same. */
  function Look(tree: Tree, dir: seq<string>, comps: seq<string>, slash: bool, follow: bool, hops: nat): (s: Sight)
    requires comps != []
    ensures s.Link? ==> hops > 0 && (comps[1..] == [] && !slash ==> follow)
  {
    var here := dir + [comps[0]];
    if comps[0] == "." then Onward(dir)
    else if comps[0] == ".." then Onward(Parent(dir))
    else if comps[1..] == [] && !slash && !follow then Ended(Complete(here, false, hops))
    else if tree.inProc(here) then Ended(Stopped)
    else
      match tree.linkAt(here)
      case None => Onward(here)
      case Some(target) => if hops == 0 then Ended(Stopped) else Link(Base(dir, target), target)
  }

  // ----- the reference: section 4.13 of the POSIX.1-2017 Base Definitions, recursively -----

  /** Resolves `comps` from `dir`. A link's target is resolved as a path of its own, all of its links
      followed, and the rest of the components from where that leads. */
  function Resolve(tree: Tree, dir: seq<string>, comps: seq<string>, slash: bool, follow: bool, hops: nat): (r: Outcome)
    ensures r.Complete? ==> r.hops <= hops
    decreases hops, |comps|
  {
    if comps == [] then Complete(dir, slash, hops)
    else
      match Look(tree, dir, comps, slash, follow, hops)
      case Ended(outcome) => outcome
      case Onward(d) => Resolve(tree, d, comps[1..], slash, follow, hops)
      case Link(base, target) =>
        var t := Resolve(tree, base, target.comps, target.slash, true, hops - 1);
        if t.Stopped? then Stopped
        else Resolve(tree, t.dir, comps[1..], slash || (comps[1..] == [] && t.slash), follow, t.hops)
  }

  function ResolvePath(env: Env, path: string, follow: bool): Outcome {
    Resolve(env.TreeOf(), [], Split(path), EndsWithSlash(path), follow, MAX_HOPS)
  }

  // ----- the list walk: a link's target is put in front of what is left -----

  function SpliceSlash(rest: seq<string>, slash: bool, target: Parsed): bool {
    if rest == [] && !slash then target.slash else slash
  }

  /** One component: the walk ends, or goes on from another directory with other components. */
  datatype Move =
    | End(outcome: Outcome)
    | Go(dir: seq<string>, comps: seq<string>, slash: bool, hops: nat)

  function Step(tree: Tree, dir: seq<string>, comps: seq<string>, slash: bool, follow: bool, hops: nat): (m: Move)
    requires comps != []
    ensures m.Go? ==> m.hops < hops || (m.hops == hops && |m.comps| < |comps|)
  {
    match Look(tree, dir, comps, slash, follow, hops)
    case Ended(outcome) => End(outcome)
    case Onward(d) => Go(d, comps[1..], slash, hops)
    case Link(base, target) => Go(base, target.comps + comps[1..], SpliceSlash(comps[1..], slash, target), hops - 1)
  }

  function Splice(tree: Tree, dir: seq<string>, comps: seq<string>, slash: bool, follow: bool, hops: nat): (r: Outcome)
    ensures r.Complete? ==> r.hops <= hops
    decreases hops, |comps|
  {
    if comps == [] then Complete(dir, slash, hops)
    else
      match Step(tree, dir, comps, slash, follow, hops)
      case End(outcome) => outcome
      case Go(d, cs, s, h) => Splice(tree, d, cs, s, follow, h)
  }

  /** With more to come, or a trailing slash, a step is the step with links always followed. */
  lemma StepAppend(tree: Tree, dir: seq<string>, xs: seq<string>, ys: seq<string>, s: bool, slash: bool,
                   follow: bool, hops: nat)
    requires xs != [] && (ys != [] || slash)
    ensures var m := Step(tree, dir, xs, s, true, hops);
            Step(tree, dir, xs + ys, slash, follow, hops)
            == if m.End? then m else Go(m.dir, m.comps + ys, slash, m.hops)
    ensures var m := Step(tree, dir, xs, s, true, hops); m.End? ==> m.outcome == Stopped
  {
    var rest := xs[1..];
    assert (xs + ys)[0] == xs[0] && (xs + ys)[1..] == rest + ys;
    match tree.linkAt(dir + [xs[0]])
    case None =>
    case Some(target) => assert target.comps + (rest + ys) == (target.comps + rest) + ys;
  }

  /** Walking `xs` and then `ys` is one walk, as long as nothing in `xs` counts as last. */
  lemma {:induction false} SpliceAppend(tree: Tree, dir: seq<string>, xs: seq<string>, ys: seq<string>,
                                        s: bool, slash: bool, follow: bool, hops: nat)
    requires ys != [] || slash
    ensures var t := Splice(tree, dir, xs, s, true, hops);
            Splice(tree, dir, xs + ys, slash, follow, hops)
            == if t.Stopped? then Stopped else Splice(tree, t.dir, ys, slash, follow, t.hops)
    decreases hops, |xs|
  {
    if xs == [] {
      assert xs + ys == ys;
    } else {
      StepAppend(tree, dir, xs, ys, s, slash, follow, hops);
      var m := Step(tree, dir, xs, s, true, hops);
      if m.Go? { SpliceAppend(tree, m.dir, m.comps, ys, m.slash, slash, follow, m.hops); }
    }
  }

  /** A target in front of the rest, walked: first the target, then the rest. */
  lemma {:induction false} SpliceTarget(tree: Tree, base: seq<string>, texts: seq<string>, rest: seq<string>,
                                        ends: bool, slash: bool, follow: bool, hops: nat, t: Outcome, after: Outcome)
    requires rest == [] && !slash ==> follow
    requires t == Splice(tree, base, texts, ends, true, hops)
    requires t.Complete? ==> after == Splice(tree, t.dir, rest, slash || (rest == [] && t.slash), follow, t.hops)
    requires t.Stopped? ==> after == Stopped
    ensures Splice(tree, base, texts + rest, if rest == [] && !slash then ends else slash, follow, hops) == after
  {
    if rest == [] && !slash {
      assert texts + rest == texts;
    } else {
      SpliceAppend(tree, base, texts, rest, ends, slash, follow, hops);
    }
  }

  lemma SpliceLink(tree: Tree, dir: seq<string>, comps: seq<string>, slash: bool, follow: bool, hops: nat,
                   base: seq<string>, target: Parsed)
    requires comps != [] && Look(tree, dir, comps, slash, follow, hops) == Link(base, target)
    ensures Splice(tree, dir, comps, slash, follow, hops)
         == Splice(tree, base, target.comps + comps[1..], SpliceSlash(comps[1..], slash, target), follow, hops - 1)
  {
  }

  lemma ResolveLink(tree: Tree, dir: seq<string>, comps: seq<string>, slash: bool, follow: bool, hops: nat,
                    base: seq<string>, target: Parsed, r: Outcome, t: Outcome, after: Outcome)
    requires comps != [] && Look(tree, dir, comps, slash, follow, hops) == Link(base, target)
    requires r == Resolve(tree, dir, comps, slash, follow, hops)
    requires t == Resolve(tree, base, target.comps, target.slash, true, hops - 1)
    requires t.Complete? ==>
               after == Resolve(tree, t.dir, comps[1..], slash || (comps[1..] == [] && t.slash), follow, t.hops)
    requires t.Stopped? ==> after == Stopped
    ensures r == after
  {
  }

  /** Putting targets in front of the rest comes out in the same directory, with the same hops, as
      resolving each target on its own. `o` is where both come out. */
  lemma {:induction false} BothWalks(tree: Tree, dir: seq<string>, comps: seq<string>, slash: bool, follow: bool,
                                     hops: nat)
    returns (o: Outcome)
    ensures o == Splice(tree, dir, comps, slash, follow, hops)
    ensures o == Resolve(tree, dir, comps, slash, follow, hops)
    decreases hops, |comps|
  {
    o := Splice(tree, dir, comps, slash, follow, hops);
    if comps != [] {
      match Look(tree, dir, comps, slash, follow, hops)
      case Ended(outcome) =>
      case Onward(d) => var _ := BothWalks(tree, d, comps[1..], slash, follow, hops);
      case Link(base, target) =>
        var rest := comps[1..];
        var t := BothWalks(tree, base, target.comps, target.slash, true, hops - 1);
        var after := Stopped;
        if t.Complete? { after := BothWalks(tree, t.dir, rest, slash || (rest == [] && t.slash), follow, t.hops); }
        var r := Resolve(tree, dir, comps, slash, follow, hops);
        ResolveLink(tree, dir, comps, slash, follow, hops, base, target, r, t, after);
        SpliceTarget(tree, base, target.comps, rest, target.slash, slash, follow, hops - 1, t, after);
        SpliceLink(tree, dir, comps, slash, follow, hops, base, target);
    }
  }

  lemma {:induction false} SpliceIsResolve(tree: Tree, dir: seq<string>, comps: seq<string>, slash: bool,
                                           follow: bool, hops: nat)
    ensures Splice(tree, dir, comps, slash, follow, hops) == Resolve(tree, dir, comps, slash, follow, hops)
  {
    var _ := BothWalks(tree, dir, comps, slash, follow, hops);
  }

  // ----- the in-place walk -----

  function SlashRun(s: string): (n: nat)
    ensures n <= |s| && (forall i :: 0 <= i < n ==> s[i] == '/') && (n < |s| ==> s[n] != '/')
  {
    if s == "" || s[0] != '/' then 0 else 1 + SlashRun(s[1..])
  }

  lemma {:induction false} SplitSkipsSlashes(s: string, n: nat)
    requires n <= |s| && forall i :: 0 <= i < n ==> s[i] == '/'
    ensures Split(s[n..]) == Split(s)
    decreases n
  {
    if n == 0 {
      assert s[0..] == s;
    } else {
      SplitSkipsSlashes(s[1..], n - 1);
      assert s[1..][n - 1..] == s[n..];
    }
  }

  function WithSlash(host: string, slash: bool): string {
    if slash && !EndsWithSlash(host) then host + "/" else host
  }

  /** The test for the last component, made after it: nothing follows, not even a slash. */
  lemma {:induction false} LastComponent(s: string, n: nat)
    requires 0 < n <= |s| && s[n - 1] != '/' && Aligned(s[n..])
    ensures (n == |s| || (SlashRun(s[n..]) == |s| - n && !EndsWithSlash(s)))
       <==> Split(s[n..]) == [] && !EndsWithSlash(s)
    ensures n == |s| <==> Split(s[n..]) == [] && !EndsWithSlash(s)
  {
    var t := s[n..];
    if n < |s| {
      var k := SlashRun(t);
      SplitSkipsSlashes(t, k);
      assert EndsWithSlash(s) == EndsWithSlash(t);
      if k < |t| { assert t[k..] != "" && t[k..][0] != '/'; }
    } else {
      assert t == "" && !EndsWithSlash(s);
    }
  }

  /** Reads the next component of rest[p..]: strips slashes, then takes text up to the next one. */
  method NextComponent(rest: string, p: nat, trailingSlash: bool, ghost comps: seq<string>)
    returns (found: bool, comp: string, next: nat, isLast: bool, ghost tail: seq<string>)
    requires p <= |rest| && rest != "" && trailingSlash == EndsWithSlash(rest) && comps == Split(rest[p..])
    ensures p <= next <= |rest| && Aligned(rest[next..]) && tail == Split(rest[next..])
    ensures !found ==> comps == tail == [] && next == |rest|
    ensures found ==> next > p && IsComponent(comp) && comps != [] && comp == comps[0] && tail == comps[1..]
                      && (isLast <==> tail == [] && !trailingSlash) && (isLast <==> next == |rest|)
  {
    var q := p;
    while q < |rest| && rest[q] == '/'
      invariant p <= q <= |rest| && Split(rest[q..]) == comps
    {
      assert rest[q..][1..] == rest[q + 1..];
      q := q + 1;
    }
    if q == |rest| { return false, "", q, false, []; }
    var len := ComponentLength(rest[q..]);
    comp, next := rest[q..q + len], q + len;
    assert rest[q..][..len] == comp && rest[q..][len..] == rest[next..];
    tail := Split(rest[next..]);
    assert comps == [comp] + tail;
    forall i | 0 <= i < len ensures comp[i] != '/' { assert comp[i] == rest[q..][i]; }
    assert rest[next - 1] == comp[len - 1];
    LastComponent(rest, next);
    isLast := next == |rest| || (SlashRun(rest[next..]) == |rest| - next && !trailingSlash);
    found := true;
  }

  /** The walk's local state: the text still to walk from `p` on, the guest path resolved so far. */
  datatype Walking = Walking(rest: string, p: nat, cur: string, trailingSlash: bool, hops: nat) {
    /** It stands at directory `dir` with the components `comps` ahead. */
    ghost predicate At(dir: seq<string>, comps: seq<string>) {
      && p <= |rest| && rest != "" && trailingSlash == EndsWithSlash(rest)
      && Clean(dir) && cur == Render(dir) && comps == Split(rest[p..])
    }
  }

  /** The move after `m`, if only to end because nothing is left. */
  function NextMove(tree: Tree, m: Move, follow: bool): Move
    requires m.Go?
  {
    if m.comps == [] then End(Complete(m.dir, m.slash, m.hops)) else Step(tree, m.dir, m.comps, m.slash, follow, m.hops)
  }

  /** From this move on the list walk ends in `want`. */
  ghost predicate Leads(tree: Tree, follow: bool, want: Outcome, m: Move) {
    want == if m.End? then m.outcome else Splice(tree, m.dir, m.comps, m.slash, follow, m.hops)
  }

  lemma LeadsOn(tree: Tree, follow: bool, want: Outcome, m: Move)
    requires m.Go? && Leads(tree, follow, want, m)
    ensures Leads(tree, follow, want, NextMove(tree, m, follow))
  {
  }

  /** The move `m` over a first component `c`, by kind, with the rest named. */
  ghost predicate MoveByKind(tree: Tree, dir: seq<string>, c: string, tail: seq<string>, slash: bool, follow: bool,
                             hops: nat, m: Move)
  {
    var here := dir + [c];
    if c == "." then m == Go(dir, tail, slash, hops)
    else if c == ".." then m == Go(Parent(dir), tail, slash, hops)
    else if tail == [] && !slash && !follow then m == End(Complete(here, false, hops))
    else if tree.inProc(here) then m == End(Stopped)
    else if tree.linkAt(here).None? then m == Go(here, tail, slash, hops)
    else if hops == 0 then m == End(Stopped)
    else var target := tree.linkAt(here).value;
         m == Go(Base(dir, target), target.comps + tail, SpliceSlash(tail, slash, target), hops - 1)
  }

  /** `m` is the next move from here. */
  ghost predicate Follows(tree: Tree, dir: seq<string>, comps: seq<string>, slash: bool, follow: bool, hops: nat,
                          m: Move)
  {
    if comps == [] then m == End(Complete(dir, slash, hops))
    else MoveByKind(tree, dir, comps[0], comps[1..], slash, follow, hops, m)
  }

  ghost predicate KeptByMoves(tree: Tree, follow: bool, keeps: Move -> bool) {
    forall m: Move {:trigger NextMove(tree, m, follow)} :: m.Go? && keeps(m) ==> keeps(NextMove(tree, m, follow))
  }

  lemma TakeMove(tree: Tree, dir: seq<string>, comps: seq<string>, slash: bool, follow: bool, hops: nat,
                 keeps: Move -> bool)
    returns (m: Move)
    requires KeptByMoves(tree, follow, keeps) && keeps(Go(dir, comps, slash, hops))
    ensures Follows(tree, dir, comps, slash, follow, hops, m) && keeps(m)
  {
    m := NextMove(tree, Go(dir, comps, slash, hops), follow);
  }

  /** Appending a name to the text of the directory. */
  lemma StepInto(w: Walking, dir: seq<string>, comp: string, tail: seq<string>)
    requires w.At(dir, tail) && IsName(comp)
    ensures w.(cur := w.cur + (if |w.cur| > 1 then "/" else "") + comp).At(dir + [comp], tail)
  {
    RenderAppend(dir, comp);
  }

  /** And taking the last one off again. */
  lemma StepBack(w: Walking, dir: seq<string>, tail: seq<string>)
    requires w.At(dir, tail)
    ensures '/' in w.cur && w.(cur := PopComponent(w.cur)).At(Parent(dir), tail)
  {
    PopRender(dir);
  }

  lemma TargetText(target: Target, rest: string, p: nat, left: string)
    requires p <= |rest| && left == rest[p..] && Aligned(left)
    ensures Split(target + left) == Split(target) + Split(left)
    ensures EndsWithSlash(target + left) == EndsWithSlash(if p == |rest| then target else rest)
  {
    SplitAppend(target, left);
    if p < |rest| { assert left[|left| - 1] == rest[|rest| - 1]; } else { assert target + left == target; }
  }

  /** rest := target + what is left; the walk restarts at its front, from the root or the link's
      directory. */
  method EnterTarget(w: Walking, target: Target, ghost dir: seq<string>, ghost c: string, ghost tail: seq<string>)
    returns (v: Walking)
    requires w.At(dir + [c], tail) && Aligned(w.rest[w.p..])
    ensures v.At(Base(dir, Parse(target)), Split(target) + tail) && v.p == 0 && v.hops == w.hops + 1
    ensures v.trailingSlash == if w.p == |w.rest| then EndsWithSlash(target) else w.trailingSlash
  {
    StepBack(w, dir + [c], tail);
    assert Parent(dir + [c]) == dir;
    var text := target + w.rest[w.p..];
    TargetText(target, w.rest, w.p, w.rest[w.p..]);
    v := Walking(text, 0, if Rooted(target) then "/" else PopComponent(w.cur), text[|text| - 1] == '/', w.hops + 1);
    assert v.rest[0..] == text;
  }

  datatype Progress = More | Finished | Blocked

  /** The move a round of the loop makes, from where it got to. */
  ghost function Made(progress: Progress, v: Walking, to: seq<string>, ahead: seq<string>): Move
    requires progress != Blocked ==> v.hops <= MAX_HOPS
  {
    match progress
    case More => Go(to, ahead, v.trailingSlash, MAX_HOPS - v.hops)
    case Finished => End(Complete(to, v.trailingSlash, MAX_HOPS - v.hops))
    case Blocked => End(Stopped)
  }

  /** The round for a component that names an entry: step into it, and follow it if it is a link. */
  method WalkName(ctx: Context, root: string, links: Links, follow: bool, w: Walking, comp: string, next: nat,
                  isLast: bool, ghost env: Env, ghost dir: seq<string>, ghost tail: seq<string>, ghost m: Move)
    returns (progress: Progress, v: Walking, ghost to: seq<string>, ghost ahead: seq<string>)
    requires ctx.Valid() && env == Env(ctx.List(), root, links)
    requires w.(p := next).At(dir, tail) && w.hops <= MAX_HOPS && w.p < next && Aligned(w.rest[next..])
    requires IsName(comp) && MoveByKind(env.TreeOf(), dir, comp, tail, w.trailingSlash, follow, MAX_HOPS - w.hops, m)
    requires (isLast <==> next == |w.rest|) && (isLast <==> tail == [] && !w.trailingSlash)
    ensures v.At(to, ahead)
    ensures progress == Finished ==> v.p == |v.rest|
    ensures progress != Blocked ==> v.hops <= MAX_HOPS
    ensures v.hops > w.hops || (v.hops == w.hops && v.rest == w.rest && v.p > w.p)
    ensures m == Made(progress, v, to, ahead)
  {
    StepInto(w.(p := next), dir, comp, tail);
    to, ahead := dir + [comp], tail;
    v := w.(p := next, cur := w.cur + (if |w.cur| > 1 then "/" else "") + comp);
    if isLast && !follow {
      assert m == Made(Finished, v, to, ahead);
      return Finished, v, to, ahead;
    }
    var host := MapPathToHost(ctx, root, v.cur);
    assert host == env.Host(to);
    if "/proc/" <= host {
      assert m == Made(Blocked, v, to, ahead);
      return Blocked, v, to, ahead;
    }
    var target := links(host);
    if target.None? {
      assert m == Made(More, v, to, ahead);
      return More, v, to, ahead;
    }
    if v.hops + 1 > MAX_HOPS {
      assert m == Made(Blocked, v, to, ahead);
      return Blocked, v.(hops := v.hops + 1), to, ahead;
    }
    v := EnterTarget(v, target.value, dir, comp, tail);
    to, ahead := Base(dir, Parse(target.value)), Split(target.value) + tail;
    assert m == Made(More, v, to, ahead);
    return More, v, to, ahead;
  }

  /** The round for "." and "..", which need no look at the file system. */
  method WalkDot(follow: bool, w: Walking, comp: string, next: nat,
                 ghost env: Env, ghost dir: seq<string>, ghost tail: seq<string>, ghost m: Move)
    returns (v: Walking, ghost to: seq<string>)
    requires w.(p := next).At(dir, tail) && w.hops <= MAX_HOPS && w.p < next
    requires comp == "." || comp == ".."
    requires MoveByKind(env.TreeOf(), dir, comp, tail, w.trailingSlash, follow, MAX_HOPS - w.hops, m)
    ensures v.At(to, tail)
    ensures v.hops == w.hops && v.rest == w.rest && v.p > w.p
    ensures m == Made(More, v, to, tail)
  {
    v, to := w.(p := next), dir;
    if comp == ".." {
      StepBack(v, dir, tail);
      v, to := v.(cur := PopComponent(w.cur)), Parent(dir);
    }
  }

  /** The round once its component is known. */
  method WalkComponent(ctx: Context, root: string, links: Links, follow: bool, w: Walking, comp: string, next: nat,
                       isLast: bool, ghost env: Env, ghost dir: seq<string>, ghost tail: seq<string>, ghost m: Move)
    returns (v: Walking, progress: Progress, ghost to: seq<string>, ghost ahead: seq<string>)
    requires ctx.Valid() && env == Env(ctx.List(), root, links)
    requires w.(p := next).At(dir, tail) && w.hops <= MAX_HOPS && w.p < next && Aligned(w.rest[next..])
    requires IsComponent(comp)
    requires MoveByKind(env.TreeOf(), dir, comp, tail, w.trailingSlash, follow, MAX_HOPS - w.hops, m)
    requires (isLast <==> next == |w.rest|) && (isLast <==> tail == [] && !w.trailingSlash)
    ensures v.At(to, ahead)
    ensures progress == Finished ==> v.p == |v.rest|
    ensures progress != Blocked ==> v.hops <= MAX_HOPS
    ensures v.hops > w.hops || (v.hops == w.hops && v.rest == w.rest && v.p > w.p)
    ensures m == Made(progress, v, to, ahead)
  {
    if comp == "." || comp == ".." {
      v, to := WalkDot(follow, w, comp, next, env, dir, tail, m);
      progress, ahead := More, tail;
    } else {
      progress, v, to, ahead := WalkName(ctx, root, links, follow, w, comp, next, isLast, env, dir, tail, m);
    }
  }

  /** One round of the loop: one component, and the target if it names a link. */
  method WalkOne(ctx: Context, root: string, links: Links, follow: bool, w: Walking, ghost env: Env,
                 ghost dir: seq<string>, ghost comps: seq<string>, ghost m: Move)
    returns (progress: Progress, v: Walking, ghost to: seq<string>, ghost ahead: seq<string>)
    requires ctx.Valid() && env == Env(ctx.List(), root, links)
    requires w.At(dir, comps) && w.hops <= MAX_HOPS
    requires Follows(env.TreeOf(), dir, comps, w.trailingSlash, follow, MAX_HOPS - w.hops, m)
    ensures v.At(to, ahead)
    ensures progress == Finished ==> v.p == |v.rest|
    ensures progress != Blocked ==> v.hops <= MAX_HOPS
    ensures progress == More ==> v.hops > w.hops || (v.hops == w.hops && v.rest == w.rest && v.p > w.p)
    ensures m == Made(progress, v, to, ahead)
  {
    var found, comp, next, isLast;
    ghost var tail;
    found, comp, next, isLast, tail := NextComponent(w.rest, w.p, w.trailingSlash, comps);
    v := w.(p := next);
    assert v.At(dir, tail);
    if !found { return Finished, v, dir, tail; }
    v, progress, to, ahead := WalkComponent(ctx, root, links, follow, w, comp, next, isLast, env, dir, tail, m);
  }

  /** The loop. Whatever every move of the list walk keeps still holds of the last one. */
  method WalkAll(ctx: Context, root: string, links: Links, start: Walking, follow: bool,
                 ghost env: Env, ghost comps0: seq<string>, ghost keeps: Move -> bool)
    returns (w: Walking, complete: bool, ghost dir: seq<string>)
    requires ctx.Valid() && env == Env(ctx.List(), root, links)
    requires start.At([], comps0) && start.hops == 0 && keeps(Go([], comps0, start.trailingSlash, MAX_HOPS))
    requires KeptByMoves(env.TreeOf(), follow, keeps)
    ensures w.p <= |w.rest| && w.cur == Render(dir) && Clean(dir)
    ensures complete ==> w.p == |w.rest| && w.hops <= MAX_HOPS
    ensures keeps(End(if complete then Complete(dir, w.trailingSlash, MAX_HOPS - w.hops) else Stopped))
  {
    w, dir := start, [];
    ghost var comps, at := comps0, Go([], comps0, w.trailingSlash, MAX_HOPS);
    var progress := More;
    while progress == More
      invariant w.At(dir, comps)
      invariant progress != Blocked ==> w.hops <= MAX_HOPS
      invariant at == Made(progress, w, dir, comps) && keeps(at)
      invariant progress == Finished ==> w.p == |w.rest|
      decreases progress == More, MAX_HOPS - w.hops, |w.rest| - w.p
    {
      at := TakeMove(env.TreeOf(), dir, comps, w.trailingSlash, follow, MAX_HOPS - w.hops, keeps);
      progress, w, dir, comps := WalkOne(ctx, root, links, follow, w, env, dir, comps, at);
    }
    complete := progress == Finished;
  }

  /** The walk over a whole path: how it ended, where, and what is left of the text. */
  method WalkPath(ctx: Context, root: string, links: Links, guestPath: string, follow: bool)
    returns (w: Walking, complete: bool, ghost dir: seq<string>)
    requires ctx.Valid() && Rooted(guestPath)
    ensures w.p <= |w.rest| && w.cur == Render(dir) && Clean(dir)
    ensures var r := ResolvePath(Env(ctx.List(), root, links), guestPath, follow);
            if complete then w.p == |w.rest| && r.Complete? && r.dir == dir && r.slash == w.trailingSlash
            else r == Stopped
  {
    ghost var env := Env(ctx.List(), root, links);
    ghost var tree, want := env.TreeOf(), ResolvePath(env, guestPath, follow);
    SpliceIsResolve(tree, [], Split(guestPath), EndsWithSlash(guestPath), follow, MAX_HOPS);
    assert guestPath[0..] == guestPath;
    w := Walking(guestPath, 0, "/", guestPath[|guestPath| - 1] == '/', 0);
    forall m: Move | m.Go? && Leads(tree, follow, want, m)
      ensures Leads(tree, follow, want, NextMove(tree, m, follow))
    {
      LeadsOn(tree, follow, want, m);
    }
    w, complete, dir := WalkAll(ctx, root, links, w, follow, env, Split(guestPath), m => Leads(tree, follow, want, m));
  }

  /** A guest path, a walk over it, and the host path in `out`. */
  ghost predicate Translates(env: Env, guestPath: string, follow: bool, out: string, guestOut: string, complete: bool) {
    var r := ResolvePath(env, guestPath, follow);
    && (complete <==> r.Complete?)
    && (complete ==> guestOut == Render(r.dir) && out == WithSlash(env.Host(r.dir), r.slash))
    && exists dir :: Clean(dir) && guestOut == Render(dir) && env.Host(dir) <= out
  }

  /** Translates a guest path. `complete` tells whether every component was walked, or a link under
      /proc or too many hops left the rest for the kernel. */
  method TranslatePath(ctx: Context, root: string, links: Links, guestPath: string, follow: bool)
    returns (out: string, guestOut: string, changed: bool, complete: bool)
    requires ctx.Valid()
    ensures changed <==> out != guestPath
    ensures if !Rooted(guestPath) || (root == "" && ctx.List() == []) then out == guestPath == guestOut && complete
            else Translates(Env(ctx.List(), root, links), guestPath, follow, out, guestOut, complete)
  {
    if !Rooted(guestPath) || (root == "" && ctx.nbindings == 0) {
      return guestPath, guestPath, false, true;
    }
    ghost var env := Env(ctx.List(), root, links);
    ghost var dir;
    var w;
    w, complete, dir := WalkPath(ctx, root, links, guestPath, follow);
    var host := MapPathToHost(ctx, root, w.cur);
    guestOut := w.cur;
    assert host == env.Host(dir);
    if w.p < |w.rest| {
      host := host + (if EndsWithSlash(host) then "" else "/") + w.rest[w.p + SlashRun(w.rest[w.p..])..];
    }
    if w.trailingSlash && !EndsWithSlash(host) { host := host + "/"; }
    out := host;
    changed := host != guestPath;
    assert env.Host(dir) <= out;
  }
}
