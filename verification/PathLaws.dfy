/** What path resolution means, path by path: dots, links and their targets, the last component, the
    trailing slash, /proc and the limit on links. */
module PathLaws {
  import opened Words
  import opened PathText
  import opened Bindings
  import opened Namespace
  import opened Walk
  import opened Resolution

  // ----- dots -----

  lemma DotStays(tree: Tree, dir: seq<string>, rest: seq<string>, slash: bool, follow: bool, hops: nat)
    ensures Resolve(tree, dir, ["."] + rest, slash, follow, hops) == Resolve(tree, dir, rest, slash, follow, hops)
  {
    assert (["."] + rest)[1..] == rest;
  }

  /** ".." takes back a step into a directory, and at the top does nothing. */
  lemma DotDotUndoesName(tree: Tree, dir: seq<string>, c: string, rest: seq<string>, slash: bool, follow: bool,
                         hops: nat)
    requires IsName(c) && Plain(tree, dir + [c])
    ensures Resolve(tree, dir, [c, ".."] + rest, slash, follow, hops) == Resolve(tree, dir, rest, slash, follow, hops)
    ensures Resolve(tree, [], [".."] + rest, slash, follow, hops) == Resolve(tree, [], rest, slash, follow, hops)
  {
    var comps, up := [c, ".."] + rest, [".."] + rest;
    assert comps[1..] == up && up[1..] == rest && Look(tree, dir, comps, slash, follow, hops) == Onward(dir + [c]);
    assert (dir + [c])[..|dir|] == dir;
    assert Resolve(tree, dir + [c], up, slash, follow, hops) == Resolve(tree, dir, rest, slash, follow, hops);
  }

  // ----- links -----

  /** A link that is followed stands for its target: from the top if the target is absolute, else from
      where the link is. */
  lemma {:induction false} LinkIsItsTarget(tree: Tree, dir: seq<string>, c: string, target: Parsed, rest: seq<string>,
                                           slash: bool, follow: bool, hops: nat)
    requires IsName(c) && !tree.inProc(dir + [c]) && tree.linkAt(dir + [c]) == Some(target)
    requires rest != [] || slash || follow
    ensures Resolve(tree, dir, [c] + rest, slash, follow, hops)
         == if hops == 0 then Stopped
            else Resolve(tree, if target.rooted then [] else dir, target.comps + rest,
                         if rest == [] && !slash then target.slash else slash, follow, hops - 1)
  {
    var comps := [c] + rest;
    assert comps[1..] == rest;
    SpliceIsResolve(tree, dir, comps, slash, follow, hops);
    if hops > 0 {
      var start := if target.rooted then [] else dir;
      var ends := if rest == [] && !slash then target.slash else slash;
      SpliceIsResolve(tree, start, target.comps + rest, ends, follow, hops - 1);
    }
  }

  /** One that is last, not followed by a slash and not to be followed, is left alone. */
  lemma LastLinkIsLeft(tree: Tree, dir: seq<string>, c: string, hops: nat)
    requires IsName(c)
    ensures Resolve(tree, dir, [c], false, false, hops) == Complete(dir + [c], false, hops)
  {
  }

  /** And below /proc the kernel is left to go on. */
  lemma ProcStops(tree: Tree, dir: seq<string>, c: string, rest: seq<string>, slash: bool, follow: bool, hops: nat)
    requires IsName(c) && tree.inProc(dir + [c]) && (rest != [] || slash || follow)
    ensures Resolve(tree, dir, [c] + rest, slash, follow, hops) == Stopped
  {
    assert ([c] + rest)[1..] == rest;
  }

  /** As the tracer knows it: by the host path. */
  lemma ProcIsByHostPath(env: Env, dir: seq<string>, c: string, rest: seq<string>, slash: bool, follow: bool, hops: nat)
    requires IsName(c) && "/proc/" <= env.Host(dir + [c]) && (rest != [] || slash || follow)
    ensures Resolve(env.TreeOf(), dir, [c] + rest, slash, follow, hops) == Stopped
  {
    ProcStops(env.TreeOf(), dir, c, rest, slash, follow, hops);
  }

  // ----- links, on texts -----

  function ResolveText(tree: Tree, path: string, follow: bool, hops: nat): Outcome {
    Resolve(tree, [], Split(path), EndsWithSlash(path), follow, hops)
  }

  /** Directories without a link are walked straight down. */
  lemma {:induction false} WalkDown(tree: Tree, dir: seq<string>, down: seq<string>, rest: seq<string>, slash: bool,
                                    follow: bool, hops: nat)
    requires Settled(tree, dir + down) && Clean(down) && rest != []
    ensures Resolve(tree, dir, down + rest, slash, follow, hops) == Resolve(tree, dir + down, rest, slash, follow, hops)
    decreases |down|
  {
    if down == [] {
      assert down + rest == rest && dir + down == dir;
    } else {
      var here, left := dir + [down[0]], down[1..];
      assert here + left == dir + down && (dir + down)[..|here|] == here;
      assert (down + rest)[1..] == left + rest;
      WalkDown(tree, here, left, rest, slash, follow, hops);
    }
  }

  lemma EndsLike(front: string, tail: string)
    ensures EndsWithSlash(front + tail) == EndsWithSlash(if tail == "" then front else tail)
  {
    if tail == "" { assert front + tail == front; }
  }

  lemma JoinBelow(dir: seq<string>, name: string)
    requires Clean(dir) && IsName(name)
    ensures Split(Join(dir) + "/" + name) == dir + [name] && !EndsWithSlash(Join(dir) + "/" + name)
  {
    SplitJoin(dir + [name]);
    assert (dir + [name])[..|dir|] == dir;
    assert Join(dir) + "/" + name == Join(dir + [name]);
    assert name[|name| - 1] in name;
    EndsLike(Join(dir) + "/", name);
  }

  /** A path down to a name, and on from there. */
  lemma PathBelow(tree: Tree, dir: seq<string>, name: string, tail: string, follow: bool, hops: nat)
    requires Clean(dir) && Settled(tree, dir) && IsName(name) && Aligned(tail)
    ensures ResolveText(tree, Join(dir) + "/" + name + tail, follow, hops)
         == Resolve(tree, dir, [name] + Split(tail), EndsWithSlash(tail), follow, hops)
  {
    var text := Join(dir) + "/" + name;
    JoinBelow(dir, name);
    SplitAppend(text, tail);
    EndsLike(text, tail);
    assert [] + dir == dir && dir + [name] + Split(tail) == dir + ([name] + Split(tail));
    WalkDown(tree, [], dir, [name] + Split(tail), EndsWithSlash(tail), follow, hops);
  }

  lemma SplitRelative(dir: seq<string>, target: string)
    requires Clean(dir) && target != "" && !Rooted(target)
    ensures Split(Join(dir) + "/" + target) == dir + Split(target) && Split(target) != []
  {
    SplitJoin(dir);
    SplitAppend(Join(dir), "/" + target);
    assert ("/" + target)[1..] == target;
    assert Join(dir) + "/" + target == Join(dir) + ("/" + target);
  }

  /** The path with a target put in: an absolute one, and a relative one. */
  lemma PathThroughAbsolute(tree: Tree, target: Target, tail: string, follow: bool, hops: nat)
    requires Aligned(tail)
    ensures ResolveText(tree, target + tail, follow, hops)
         == Resolve(tree, [], Split(target) + Split(tail), EndsWithSlash(if tail == "" then target else tail),
                    follow, hops)
  {
    SplitAppend(target, tail);
    EndsLike(target, tail);
  }

  lemma SplitThrough(dir: seq<string>, target: Target, tail: string)
    requires Clean(dir) && !Rooted(target) && Aligned(tail)
    ensures Split(Join(dir) + "/" + target + tail) == dir + (Split(target) + Split(tail)) && Split(target) != []
  {
    SplitRelative(dir, target);
    AddTail(Join(dir) + "/" + target, dir, Split(target), tail);
  }

  lemma AddTail(front: string, dir: seq<string>, comps: seq<string>, tail: string)
    requires Split(front) == dir + comps && Aligned(tail)
    ensures Split(front + tail) == dir + (comps + Split(tail))
  {
    SplitAppend(front, tail);
    assert dir + comps + Split(tail) == dir + (comps + Split(tail));
  }

  lemma EndsThrough(front: string, target: Target, tail: string)
    ensures EndsWithSlash(front + target + tail) == EndsWithSlash(if tail == "" then target else tail)
  {
    EndsLike(front + target, tail);
    EndsLike(front, target);
  }

  lemma PathThroughRelative(tree: Tree, dir: seq<string>, target: Target, tail: string, follow: bool, hops: nat)
    requires Clean(dir) && Settled(tree, dir) && !Rooted(target) && Aligned(tail)
    ensures ResolveText(tree, Join(dir) + "/" + target + tail, follow, hops)
         == Resolve(tree, dir, Split(target) + Split(tail), EndsWithSlash(if tail == "" then target else tail),
                    follow, hops)
  {
    SplitThrough(dir, target, tail);
    EndsThrough(Join(dir) + "/", target, tail);
    assert [] + dir == dir;
    var ends := EndsWithSlash(if tail == "" then target else tail);
    WalkDown(tree, [], dir, Split(target) + Split(tail), ends, follow, hops);
  }

  lemma LinkStep(tree: Tree, dir: seq<string>, c: string, target: Target, tail: string, follow: bool, hops: nat)
    requires IsName(c) && Aligned(tail) && (tail == "" ==> follow)
    requires !tree.inProc(dir + [c]) && tree.linkAt(dir + [c]) == Some(Parse(target))
    ensures Resolve(tree, dir, [c] + Split(tail), EndsWithSlash(tail), follow, hops)
         == if hops == 0 then Stopped
            else Resolve(tree, if Rooted(target) then [] else dir, Split(target) + Split(tail),
                         EndsWithSlash(if tail == "" then target else tail), follow, hops - 1)
  {
    EmptySplit(tail);
    LinkIsItsTarget(tree, dir, c, Parse(target), Split(tail), EndsWithSlash(tail), follow, hops);
  }

  /** A followed link below a directory without links. */
  ghost predicate LinkAt(tree: Tree, dir: seq<string>, c: string, target: Target, tail: string, follow: bool) {
    && Clean(dir) && Settled(tree, dir) && IsName(c) && Aligned(tail) && (tail == "" ==> follow)
    && !tree.inProc(dir + [c]) && tree.linkAt(dir + [c]) == Some(Parse(target))
  }

  /** Following a link is putting its text in the path: an absolute one for all that came before. */
  lemma {:induction false} AbsoluteLinkIsPutIn(tree: Tree, dir: seq<string>, c: string, target: Target, tail: string,
                                               follow: bool, hops: nat)
    requires LinkAt(tree, dir, c, target, tail, follow) && Rooted(target) && hops > 0
    ensures ResolveText(tree, Join(dir) + "/" + c + tail, follow, hops)
         == ResolveText(tree, target + tail, follow, hops - 1)
  {
    PathBelow(tree, dir, c, tail, follow, hops);
    LinkStep(tree, dir, c, target, tail, follow, hops);
    PathThroughAbsolute(tree, target, tail, follow, hops - 1);
  }

  /** A relative one for the link's name. */
  lemma {:induction false} RelativeLinkIsPutIn(tree: Tree, dir: seq<string>, c: string, target: Target, tail: string,
                                               follow: bool, hops: nat)
    requires LinkAt(tree, dir, c, target, tail, follow) && !Rooted(target) && hops > 0
    ensures ResolveText(tree, Join(dir) + "/" + c + tail, follow, hops)
         == ResolveText(tree, Join(dir) + "/" + target + tail, follow, hops - 1)
  {
    PathBelow(tree, dir, c, tail, follow, hops);
    LinkStep(tree, dir, c, target, tail, follow, hops);
    PathThroughRelative(tree, dir, target, tail, follow, hops - 1);
  }

  /** And with no hop left it is not followed. */
  lemma {:induction false} LinkWithoutHops(tree: Tree, dir: seq<string>, c: string, target: Target, tail: string,
                                           follow: bool)
    requires LinkAt(tree, dir, c, target, tail, follow)
    ensures ResolveText(tree, Join(dir) + "/" + c + tail, follow, 0) == Stopped
  {
    PathBelow(tree, dir, c, tail, follow, 0);
    LinkStep(tree, dir, c, target, tail, follow, 0);
  }

  /** In the file system as the tracer sees it. */
  lemma {:induction false} LinkTextIsPutIn(env: Env, dir: seq<string>, c: string, target: Target, tail: string,
                                           follow: bool, hops: nat)
    requires Clean(dir) && Settled(env.TreeOf(), dir) && IsName(c) && Aligned(tail) && (tail == "" ==> follow)
    requires var host := env.Host(dir + [c]); !("/proc/" <= host) && env.links(host) == Some(target)
    ensures ResolvePath(env, Join(dir) + "/" + c + tail, follow)
         == ResolveText(env.TreeOf(), Join(dir) + "/" + c + tail, follow, MAX_HOPS)
    ensures var path, tree := Join(dir) + "/" + c + tail, env.TreeOf();
            var instead := if Rooted(target) then target + tail else Join(dir) + "/" + target + tail;
            ResolveText(tree, path, follow, hops)
            == if hops == 0 then Stopped else ResolveText(tree, instead, follow, hops - 1)
  {
    var tree := env.TreeOf();
    assert LinkAt(tree, dir, c, target, tail, follow);
    if hops == 0 { LinkWithoutHops(tree, dir, c, target, tail, follow); }
    else if Rooted(target) { AbsoluteLinkIsPutIn(tree, dir, c, target, tail, follow, hops); }
    else { RelativeLinkIsPutIn(tree, dir, c, target, tail, follow, hops); }
  }

  lemma EmptySplit(tail: string)
    requires Aligned(tail)
    ensures Split(tail) == [] && !EndsWithSlash(tail) <==> tail == ""
  {
    if tail != "" {
      var k := SlashRun(tail);
      SplitSkipsSlashes(tail, k);
      if k < |tail| { assert tail[k..][0] != '/'; } else { assert tail[|tail| - 1] == '/'; }
    }
  }

  // ----- how many links -----

  /** names[0] is a link to names[1], and so on; the last is no link. */
  ghost predicate LinkChain(tree: Tree, names: seq<string>) {
    && names != []
    && (forall i :: 0 <= i < |names| ==> IsName(names[i]) && !tree.inProc([names[i]]))
    && (forall i :: 0 <= i < |names| - 1 ==> tree.linkAt([names[i]]) == Some(Parsed(false, [names[i + 1]], false)))
    && tree.linkAt([names[|names| - 1]]).None?
  }

  /** A chain of links is followed to its end exactly if it has no more links than are allowed. */
  lemma {:induction false} LinksAreLimited(tree: Tree, names: seq<string>, hops: nat)
    requires LinkChain(tree, names)
    ensures var links := |names| - 1;
            Resolve(tree, [], [names[0]], false, true, hops)
            == if links <= hops then Complete([names[links]], false, hops - links) else Stopped
    decreases |names|
  {
    assert [] + [names[0]] == [names[0]];
    if |names| > 1 {
      var target := Parsed(false, [names[1]], false);
      LinkIsItsTarget(tree, [], names[0], target, [], false, true, hops);
      assert [names[0]] + [] == [names[0]] && target.comps + [] == [names[1]];
      if hops > 0 { LinksAreLimited(tree, names[1..], hops - 1); }
    } else {
      assert [names[0]][1..] == [];
    }
  }

  /** Forty are. */
  lemma {:induction false} FortyLinks(env: Env, names: seq<string>)
    requires LinkChain(env.TreeOf(), names)
    ensures ResolvePath(env, "/" + names[0], true)
         == if |names| <= 41 then Complete([names[|names| - 1]], false, 41 - |names|) else Stopped
  {
    assert IsName(names[0]) && names[0][|names[0]| - 1] in names[0];
    SplitOne(names[0]);
    EndsLike("/", names[0]);
    LinksAreLimited(env.TreeOf(), names, MAX_HOPS);
  }

  // ----- the trailing slash -----

  /** A slash at the end stays there; without following the last link none comes up. */
  lemma {:induction false} SlashIsKept(tree: Tree, dir: seq<string>, comps: seq<string>, slash: bool, follow: bool,
                                       hops: nat)
    ensures var r := Resolve(tree, dir, comps, slash, follow, hops);
            r.Complete? && (slash || !follow) ==> r.slash == slash
    decreases hops, |comps|
  {
    if comps != [] {
      match Look(tree, dir, comps, slash, follow, hops)
      case Ended(_) =>
      case Onward(d) => SlashIsKept(tree, d, comps[1..], slash, follow, hops);
      case Link(base, target) =>
        var t := Resolve(tree, base, target.comps, target.slash, true, hops - 1);
        if t.Complete? {
          SlashIsKept(tree, t.dir, comps[1..], slash || (comps[1..] == [] && t.slash), follow, t.hops);
        }
    }
  }

  /** So a translated path has its slash if the path had one, and otherwise is the directory itself, if
      links are not followed. */
  lemma {:induction false} SlashIsHandedOut(env: Env, path: string, follow: bool, out: string, guestOut: string)
    requires Translates(env, path, follow, out, guestOut, true)
    ensures EndsWithSlash(path) ==> EndsWithSlash(out)
    ensures !EndsWithSlash(path) && !follow ==> exists dir :: guestOut == Render(dir) && out == env.Host(dir)
  {
    SlashIsKept(env.TreeOf(), [], Split(path), EndsWithSlash(path), follow, MAX_HOPS);
    var r := ResolvePath(env, path, follow);
    if EndsWithSlash(path) { assert EndsWithSlash(out) by { assert out == WithSlash(env.Host(r.dir), true); } }
    else if !follow { assert guestOut == Render(r.dir) && out == env.Host(r.dir); }
  }
}
