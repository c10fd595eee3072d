/** What a completed resolution guarantees: a clean guest path, a contained host path, and a result
    that resolves to itself. */
module Resolution {
  import opened Words
  import opened PathText
  import opened Bindings
  import opened Namespace
  import opened Walk

  ghost predicate Components(comps: seq<string>) { forall i :: 0 <= i < |comps| ==> IsComponent(comps[i]) }

  ghost predicate Plain(tree: Tree, dir: seq<string>) { !tree.inProc(dir) && tree.linkAt(dir).None? }

  /** Nothing on the way down to `dir` is a link, or lies in /proc. */
  ghost predicate Settled(tree: Tree, dir: seq<string>) {
    forall k :: 0 < k <= |dir| ==> Plain(tree, dir[..k])
  }

  lemma SettledExtends(tree: Tree, dir: seq<string>, c: string)
    requires Settled(tree, dir) && Plain(tree, dir + [c])
    ensures Settled(tree, dir + [c])
  {
    var here := dir + [c];
    forall k | 0 < k <= |here| ensures Plain(tree, here[..k]) {
      if k <= |dir| { assert here[..k] == dir[..k]; } else { assert here[..k] == here; }
    }
  }

  lemma SettledPrefix(tree: Tree, dir: seq<string>, n: nat)
    requires Settled(tree, dir) && n <= |dir|
    ensures Settled(tree, dir[..n])
  {
    forall k | 0 < k <= n ensures Plain(tree, dir[..n][..k]) {
      assert dir[..n][..k] == dir[..k];
    }
  }

  /** What every step keeps: names only behind, components ahead, and, where links are always
      followed, no link behind. */
  ghost predicate Sound(tree: Tree, dir: seq<string>, comps: seq<string>, follow: bool) {
    Clean(dir) && Components(comps) && (follow ==> Settled(tree, dir))
  }

  ghost predicate TargetsOk(tree: Tree) {
    forall d :: tree.linkAt(d).Some? ==> Components(tree.linkAt(d).value.comps)
  }

  lemma TextsSplit(env: Env)
    ensures TargetsOk(env.TreeOf())
  {
    forall d | env.TreeOf().linkAt(d).Some? ensures Components(env.TreeOf().linkAt(d).value.comps) {
      SplitComponents(env.links(env.Host(d)).value);
    }
  }

  lemma StepKeepsSound(tree: Tree, dir: seq<string>, comps: seq<string>, slash: bool, follow: bool, hops: nat)
    requires TargetsOk(tree) && comps != [] && Sound(tree, dir, comps, follow)
    ensures match Step(tree, dir, comps, slash, follow, hops)
            case End(o) => o.Complete? ==> Sound(tree, o.dir, [], follow)
            case Go(d, cs, _, _) => Sound(tree, d, cs, follow)
  {
    var c, rest, here := comps[0], comps[1..], dir + [comps[0]];
    if c == ".." && dir != [] && follow { SettledPrefix(tree, dir, |dir| - 1); }
    if follow && IsName(c) && Plain(tree, here) { SettledExtends(tree, dir, c); }
  }

  lemma {:induction false} SpliceKeepsSound(tree: Tree, dir: seq<string>, comps: seq<string>, slash: bool,
                                            follow: bool, hops: nat)
    requires TargetsOk(tree) && Sound(tree, dir, comps, follow)
    ensures var r := Splice(tree, dir, comps, slash, follow, hops); r.Complete? ==> Sound(tree, r.dir, [], follow)
    decreases hops, |comps|
  {
    if comps != [] {
      StepKeepsSound(tree, dir, comps, slash, follow, hops);
      var m := Step(tree, dir, comps, slash, follow, hops);
      if m.Go? { SpliceKeepsSound(tree, m.dir, m.comps, m.slash, follow, m.hops); }
    }
  }

  /** The directory a path resolves to has only names in it, however many dots, dot-dots and links
      were on the way, and with every link followed none of its prefixes is a link. */
  lemma {:induction false} ResolvedIsSound(env: Env, path: string, follow: bool)
    ensures var r := ResolvePath(env, path, follow); r.Complete? ==> Sound(env.TreeOf(), r.dir, [], follow)
  {
    SplitComponents(path);
    TextsSplit(env);
    SpliceIsResolve(env.TreeOf(), [], Split(path), EndsWithSlash(path), follow, MAX_HOPS);
    SpliceKeepsSound(env.TreeOf(), [], Split(path), EndsWithSlash(path), follow, MAX_HOPS);
  }

  // ----- containment -----

  /** The text of names one below the other, a slash perhaps at its end. */
  ghost predicate NamesOnly(tail: string) {
    exists names :: Clean(names) && (tail == Join(names) || tail == Join(names) + "/")
  }

  /** A host path made of a directory the tracer was told about and a tail of names below it. */
  ghost predicate Contained(bs: seq<Binding>, root: string, host: string) {
    exists base, tail :: ContainedAs(bs, root, host, base, tail)
  }

  ghost predicate ContainedAs(bs: seq<Binding>, root: string, host: string, base: string, tail: string) {
    (base == root || exists b :: b in bs && b.host == base)
    && NamesOnly(tail) && (host == Place(base, tail) || host == base + tail)
  }

  lemma {:induction false} JoinAppend(a: seq<string>, b: seq<string>)
    ensures Join(a + b) == Join(a) + Join(b)
    decreases |b|
  {
    if b == [] {
      assert a + b == a;
    } else {
      var n := |b| - 1;
      JoinAppend(a, b[..n]);
      assert (a + b)[..|a| + n] == a + b[..n];
    }
  }

  /** What of joined names starts at a boundary is the last of the names, joined. */
  lemma {:induction false} JoinTail(dir: seq<string>, k: nat) returns (j: nat)
    requires Clean(dir) && k <= |Join(dir)| && Aligned(Join(dir)[k..])
    ensures j <= |dir| && Join(dir)[k..] == Join(dir[j..])
    decreases |dir|
  {
    if dir == [] { return 0; }
    var n := |dir| - 1;
    var before, last := Join(dir[..n]), "/" + dir[n];
    if k == |before| {
      j := n;
      assert Join(dir)[k..] == last == Join([dir[n]]);
    } else if k < |before| {
      assert before[k..][0] == Join(dir)[k..][0];
      j := JoinTail(dir[..n], k);
      assert dir[j..] == dir[..n][j..] + [dir[n]];
      JoinAppend(dir[..n][j..], [dir[n]]);
      assert Join(dir)[k..] == before[k..] + last;
    } else {
      j := |dir|;
      assert forall i :: |before| < i < |Join(dir)| ==> Join(dir)[i] == dir[n][i - |before| - 1];
    }
  }

  /** Cut at a boundary, a clean root with a clean guest path below it leaves names. */
  lemma {:induction false} AlignedTailIsNames(rootDir: seq<string>, dir: seq<string>, k: nat)
    requires Clean(rootDir) && Clean(dir)
    requires k <= |Join(rootDir) + Render(dir)| && Aligned((Join(rootDir) + Render(dir))[k..])
    ensures NamesOnly((Join(rootDir) + Render(dir))[k..])
  {
    var all := rootDir + dir;
    var text, whole := Join(all), Join(rootDir) + Render(dir);
    JoinAppend(rootDir, dir);
    if k <= |text| {
      assert text[k..] == whole[k..][..|text| - k];
      var j := JoinTail(all, k);
      assert Clean(all[j..]);
      assert whole[k..] == if dir == [] then text[k..] + "/" else text[k..];
    } else {
      assert whole[k..] == "" == Join([]);
    }
  }

  /** A root as the engine keeps it: none, a clean path, or "/" after a chroot to where the host's own
      root is bound. */
  ghost predicate CleanRoot(root: string) { root == "/" || exists rootDir :: Clean(rootDir) && root == Join(rootDir) }

  lemma {:induction false} TailBelowRoot(root: string, dir: seq<string>, k: nat)
    requires CleanRoot(root) && Clean(dir) && (k >= |root| || k > 1)
    requires k <= |root + Render(dir)| && Aligned((root + Render(dir))[k..])
    ensures NamesOnly((root + Render(dir))[k..])
  {
    if root == "/" {
      assert (root + Render(dir))[k..] == (Join([]) + Render(dir))[k - 1..];
      AlignedTailIsNames([], dir, k - 1);
    } else {
      var rootDir :| Clean(rootDir) && root == Join(rootDir);
      AlignedTailIsNames(rootDir, dir, k);
    }
  }

  /** Every clean guest path lands under the root or under a binding's host directory. */
  lemma {:induction false} CleanPathIsContained(bs: seq<Binding>, root: string, dir: seq<string>)
    requires CleanRoot(root) && Clean(dir)
    ensures Contained(bs, root, MapToHost(bs, root, Render(dir)))
  {
    var guest := Render(dir);
    var host := MapToHost(bs, root, guest);
    HostPathIsContained(bs, root, guest);
    if host == root + guest {
      assert (root + guest)[|root|..] == guest;
      TailBelowRoot(root, dir, |root|);
      assert ContainedAs(bs, root, host, root, guest);
    } else {
      var b, k: nat :| b in bs && k <= |root + guest| && (k >= |root| || k > 1)
                       && Aligned((root + guest)[k..]) && host == Place(b.host, (root + guest)[k..]);
      TailBelowRoot(root, dir, k);
      assert ContainedAs(bs, root, host, b.host, (root + guest)[k..]);
    }
  }

  /** For any input and any links: if the walk completes, the guest path has no ".", ".." or empty
      component and the host path lies under the root or a binding. */
  lemma {:induction false} CompleteWalkIsContained(env: Env, path: string, follow: bool)
    requires CleanRoot(env.root)
    ensures var r := ResolvePath(env, path, follow);
            r.Complete? ==> Clean(r.dir) && Contained(env.bs, env.root, env.Host(r.dir))
  {
    ResolvedIsSound(env, path, follow);
    var r := ResolvePath(env, path, follow);
    if r.Complete? { CleanPathIsContained(env.bs, env.root, r.dir); }
  }

  // ----- resolving twice -----

  /** A settled path is walked straight down, without a hop. */
  lemma {:induction false} SettledResolvesToItself(tree: Tree, dir: seq<string>, comps: seq<string>, slash: bool,
                                                   hops: nat)
    requires Settled(tree, dir + comps) && Clean(comps)
    ensures Resolve(tree, dir, comps, slash, true, hops) == Complete(dir + comps, slash, hops)
    decreases |comps|
  {
    if comps == [] {
      assert dir + comps == dir;
    } else {
      var here, rest := dir + [comps[0]], comps[1..];
      assert here + rest == dir + comps;
      assert (dir + comps)[..|here|] == here;
      assert comps[0] != "." && comps[0] != "..";
      SettledResolvesToItself(tree, here, rest, slash, hops);
    }
  }

  lemma RenderEnds(dir: seq<string>)
    requires Clean(dir)
    ensures EndsWithSlash(Render(dir)) <==> dir == []
  {
    if dir != [] {
      var last := dir[|dir| - 1];
      assert IsName(last) && last[|last| - 1] in last;
    }
  }

  /** Resolution is idempotent: the guest path it returns resolves, without a hop, to itself, and to
      the same host path up to the trailing slash. */
  lemma {:induction false} ResolutionIsIdempotent(env: Env, path: string)
    requires ResolvePath(env, path, true).Complete?
    ensures var r := ResolvePath(env, path, true);
            ResolvePath(env, Render(r.dir), true) == Complete(r.dir, r.dir == [], MAX_HOPS)
  {
    var r := ResolvePath(env, path, true);
    ResolvedIsSound(env, path, true);
    SplitRender(r.dir);
    assert [] + r.dir == r.dir;
    RenderEnds(r.dir);
    SettledResolvesToItself(env.TreeOf(), [], r.dir, EndsWithSlash(Render(r.dir)), MAX_HOPS);
  }
}
