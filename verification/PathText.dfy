/** Path strings: component-wise prefixes, and the correspondence between a path's text and its
    list of components. */
module PathText {
  predicate HasPrefix(s: string, prefix: string) {
    prefix <= s && (|s| == |prefix| || s[|prefix|] == '/')
  }

  predicate Comparable(a: string, b: string) { HasPrefix(a, b) || HasPrefix(b, a) }

  /** Two component-wise prefixes of one path are comparable. */
  lemma PrefixesComparable(s: string, a: string, b: string)
    requires HasPrefix(s, a) && HasPrefix(s, b)
    ensures Comparable(a, b)
  {
    if |a| <= |b| {
      assert b[..|a|] == s[..|b|][..|a|] == a;
    } else {
      assert a[..|b|] == s[..|a|][..|b|] == b;
    }
  }

  /** A common start changes no comparison. */
  lemma PrefixUnder(root: string, s: string, prefix: string)
    ensures HasPrefix(root + s, root + prefix) <==> HasPrefix(s, prefix)
  {
    var a, b := root + s, root + prefix;
    if |prefix| <= |s| {
      assert a[..|b|] == root + s[..|prefix|];
      assert s[..|prefix|] == a[..|b|][|root|..];
      assert prefix == b[|root|..];
    }
  }

  predicate Rooted(s: string) { s != "" && s[0] == '/' }

  predicate EndsWithSlash(s: string) { s != "" && s[|s| - 1] == '/' }

  /** Empty, or a tail that starts at a component boundary. */
  predicate Aligned(tail: string) { tail == "" || tail[0] == '/' }

  predicate IsComponent(c: string) { c != "" && '/' !in c }

  /** A component that names a directory entry. */
  predicate IsName(c: string) { IsComponent(c) && c != "." && c != ".." }

  predicate Clean(dir: seq<string>) { forall i :: 0 <= i < |dir| ==> IsName(dir[i]) }

  // ----- text of a list of components -----

  function Join(dir: seq<string>): (s: string)
    ensures Aligned(s) && (dir == [] <==> s == "")
  {
    if dir == [] then "" else Join(dir[..|dir| - 1]) + ("/" + dir[|dir| - 1])
  }

  function Render(dir: seq<string>): string { if dir == [] then "/" else Join(dir) }

  lemma RenderAppend(dir: seq<string>, c: string)
    requires IsComponent(c) && forall d :: d in dir ==> IsComponent(d)
    ensures Render(dir + [c]) == Render(dir) + (if |Render(dir)| > 1 then "/" else "") + c
  {
    assert (dir + [c])[..|dir|] == dir;
    if dir != [] {
      assert dir[|dir| - 1] in dir;
    }
  }

  // ----- components of a text -----

  function ComponentLength(s: string): (n: nat)
    ensures n <= |s| && (forall i :: 0 <= i < n ==> s[i] != '/') && (n < |s| ==> s[n] == '/')
  {
    if s == "" || s[0] == '/' then 0 else 1 + ComponentLength(s[1..])
  }

  function Split(s: string): seq<string>
    decreases |s|
  {
    if s == "" then []
    else if s[0] == '/' then Split(s[1..])
    else
      var n := ComponentLength(s);
      [s[..n]] + Split(s[n..])
  }

  lemma ComponentLengthIs(s: string, n: nat)
    requires n <= |s| && (forall i :: 0 <= i < n ==> s[i] != '/') && (n < |s| ==> s[n] == '/')
    ensures ComponentLength(s) == n
  {
    var m := ComponentLength(s);
    assert m < |s| ==> s[m] == '/';
  }

  /** Text glued on at a component boundary adds its components. */
  lemma {:induction false} SplitAppend(a: string, b: string)
    requires Aligned(b)
    ensures Split(a + b) == Split(a) + Split(b)
    decreases |a|
  {
    if a == "" {
      assert a + b == b;
    } else if a[0] == '/' {
      SplitAppend(a[1..], b);
      assert (a + b)[1..] == a[1..] + b;
    } else {
      var n, s := ComponentLength(a), a + b;
      ComponentLengthIs(s, n);
      assert Split(s) == [s[..n]] + Split(s[n..]);
      assert s[..n] == a[..n] && s[n..] == a[n..] + b;
      SplitAppend(a[n..], b);
    }
  }

  lemma {:induction false} SplitOne(c: string)
    requires IsComponent(c)
    ensures Split("/" + c) == [c]
  {
    assert ("/" + c)[1..] == c;
    assert c[0] in c;
    ComponentLengthIs(c, |c|);
    assert c[..|c|] == c && c[|c|..] == "";
    assert Split(c) == [c];
  }

  lemma {:induction false} SplitJoin(dir: seq<string>)
    requires forall i :: 0 <= i < |dir| ==> IsComponent(dir[i])
    ensures Split(Join(dir)) == dir
    decreases |dir|
  {
    if dir != [] {
      var n := |dir| - 1;
      SplitJoin(dir[..n]);
      SplitAppend(Join(dir[..n]), "/" + dir[n]);
      SplitOne(dir[n]);
    }
  }

  lemma {:induction false} SplitRender(dir: seq<string>)
    requires forall i :: 0 <= i < |dir| ==> IsComponent(dir[i])
    ensures Split(Render(dir)) == dir
  {
    SplitJoin(dir);
    assert "/"[1..] == "";
  }

  lemma {:induction false} SplitComponents(s: string)
    ensures forall i :: 0 <= i < |Split(s)| ==> IsComponent(Split(s)[i])
    decreases |s|
  {
    if s != "" {
      if s[0] == '/' { SplitComponents(s[1..]); } else { SplitComponents(s[ComponentLength(s)..]); }
    }
  }

  // ----- dropping the last component -----

  function LastSlash(s: string): (i: nat)
    requires '/' in s
    ensures i < |s| && s[i] == '/' && forall j :: i < j < |s| ==> s[j] != '/'
  {
    if s[|s| - 1] == '/' then |s| - 1 else LastSlash(s[..|s| - 1])
  }

  function PopComponent(path: string): string
    requires '/' in path
  {
    var i := LastSlash(path);
    if i == 0 then path[..1] else path[..i]
  }

  lemma PopRender(dir: seq<string>)
    requires forall i :: 0 <= i < |dir| ==> IsComponent(dir[i])
    ensures '/' in Render(dir)
    ensures PopComponent(Render(dir)) == Render(if dir == [] then [] else dir[..|dir| - 1])
  {
    if dir == [] {
      assert Render(dir)[0] == '/';
    } else {
      var n := |dir| - 1;
      var before, s := Join(dir[..n]), Render(dir);
      assert s[|before|] == '/';
      forall j | |before| < j < |s| ensures s[j] != '/' { assert s[j] == dir[n][j - |before| - 1]; }
      assert LastSlash(s) == |before|;
      assert s[..|before|] == before;
    }
  }
}
