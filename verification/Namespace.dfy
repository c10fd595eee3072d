/** The two views of a path: a guest path mapped to the host through bindings, mount points and the
    root, and a host path mapped back. */
module Namespace {
  import opened Words
  import opened PathText
  import opened Bindings

  predicate Names(b: Binding, guest: string) { b.guest == "/" || HasPrefix(guest, b.guest) }

  predicate Covers(b: Binding, host: string) { |b.mount| > 1 && HasPrefix(host, b.mount) }

  predicate Sources(b: Binding, host: string) { |b.host| > 1 && HasPrefix(host, b.host) }

  /** The binding whose guest path is the longest that names `guest`. */
  function BestNamed(bs: seq<Binding>, guest: string): (r: Option<Binding>)
    ensures r.None? ==> forall b :: b in bs ==> !Names(b, guest)
    ensures r.Some? ==> r.value in bs && Names(r.value, guest)
                        && forall b :: b in bs && Names(b, guest) ==> |b.guest| <= |r.value.guest|
  {
    if bs == [] then None
    else
      var later := BestNamed(bs[1..], guest);
      if Names(bs[0], guest) && (later.None? || |bs[0].guest| > |later.value.guest|) then Some(bs[0]) else later
  }

  /** The binding mounted at the longest host path above `host`. */
  function BestMounted(bs: seq<Binding>, host: string): (r: Option<Binding>)
    ensures r.None? ==> forall b :: b in bs ==> !Covers(b, host)
    ensures r.Some? ==> r.value in bs && Covers(r.value, host)
                        && forall b :: b in bs && Covers(b, host) ==> |b.mount| <= |r.value.mount|
  {
    if bs == [] then None
    else
      var later := BestMounted(bs[1..], host);
      if Covers(bs[0], host) && (later.None? || |bs[0].mount| > |later.value.mount|) then Some(bs[0]) else later
  }

  /** The binding whose host path is the longest above `host`. */
  function BestSource(bs: seq<Binding>, host: string): (r: Option<Binding>)
    ensures r.None? ==> forall b :: b in bs ==> !Sources(b, host)
    ensures r.Some? ==> r.value in bs && Sources(r.value, host)
                        && forall b :: b in bs && Sources(b, host) ==> |b.host| <= |r.value.host|
  {
    if bs == [] then None
    else
      var n := |bs| - 1;
      var earlier := BestSource(bs[..n], host);
      if Sources(bs[n], host) && (earlier.None? || |bs[n].host| > |earlier.value.host|) then Some(bs[n]) else earlier
  }

  /** `tail` below the directory `base`. */
  function Place(base: string, tail: string): string {
    var s := (if base == "/" then "" else base) + tail;
    if s == "" then "/" else s
  }

  function MapToHost(bs: seq<Binding>, root: string, guest: string): string {
    var named := BestNamed(bs, guest);
    if named.Some? then
      var b := named.value;
      Place(b.host, if b.guest == "/" then guest else guest[|b.guest|..])
    else
      var host := root + guest;
      var mounted := BestMounted(bs, host);
      if mounted.Some? then Place(mounted.value.host, host[|mounted.value.mount|..]) else host
  }

  function HostToGuest(bs: seq<Binding>, root: string, host: string): Option<string> {
    var source := BestSource(bs, host);
    if source.Some? then Some(Place(source.value.guest, host[|source.value.host|..]))
    else if root != "" && HasPrefix(host, root) then Some(Place("", host[|root|..]))
    else None
  }

  // ----- the scanning loops -----

  method ScanNamed(ctx: Context, guest: string) returns (best: Option<Binding>)
    requires ctx.Valid()
    ensures best == BestNamed(ctx.List(), guest)
  {
    ghost var bs := ctx.List();
    best := None;
    var i := ctx.nbindings;
    while i > 0
      invariant 0 <= i <= |bs| && best == BestNamed(bs[i..], guest)
    {
      i := i - 1;
      var b := ctx.bindings[i];
      assert bs[i..][0] == b && bs[i..][1..] == bs[i + 1..];
      if (b.guest == "/" || HasPrefix(guest, b.guest)) && (best.None? || |b.guest| > |best.value.guest|) {
        best := Some(b);
      }
    }
    assert bs[0..] == bs;
  }

  method ScanMounted(ctx: Context, host: string) returns (best: Option<Binding>)
    requires ctx.Valid()
    ensures best == BestMounted(ctx.List(), host)
  {
    ghost var bs := ctx.List();
    best := None;
    var i := ctx.nbindings;
    while i > 0
      invariant 0 <= i <= |bs| && best == BestMounted(bs[i..], host)
    {
      i := i - 1;
      var b := ctx.bindings[i];
      assert bs[i..][0] == b && bs[i..][1..] == bs[i + 1..];
      if |b.mount| > 1 && HasPrefix(host, b.mount) && (best.None? || |b.mount| > |best.value.mount|) {
        best := Some(b);
      }
    }
    assert bs[0..] == bs;
  }

  method MapPathToHost(ctx: Context, root: string, guest: string) returns (out: string)
    requires ctx.Valid()
    ensures out == MapToHost(ctx.List(), root, guest)
  {
    var best := ScanNamed(ctx, guest);
    if best.Some? {
      var b := best.value;
      var rest := guest[if b.guest == "/" then 0 else |b.guest|..];
      out := (if b.host == "/" then "" else b.host) + rest;
      if out == "" { out := "/"; }
    } else {
      out := root + guest;
      var mounted := ScanMounted(ctx, out);
      if mounted.Some? {
        out := (if mounted.value.host == "/" then "" else mounted.value.host) + out[|mounted.value.mount|..];
        if out == "" { out := "/"; }
      }
    }
  }

  method MapHostToGuest(ctx: Context, root: string, host: string) returns (out: Option<string>)
    requires ctx.Valid()
    ensures out == HostToGuest(ctx.List(), root, host)
  {
    ghost var bs := ctx.List();
    var best: Option<Binding> := None;
    for i := 0 to ctx.nbindings
      invariant best == BestSource(bs[..i], host)
    {
      var b := ctx.bindings[i];
      assert bs[..i + 1] == bs[..i] + [b];
      if |b.host| > 1 && HasPrefix(host, b.host) && (best.None? || |b.host| > |best.value.host|) {
        best := Some(b);
      }
    }
    assert bs[..|bs|] == bs;
    var guest: string;
    if best.Some? {
      guest := (if best.value.guest == "/" then "" else best.value.guest) + host[|best.value.host|..];
    } else if root != "" && HasPrefix(host, root) {
      guest := host[|root|..];
      assert "" + guest == guest;
    } else {
      return None;
    }
    return Some(if guest == "" then "/" else guest);
  }

  // ----- the newest binding of a target is the one in use -----

  lemma {:induction false} StackOf(bs: seq<Binding>, guest: string)
    ensures forall b :: b in Stack(bs, guest) ==> b in bs && b.guest == guest
    ensures (forall b :: b in bs ==> b.guest != guest) <==> Stack(bs, guest) == []
    decreases |bs|
  {
    if bs != [] { StackOf(bs[..|bs| - 1], guest); }
  }

  lemma {:induction false} StackFront(bs: seq<Binding>, guest: string)
    requires bs != []
    ensures Stack(bs, guest) == (if bs[0].guest == guest then [bs[0]] else []) + Stack(bs[1..], guest)
    decreases |bs|
  {
    var n := |bs| - 1;
    if n > 0 {
      StackFront(bs[..n], guest);
      assert bs[..n][1..] == bs[1..][..n - 1];
    }
  }

  /** The binding a path goes through is on top of its target's stack of mounts. */
  lemma {:induction false} NewestBindingIsUsed(bs: seq<Binding>, guest: string)
    requires Rooted(guest) && BestNamed(bs, guest).Some?
    ensures var b := BestNamed(bs, guest).value;
            var stack := Stack(bs, b.guest);
            stack != [] && b == stack[|stack| - 1]
    decreases |bs|
  {
    var b := BestNamed(bs, guest).value;
    StackFront(bs, b.guest);
    var later := BestNamed(bs[1..], guest);
    if later == Some(b) {
      NewestBindingIsUsed(bs[1..], guest);
    } else {
      assert b == bs[0];
      forall c | c in bs[1..] ensures c.guest != b.guest {}
      StackOf(bs[1..], b.guest);
    }
  }

  // ----- containment -----

  /** Where a guest path may land: the root itself or a binding's host directory, and below it a
      component-aligned tail of the guest path (or of the root followed by it). */
  lemma {:induction false} HostPathIsContained(bs: seq<Binding>, root: string, guest: string)
    requires Rooted(guest)
    ensures var host := MapToHost(bs, root, guest);
            host == root + guest
            || exists b, k: nat :: b in bs && k <= |root + guest| && (k >= |root| || k > 1)
                                   && Aligned((root + guest)[k..]) && host == Place(b.host, (root + guest)[k..])
  {
    var whole := root + guest;
    var named := BestNamed(bs, guest);
    if named.Some? {
      var b := named.value;
      var k := |root| + if b.guest == "/" then 0 else |b.guest|;
      assert whole[k..] == guest[k - |root|..];
      assert Aligned(whole[k..]);
    } else {
      var mounted := BestMounted(bs, whole);
      if mounted.Some? { assert Aligned(whole[|mounted.value.mount|..]); }
    }
  }

  /** What a binding names lies in its host directory, without a second slash where that is "/". */
  lemma NamedGoesThrough(bs: seq<Binding>, root: string, guest: string)
    requires Rooted(guest) && BestNamed(bs, guest).Some?
    ensures var b := BestNamed(bs, guest).value;
            var tail := if b.guest == "/" then guest else guest[|b.guest|..];
            MapToHost(bs, root, guest)
            == if b.host == "/" then (if tail == "" then "/" else tail)
               else if b.host == "" && tail == "" then "/" else b.host + tail
  {
  }

  // ----- the chrooted and the outer view -----

  /** Every binding is attached where its guest path lies under the root. */
  ghost predicate Attached(bs: seq<Binding>, root: string) {
    forall b :: b in bs ==> b.mount == root + (if b.guest == "/" then "" else b.guest)
  }

  ghost predicate Unnamed(bs: seq<Binding>, guest: string) {
    forall b :: b in bs ==> !Names(b, guest)
  }

  /** In a process that is not chrooted, the mount-point search never finds anything. */
  lemma {:induction false} MountsSilentAtRoot(bs: seq<Binding>, root: string, guest: string)
    requires Attached(bs, root) && Rooted(guest) && Unnamed(bs, guest)
    ensures BestMounted(bs, root + guest).None?
    ensures MapToHost(bs, root, guest) == root + guest
  {
    var mounted := BestMounted(bs, root + guest);
    if mounted.Some? {
      PrefixUnder(root, guest, mounted.value.guest);
    }
  }

  /** The search by mount point under the root is the search by guest path. */
  lemma {:induction false} SameBinding(bs: seq<Binding>, root: string, whole: string)
    requires Attached(bs, root) && Rooted(whole)
    requires forall b :: b in bs ==> b.guest != "/" && b.guest != ""
    ensures BestMounted(bs, root + whole) == BestNamed(bs, whole)
    decreases |bs|
  {
    if bs != [] {
      var b := bs[0];
      assert b in bs;
      forall c | c in bs[1..] ensures c in bs {}
      SameBinding(bs[1..], root, whole);
      PrefixUnder(root, whole, b.guest);
      assert b.mount == root + b.guest;
      if |b.mount| <= 1 { assert b.guest[0] != whole[0]; }
    }
  }

  /** A process chrooted to the unbound directory `dir` sees at `path` what its parent sees at
      dir + path, for every path that no binding names directly. */
  lemma {:induction false} ChrootCoherence(bs: seq<Binding>, root: string, dir: string, path: string)
    requires Attached(bs, root) && Rooted(dir) && Rooted(path)
    requires Unnamed(bs, dir) && Unnamed(bs, path)
    ensures MapToHost(bs, MapToHost(bs, root, dir), path) == MapToHost(bs, root, dir + path)
  {
    MountsSilentAtRoot(bs, root, dir);
    forall b | b in bs ensures b.guest != "/" && b.guest != "" {
      assert !Names(b, dir);
    }
    var whole := dir + path;
    assert root + dir + path == root + whole;
    SameBinding(bs, root, whole);
    var named := BestNamed(bs, whole);
    if named.Some? {
      var b := named.value;
      assert b in bs && b.mount == root + b.guest;
      assert (root + whole)[|b.mount|..] == whole[|b.guest|..];
    } else {
      assert BestNamed(bs, path).None?;
    }
  }

  /** A path that a binding does name is shared: it leads to the same place in and out of the chroot. */
  lemma NamedPathsIgnoreTheRoot(bs: seq<Binding>, root: string, other: string, path: string)
    requires !Unnamed(bs, path)
    ensures MapToHost(bs, root, path) == MapToHost(bs, other, path)
  {
    assert BestNamed(bs, path).Some?;
  }

  // ----- there and back -----

  /** Of the bindings that contain a host path, the one with the longest host directory is asked, the
      root's own files included. */
  lemma {:induction false} LongestSourceWins(bs: seq<Binding>, root: string, b: Binding, tail: string)
    requires b in bs && |b.host| > 1 && Aligned(tail)
    requires forall x :: x in bs && Sources(x, b.host + tail) && x != b ==> |x.host| < |b.host|
    ensures HostToGuest(bs, root, b.host + tail) == Some(Place(b.guest, tail))
  {
    var host := b.host + tail;
    assert host[..|b.host|] == b.host && host[|b.host|..] == tail;
    assert Sources(b, host);
  }

  /** No host directory of a binding lies above, at or below another one. */
  ghost predicate Apart(bs: seq<Binding>) {
    && (forall i :: 0 <= i < |bs| ==> |bs[i].host| > 1)
    && (forall i, j :: 0 <= i < j < |bs| ==> !Comparable(bs[i].host, bs[j].host))
  }

  /** Nor the root. */
  ghost predicate Separate(bs: seq<Binding>, root: string) {
    Apart(bs) && forall i :: 0 <= i < |bs| ==> !Comparable(bs[i].host, root)
  }

  /** Below the host directory of a binding, the inverse search finds that binding. */
  lemma {:induction false} SourceIsUnique(bs: seq<Binding>, b: Binding, tail: string)
    requires Apart(bs) && b in bs && Aligned(tail)
    ensures BestSource(bs, b.host + tail) == Some(b)
  {
    var host := b.host + tail;
    assert host[..|b.host|] == b.host;
    assert Sources(b, host);
    var s := BestSource(bs, host).value;
    PrefixesComparable(host, s.host, b.host);
  }

  lemma {:induction false} NoSourceUnderRoot(bs: seq<Binding>, root: string, tail: string)
    requires Separate(bs, root) && Aligned(tail)
    ensures BestSource(bs, root + tail).None? && HasPrefix(root + tail, root)
  {
    var host := root + tail;
    assert host[..|root|] == root;
    var source := BestSource(bs, host);
    if source.Some? { PrefixesComparable(host, source.value.host, root); }
  }

  /** What a binding shows under its own name, it names. */
  lemma ShownIsNamed(b: Binding, guest: string, tail: string)
    requires Rooted(guest) && Aligned(tail) && Place(b.guest, tail) == guest
    ensures Names(b, guest)
  {
    if b.guest != "/" && b.guest != "" {
      assert guest == b.guest + tail;
      assert guest[..|b.guest|] == b.guest;
    }
  }

  /** With sources apart from each other, wherever the root is: a path maps to the host and back to itself
      if and only if a binding names it, or no binding's source lies above it in the root. */
  lemma {:induction false} RoundTripIff(bs: seq<Binding>, root: string, guest: string)
    requires root != "" && Apart(bs) && Attached(bs, root) && Rooted(guest)
    ensures HostToGuest(bs, root, MapToHost(bs, root, guest)) == Some(guest)
       <==> BestNamed(bs, guest).Some? || BestSource(bs, root + guest).None?
  {
    var named := BestNamed(bs, guest);
    if named.Some? {
      var b := named.value;
      var k := if b.guest == "/" then 0 else |b.guest|;
      var tail := guest[k..];
      SourceIsUnique(bs, b, tail);
      assert (b.host + tail)[|b.host|..] == tail;
      assert (if b.guest == "/" then "" else b.guest) == guest[..k];
      assert guest[..k] + tail == guest;
    } else {
      MountsSilentAtRoot(bs, root, guest);
      var host := root + guest;
      assert host[..|root|] == root && host[|root|..] == guest && "" + guest == guest;
      var source := BestSource(bs, host);
      if source.Some? && HostToGuest(bs, root, host) == Some(guest) {
        ShownIsNamed(source.value, guest, host[|source.value.host|..]);
      }
    }
  }

  /** With sources separate from the root too, every path does. */
  lemma {:induction false} RoundTrip(bs: seq<Binding>, root: string, guest: string)
    requires root != "" && Separate(bs, root) && Attached(bs, root) && Rooted(guest)
    ensures HostToGuest(bs, root, MapToHost(bs, root, guest)) == Some(guest)
  {
    RoundTripIff(bs, root, guest);
    NoSourceUnderRoot(bs, root, guest);
  }
}
