/** The list of bindings: bind appends, unbind removes the newest binding of a target. */
module Bindings {
  import opened Words

  const MAX_BINDINGS: nat := 128

  /** `mount` is the host path of the place the binding is attached to. */
  datatype Binding = Binding(host: string, guest: string, mount: string)

  datatype Status = Ok | NoMemory | Invalid

  // ----- what the operations mean -----

  /** Drops the last binding of `guest`, if any. */
  function RemoveNewest(bs: seq<Binding>, guest: string): seq<Binding> {
    if bs == [] then []
    else
      var n := |bs| - 1;
      if bs[n].guest == guest then bs[..n] else RemoveNewest(bs[..n], guest) + [bs[n]]
  }

  lemma {:induction false} RemoveAt(bs: seq<Binding>, guest: string, i: nat)
    requires i < |bs| && bs[i].guest == guest && forall j :: i < j < |bs| ==> bs[j].guest != guest
    ensures RemoveNewest(bs, guest) == bs[..i] + bs[i + 1..]
    decreases |bs|
  {
    var n := |bs| - 1;
    if i < n {
      RemoveAt(bs[..n], guest, i);
      assert bs[i + 1..] == bs[..n][i + 1..] + [bs[n]];
    }
  }

  lemma {:induction false} RemoveNone(bs: seq<Binding>, guest: string)
    requires forall j :: 0 <= j < |bs| ==> bs[j].guest != guest
    ensures RemoveNewest(bs, guest) == bs
    decreases |bs|
  {
    if bs != [] { RemoveNone(bs[..|bs| - 1], guest); }
  }

  class Context {
    var root: string
    const bindings: array<Binding>
    var nbindings: nat

    ghost predicate Valid() reads this { nbindings <= bindings.Length == MAX_BINDINGS }

    ghost function List(): seq<Binding>
      requires Valid()
      reads this, bindings
    {
      bindings[..nbindings]
    }

    constructor ()
      ensures Valid() && fresh(bindings) && List() == [] && root == ""
    {
      root, nbindings := "", 0;
      bindings := new Binding[MAX_BINDINGS](_ => Binding("", "", ""));
    }

    /** The new entry keeps whatever mount point its array cell held until one is attached. */
    method Bind(host: string, guest: string) returns (status: Status)
      requires Valid()
      modifies this`nbindings, bindings
      ensures Valid()
      ensures status == if old(nbindings) >= MAX_BINDINGS then NoMemory
                        else if |host| >= PATH_LEN || |guest| >= PATH_LEN then Invalid else Ok
      ensures status == Ok ==>
                List() == old(List()) + [Binding(host, guest, old(bindings[..])[old(nbindings)].mount)]
      ensures status != Ok ==> List() == old(List())
    {
      if nbindings >= MAX_BINDINGS { return NoMemory; }
      if |host| >= PATH_LEN { return Invalid; }
      bindings[nbindings] := bindings[nbindings].(host := host);
      if |guest| >= PATH_LEN { return Invalid; }
      bindings[nbindings] := bindings[nbindings].(guest := guest);
      nbindings := nbindings + 1;
      return Ok;
    }

    /** A mount while the guest runs: a binding, attached where the target is on the host. */
    method Mount(host: string, guest: string, mount: string) returns (status: Status)
      requires Valid()
      modifies this`nbindings, bindings
      ensures Valid()
      ensures status == Ok <==> old(nbindings) < MAX_BINDINGS && |host| < PATH_LEN && |guest| < PATH_LEN
      ensures List() == if status == Ok then old(List()) + [Binding(host, guest, mount)] else old(List())
    {
      status := Bind(host, guest);
      if status == Ok {
        bindings[nbindings - 1] := bindings[nbindings - 1].(mount := mount);
        assert List()[..nbindings - 1] == old(List());
      }
    }

    /** Moves the entries after cell `i` one cell down. */
    method ShiftDown(i: nat)
      requires Valid() && i < nbindings
      modifies bindings
      ensures bindings[..nbindings - 1] == old(List()[..i] + List()[i + 1..])
    {
      ghost var was := List();
      for k := i to nbindings - 1
        invariant bindings[..i] == was[..i]
        invariant forall j :: i <= j < k ==> bindings[j] == was[j + 1]
        invariant forall j :: k <= j < nbindings ==> bindings[j] == was[j]
      {
        bindings[k] := bindings[k + 1];
      }
    }

    method Unbind(guest: string) returns (found: bool)
      requires Valid()
      modifies this`nbindings, bindings
      ensures Valid()
      ensures List() == RemoveNewest(old(List()), guest)
      ensures found <==> exists b :: b in old(List()) && b.guest == guest
    {
      ghost var was := List();
      var i := nbindings;
      while i > 0
        invariant 0 <= i <= nbindings == |was| && Valid() && List() == was
        invariant forall j :: i <= j < nbindings ==> was[j].guest != guest
      {
        i := i - 1;
        if bindings[i].guest != guest { continue; }
        RemoveAt(was, guest, i);
        assert was[i] in was;
        ShiftDown(i);
        nbindings := nbindings - 1;
        return true;
      }
      RemoveNone(was, guest);
      return false;
    }
  }

  // ----- each target is a stack -----

  /** The bindings of one target, oldest first. */
  function Stack(bs: seq<Binding>, guest: string): seq<Binding> {
    if bs == [] then []
    else
      var n := |bs| - 1;
      if bs[n].guest == guest then Stack(bs[..n], guest) + [bs[n]] else Stack(bs[..n], guest)
  }

  datatype Op = Push(b: Binding) | Pop(guest: string)

  function Target(op: Op): string { if op.Push? then op.b.guest else op.guest }

  function Apply(bs: seq<Binding>, op: Op): seq<Binding> {
    match op
    case Push(b) => if |bs| >= MAX_BINDINGS then bs else bs + [b]
    case Pop(guest) => RemoveNewest(bs, guest)
  }

  function Run(bs: seq<Binding>, ops: seq<Op>): seq<Binding>
    decreases |ops|
  {
    if ops == [] then bs else Run(Apply(bs, ops[0]), ops[1..])
  }

  /** No bind of the run finds the list full. */
  predicate Fits(bs: seq<Binding>, ops: seq<Op>)
    decreases |ops|
  {
    ops == [] || ((ops[0].Push? ==> |bs| < MAX_BINDINGS) && Fits(Apply(bs, ops[0]), ops[1..]))
  }

  function StackRun(stack: seq<Binding>, ops: seq<Op>, guest: string): seq<Binding>
    decreases |ops|
  {
    if ops == [] then stack
    else
      var next := if Target(ops[0]) != guest then stack
                  else match ops[0]
                       case Push(b) => stack + [b]
                       case Pop(_) => if stack == [] then [] else stack[..|stack| - 1];
      StackRun(next, ops[1..], guest)
  }

  lemma {:induction false} PopStack(bs: seq<Binding>, target: string, guest: string)
    ensures Stack(RemoveNewest(bs, target), guest)
         == var s := Stack(bs, guest);
            if target != guest || s == [] then s else s[..|s| - 1]
    decreases |bs|
  {
    if bs != [] {
      var n := |bs| - 1;
      PopStack(bs[..n], target, guest);
      if bs[n].guest != target {
        var r := RemoveNewest(bs[..n], target);
        assert (r + [bs[n]])[..|r|] == r;
      }
    }
  }

  /** Whatever is bound and unbound, each target behaves as a stack of its own. */
  lemma {:induction false} TargetsAreStacks(bs: seq<Binding>, ops: seq<Op>, guest: string)
    requires Fits(bs, ops)
    ensures Stack(Run(bs, ops), guest) == StackRun(Stack(bs, guest), ops, guest)
    decreases |ops|
  {
    if ops != [] {
      TargetsAreStacks(Apply(bs, ops[0]), ops[1..], guest);
      match ops[0]
      case Push(b) => assert (bs + [b])[..|bs|] == bs;
      case Pop(t) => PopStack(bs, t, guest);
    }
  }

  /** Removing bindings of two targets commutes. */
  lemma {:induction false} RemoveCommutes(bs: seq<Binding>, a: string, b: string)
    ensures RemoveNewest(RemoveNewest(bs, a), b) == RemoveNewest(RemoveNewest(bs, b), a)
    decreases |bs|
  {
    if bs != [] && a != b {
      var n := |bs| - 1;
      var init, last := bs[..n], bs[n];
      RemoveCommutes(init, a, b);
      var ra, rb := RemoveNewest(init, a), RemoveNewest(init, b);
      assert (ra + [last])[..|ra|] == ra && (rb + [last])[..|rb|] == rb;
    }
  }

  lemma {:induction false} RemoveThroughRun(bs: seq<Binding>, ops: seq<Op>, guest: string)
    requires Fits(bs, ops) && forall i :: 0 <= i < |ops| ==> Target(ops[i]) != guest
    ensures RemoveNewest(Run(bs, ops), guest) == Run(RemoveNewest(bs, guest), ops)
    ensures Fits(RemoveNewest(bs, guest), ops)
    decreases |ops|
  {
    if ops != [] {
      RemoveSize(bs, guest);
      RemoveThroughRun(Apply(bs, ops[0]), ops[1..], guest);
      match ops[0]
      case Push(b) => assert (bs + [b])[..|bs|] == bs;
      case Pop(t) => RemoveCommutes(bs, t, guest);
    }
  }

  lemma {:induction false} RemoveSize(bs: seq<Binding>, guest: string)
    ensures |bs| - 1 <= |RemoveNewest(bs, guest)| <= |bs|
    decreases |bs|
  {
    if bs != [] { RemoveSize(bs[..|bs| - 1], guest); }
  }

  /** A mount that is unmounted leaves the list as if it had never been made, whatever was mounted
      and unmounted on other targets in between. */
  lemma {:induction false} UndoneMountLeavesNothing(bs: seq<Binding>, b: Binding, between: seq<Op>)
    requires |bs| < MAX_BINDINGS && Fits(bs + [b], between)
    requires forall i :: 0 <= i < |between| ==> Target(between[i]) != b.guest
    ensures RemoveNewest(Run(Apply(bs, Push(b)), between), b.guest) == Run(bs, between)
  {
    RemoveThroughRun(bs + [b], between, b.guest);
    assert (bs + [b])[..|bs|] == bs;
  }
}
