/** Path arguments from end to end: read from the guest, resolved by the walk, copied to scratch. Where the
    walk completes, what the kernel finds in the register lies under the root or a binding. */
module Redirection {
  import opened Words
  import opened GuestMemory
  import opened PathText
  import opened Bindings
  import opened Namespace
  import opened Walk
  import opened Resolution
  import opened Rewrite

  /** How path arguments are made absolute, when they name something in the emulated namespace. */
  type Absolute = Text -> Option<string>

  /** The translation is the walk's. */
  ghost predicate ByWalk(env: Env, absolute: Absolute, follow: bool, translate: Translation) {
    forall t :: translate(t).Some? ==>
      absolute(t).Some? && exists guestOut, complete ::
        Translates(env, absolute(t).value, follow, translate(t).value, guestOut, complete)
  }

  lemma NamesThenSlash(tail: string)
    requires NamesOnly(tail) && !EndsWithSlash(tail)
    ensures NamesOnly(tail + "/")
  {
    var names :| Clean(names) && (tail == Join(names) || tail == Join(names) + "/");
    assert tail == Join(names);
  }

  lemma TailThenSlash(front: string, tail: string)
    ensures front + tail + "/" == front + (tail + "/")
    ensures EndsWithSlash(tail) ==> EndsWithSlash(front + tail)
  {
  }

  lemma SlashBelow(bs: seq<Binding>, root: string, host: string, base: string, tail: string)
    requires ContainedAs(bs, root, host, base, tail) && !EndsWithSlash(host)
    ensures ContainedAs(bs, root, host + "/", base, tail + "/")
  {
    var front := if host == base + tail then base else if base == "/" then "" else base;
    TailThenSlash(front, tail);
    NamesThenSlash(tail);
  }

  lemma {:induction false} SlashStaysContained(bs: seq<Binding>, root: string, host: string, slash: bool)
    requires Contained(bs, root, host)
    ensures Contained(bs, root, WithSlash(host, slash))
  {
    var base, tail :| ContainedAs(bs, root, host, base, tail);
    if slash && !EndsWithSlash(host) { SlashBelow(bs, root, host, base, tail); }
  }

  lemma {:induction false} TranslationIsContained(env: Env, path: string, follow: bool, out: string, guestOut: string,
                                                  complete: bool)
    requires CleanRoot(env.root) && Translates(env, path, follow, out, guestOut, complete)
    requires ResolvePath(env, path, follow).Complete?
    ensures Contained(env.bs, env.root, out)
  {
    CompleteWalkIsContained(env, path, follow);
    var r := ResolvePath(env, path, follow);
    SlashStaysContained(env.bs, env.root, env.Host(r.dir), r.slash);
  }

  /** If the string that was read resolves completely, its host path is contained. */
  ghost predicate Held(env: Env, absolute: Absolute, follow: bool, given: Option<Text>, host: Text) {
    given.Some? && absolute(given.value).Some?
    && (ResolvePath(env, absolute(given.value).value, follow).Complete? ==> Contained(env.bs, env.root, host))
  }

  lemma RewrittenIsHeld(env: Env, absolute: Absolute, follow: bool, translate: Translation, given: Option<Text>)
    requires CleanRoot(env.root) && ByWalk(env, absolute, follow, translate)
    requires given.Some? && translate(given.value).Some?
    ensures Held(env, absolute, follow, given, translate(given.value).value)
  {
    var path, out := absolute(given.value).value, translate(given.value).value;
    var guestOut, complete :| Translates(env, path, follow, out, guestOut, complete);
    if ResolvePath(env, path, follow).Complete? {
      TranslationIsContained(env, path, follow, out, guestOut, complete);
    }
  }

  /** The entry of a call with two paths, the second's last link left alone: each register that was rewritten
      names, at the end, a host path that is contained if the walk over the path read for it completes. */
  method RedirectTwoPaths(stop: Stop, slot1: nat, slot2: nat, translate1: Translation, translate2: Translation,
                          faults: bool, follow: bool, ghost env: Env, ghost absolute1: Absolute,
                          ghost absolute2: Absolute)
    returns (host1: Option<Text>, host2: Option<Text>, ghost seen: Memory)
    requires stop.Valid() && 1 <= slot1 <= 6 && 1 <= slot2 <= 6 && slot1 != slot2
    requires GivesHostPaths(translate1) && GivesHostPaths(translate2) && CleanRoot(env.root)
    requires ByWalk(env, absolute1, follow, translate1) && ByWalk(env, absolute2, false, translate2)
    modifies stop`mem, stop`scratchTop, stop.args
    ensures stop.Valid()
    ensures var reg1, reg2, top := old(stop.args[slot1 - 1]), old(stop.args[slot2 - 1]), old(stop.scratchTop);
            var given1, given2 := ReadText(old(stop.mem), stop.readable, reg1), ReadText(seen, stop.readable, reg2);
            && (host1.Some? ==> HoldsText(stop.mem, stop.args[slot1 - 1], host1.value)
                                && Held(env, absolute1, follow, given1, host1.value))
            && (host2.Some? ==> HoldsText(stop.mem, stop.args[slot2 - 1], host2.value)
                                && Held(env, absolute2, false, given2, host2.value))
            && (given2 == ReadText(old(stop.mem), stop.readable, reg2)
                <==> Spared(old(stop.mem), stop.readable, stop.writable, top,
                            Needed(old(stop.mem), stop.readable, reg1, translate1), reg2))
  {
    ghost var mem0, reg1, reg2 := stop.mem, stop.args[slot1 - 1], stop.args[slot2 - 1];
    host1, host2, seen := stop.RewriteTwoPaths(slot1, slot2, translate1, translate2, faults);
    if host1.Some? {
      RewrittenIsHeld(env, absolute1, follow, translate1, ReadText(mem0, stop.readable, reg1));
    }
    if host2.Some? {
      RewrittenIsHeld(env, absolute2, false, translate2, ReadText(seen, stop.readable, reg2));
    }
  }
}
