/** The first line of a script: interpreter and at most one argument, read from the head of a file. */
module ShebangLine {
  import opened Words
  import opened GuestMemory
  import opened ExecExpand

  const LINE_SIZE: nat := 256

  predicate Blank(c: Byte) { c == ' ' || c == '\t' }

  predicate Trailing(c: Byte) { c == ' ' || c == '\t' || c == '\r' }

  /** strspn and strcspn for blanks. */
  function BlankRun(s: Text): (n: nat)
    ensures n <= |s| && (forall i :: 0 <= i < n ==> Blank(s[i])) && (n < |s| ==> !Blank(s[n]))
  {
    if s == [] || !Blank(s[0]) then 0 else 1 + BlankRun(s[1..])
  }

  function TokenRun(s: Text): (n: nat)
    ensures n <= |s| && (forall i :: 0 <= i < n ==> !Blank(s[i])) && (n < |s| ==> Blank(s[n]))
  {
    if s == [] || Blank(s[0]) then 0 else 1 + TokenRun(s[1..])
  }

  /** Without what trails: blanks and carriage returns. */
  function TrimEnd(s: Text): (t: Text)
    ensures t <= s && (t != [] ==> !Trailing(t[|t| - 1])) && forall i :: |t| <= i < |s| ==> Trailing(s[i])
  {
    if s == [] || !Trailing(s[|s| - 1]) then s else TrimEnd(s[..|s| - 1])
  }

  /** The text between "#!" and the end of the line, of the head or of the line buffer. */
  function LineEnd(head: Text, from: nat): (n: nat)
    requires from <= |head|
    ensures from <= n <= |head| && (forall i :: from <= i < n ==> head[i] != '\n') && (n < |head| ==> head[n] == '\n')
    decreases |head| - from
  {
    if from == |head| || head[from] == '\n' then from else LineEnd(head, from + 1)
  }

  function LineOf(head: Text): Text
    requires |head| >= 2
  {
    var line := head[2..LineEnd(head, 2)];
    if |line| < LINE_SIZE then line else line[..LINE_SIZE - 1]
  }

  /** Interpreter and argument of a line's text. */
  function CutLine(line: Text): Option<Shebang> {
    var p := line[BlankRun(line)..];
    if p == [] then None
    else
      var rest := p[TokenRun(p)..];
      var arg := TrimEnd(rest[BlankRun(rest)..]);
      Some(Shebang(p[..TokenRun(p)], if arg == [] then None else Some(arg)))
  }

  function ShebangOf(head: Text): Option<Shebang> {
    if |head| < 3 || head[0] != '#' || head[1] != '!' then None else CutLine(UpToNul(LineOf(head)))
  }

  /** As the tracer reads it: the line is copied to a buffer, then cut in place. */
  method ParseShebang(head: Text) returns (r: Option<Shebang>)
    ensures r == ShebangOf(head)
  {
    if |head| < 3 || head[0] != '#' || head[1] != '!' { return None; }
    var buffer := new Byte[LINE_SIZE](_ => NUL);
    var len, i := 0, 2;
    while i < |head| && head[i] != '\n' && len < LINE_SIZE - 1
      invariant 2 <= i <= |head| && len == i - 2 <= LINE_SIZE - 1 && i <= LineEnd(head, 2)
      invariant forall j :: 0 <= j < len ==> buffer[j] == head[2 + j]
    {
      buffer[len] := head[i];
      len, i := len + 1, i + 1;
    }
    buffer[len] := NUL;
    assert len < LINE_SIZE - 1 ==> i == LineEnd(head, 2);
    assert |LineOf(head)| == len && forall j :: 0 <= j < len ==> LineOf(head)[j] == head[2 + j];
    assert buffer[..len] == LineOf(head);
    var line := UpToNul(buffer[..len]);
    var p := line[BlankRun(line)..];
    if p == [] { return None; }
    var tok := TokenRun(p);
    var rest := p[tok..];
    rest := rest[BlankRun(rest)..];
    ghost var want := TrimEnd(rest);
    while rest != [] && Trailing(rest[|rest| - 1])
      invariant TrimEnd(rest) == want
      decreases |rest|
    {
      rest := rest[..|rest| - 1];
    }
    return Some(Shebang(p[..tok], if rest == [] then None else Some(rest)));
  }

  // ----- reading what scripts write -----

  predicate Blanks(s: Text) { forall i :: 0 <= i < |s| ==> Blank(s[i]) }

  /** Text that can stand in the line. */
  predicate OneLine(s: Text) { forall i :: 0 <= i < |s| ==> s[i] != NUL && s[i] != '\n' }

  predicate IsToken(s: Text) { s != [] && OneLine(s) && forall i :: 0 <= i < |s| ==> !Blank(s[i]) }

  /** An argument: it may contain blanks, but neither starts nor ends with what is stripped. */
  predicate IsArgument(s: Text) { s != [] && OneLine(s) && !Blank(s[0]) && !Trailing(s[|s| - 1]) }

  lemma BlankRunIs(s: Text, n: nat)
    requires n <= |s| && (forall i :: 0 <= i < n ==> Blank(s[i])) && (n < |s| ==> !Blank(s[n]))
    ensures BlankRun(s) == n
  {
    var m := BlankRun(s);
    assert m < |s| ==> !Blank(s[m]);
  }

  lemma TokenRunIs(s: Text, n: nat)
    requires n <= |s| && (forall i :: 0 <= i < n ==> !Blank(s[i])) && (n < |s| ==> Blank(s[n]))
    ensures TokenRun(s) == n
  {
    var m := TokenRun(s);
    assert m < |s| ==> Blank(s[m]);
  }

  lemma TrimEndIs(s: Text, n: nat)
    requires n <= |s| && (n > 0 ==> !Trailing(s[n - 1])) && forall i :: n <= i < |s| ==> Trailing(s[i])
    ensures TrimEnd(s) == s[..n]
  {
    var t := TrimEnd(s);
    assert t == s[..|t|];
    if n > 0 { assert !Trailing(s[n - 1]); }
    if t != [] { assert !Trailing(s[|t| - 1]); }
  }

  lemma LineIs(head: Text, line: Text)
    requires 2 + |line| <= |head| && |line| < LINE_SIZE && head[2..2 + |line|] == line && OneLine(line)
    requires 2 + |line| < |head| ==> head[2 + |line|] == '\n'
    ensures UpToNul(LineOf(head)) == line
  {
    var n := LineEnd(head, 2);
    assert forall i :: 2 <= i < 2 + |line| ==> head[i] == line[i - 2];
    assert n == 2 + |line|;
    UpToNulIs(line, |line|);
  }

  lemma SkipBlanks(blanks: Text, rest: Text)
    requires Blanks(blanks) && (rest != [] ==> !Blank(rest[0]))
    ensures (blanks + rest)[BlankRun(blanks + rest)..] == rest
  {
    BlankRunIs(blanks + rest, |blanks|);
  }

  lemma TakeToken(token: Text, rest: Text)
    requires IsToken(token) && (rest != [] ==> Blank(rest[0]))
    ensures var p := token + rest; p[..TokenRun(p)] == token && p[TokenRun(p)..] == rest
  {
    TokenRunIs(token + rest, |token|);
  }

  lemma CutReadsBack(before: Text, interp: Text, rest: Text)
    requires Blanks(before) && IsToken(interp) && (rest != [] ==> Blank(rest[0]))
    ensures var arg := TrimEnd(rest[BlankRun(rest)..]);
            CutLine(before + (interp + rest)) == Some(Shebang(interp, if arg == [] then None else Some(arg)))
  {
    SkipBlanks(before, interp + rest);
    TakeToken(interp, rest);
  }

  lemma HeadReadsBack(line: Text, more: Text)
    requires 0 < |line| < LINE_SIZE && OneLine(line) && (more != [] ==> more[0] == '\n')
    ensures ShebangOf("#!" + line + more) == CutLine(line)
  {
    var head: Text := "#!" + line + more;
    assert head[2..2 + |line|] == line;
    LineIs(head, line);
  }

  lemma OneLineParts(a: Text, b: Text)
    requires (OneLine(a) || Blanks(a)) && OneLine(b)
    ensures OneLine(a + b)
  {
    forall i | 0 <= i < |a + b| ensures (a + b)[i] != NUL && (a + b)[i] != '\n' {
      if i < |a| { assert (a + b)[i] == a[i]; }
    }
  }

  /** A file is no script exactly if it does not start with "#!" or there is nothing but blanks behind. */
  lemma {:induction false} NoShebangIff(head: Text)
    ensures ShebangOf(head).None?
       <==> |head| < 3 || head[0] != '#' || head[1] != '!' || Blanks(UpToNul(LineOf(head)))
  {
    if |head| >= 3 {
      var line := UpToNul(LineOf(head));
      var n := BlankRun(line);
      assert n < |line| ==> !Blank(line[n]);
    }
  }

  /** Of a line too long for the buffer the first 255 characters count. */
  lemma {:induction false} LongLineIsCut(kept: Text, more: Text)
    requires |kept| == 255 && more != [] && OneLine(kept) && OneLine(more)
    ensures ShebangOf("#!" + kept + more) == CutLine(kept)
  {
    var head: Text := "#!" + kept + more;
    var n := LineEnd(head, 2);
    assert forall i :: 2 <= i < 2 + |kept| ==> head[i] == kept[i - 2];
    assert forall i :: 2 + |kept| <= i < |head| ==> head[i] == more[i - 2 - |kept|];
    assert n == |head|;
    assert head[2..n] == kept + more && (kept + more)[..|kept|] == kept;
    assert LineOf(head) == kept;
    UpToNulIs(kept, |kept|);
    assert kept[..|kept|] == kept;
  }

  /** Whatever blanks a script puts around them, the interpreter and its whole argument are read back;
      what follows the line does not matter. */
  lemma ShebangReadsBack(before: Text, interp: Text, gap: Text, arg: Text, after: Text, more: Text)
    requires Blanks(before) && IsToken(interp) && Blanks(gap) && gap != [] && IsArgument(arg)
    requires forall i :: 0 <= i < |after| ==> Trailing(after[i])
    requires |before| + |interp| + |gap| + |arg| + |after| < LINE_SIZE
    requires more != [] ==> more[0] == '\n'
    ensures ShebangOf("#!" + (before + (interp + (gap + (arg + after)))) + more) == Some(Shebang(interp, Some(arg)))
  {
    var tail := arg + after;
    SkipBlanks(gap, tail);
    TrimEndIs(tail, |arg|);
    assert tail[..|arg|] == arg;
    CutReadsBack(before, interp, gap + tail);
    forall i | 0 <= i < |after| ensures after[i] != NUL && after[i] != '\n' { assert Trailing(after[i]); }
    OneLineParts(arg, after);
    OneLineParts(gap, tail);
    OneLineParts(interp, gap + tail);
    OneLineParts(before, interp + (gap + tail));
    HeadReadsBack(before + (interp + (gap + tail)), more);
  }

  /** Without an argument. A carriage return then counts as part of the interpreter's name. */
  lemma ShebangReadsBackAlone(before: Text, interp: Text, after: Text, more: Text)
    requires Blanks(before) && IsToken(interp) && Blanks(after)
    requires |before| + |interp| + |after| < LINE_SIZE
    requires more != [] ==> more[0] == '\n'
    ensures ShebangOf("#!" + (before + (interp + after)) + more) == Some(Shebang(interp, None))
  {
    assert after + [] == after;
    SkipBlanks(after, []);
    CutReadsBack(before, interp, after);
    OneLineParts(after, []);
    OneLineParts(interp, after);
    OneLineParts(before, interp + after);
    HeadReadsBack(before + (interp + after), more);
  }
}
