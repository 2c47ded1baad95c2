/**
 * The slash-command registry of commands.cpp: names are stored without
 * their leading '/' and in lower case, and `Dispatch` routes a typed line
 * to the handler registered for its first word. Handlers are opaque
 * values of type `H`; calling one is represented by returning it together
 * with the argument text it would receive.
 */
module Commands {
  import opened Opt
  import opened Text
  import opened Args

  type Registry<H> = map<string, H>

  /** `NormalizeCommand`: one leading '/' dropped, then lower-cased. */
  function Normalize(cmd: string): (r: string)
    ensures forall i :: 0 <= i < |r| ==> !IsUpper(r[i])
    ensures At(cmd, 0) != '/' ==> r == LowerStr(Terminated(cmd))
    ensures At(cmd, 0) == '/' ==> r == LowerStr(Terminated(cmd[1..]))
  {
    var body := if At(cmd, 0) == '/' then cmd[1..] else cmd;
    LowerStr(Terminated(body))
  }

  /** `AddCommand`: registers or replaces the handler under the normalized name. */
  function AddCommand<H>(reg: Registry<H>, cmd: string, h: H): (r: Registry<H>)
    ensures Normalize(cmd) in r && r[Normalize(cmd)] == h
    ensures forall k :: k != Normalize(cmd) ==> (k in r <==> k in reg)
    ensures forall k :: k != Normalize(cmd) && k in reg ==> r[k] == reg[k]
  {
    reg[Normalize(cmd) := h]
  }

  /** `RemoveCommand`: forgets the normalized name; other entries stay. */
  function RemoveCommand<H>(reg: Registry<H>, cmd: string): (r: Registry<H>)
    ensures Normalize(cmd) !in r
    ensures forall k :: k != Normalize(cmd) ==> (k in r <==> k in reg)
    ensures forall k :: k in r ==> r[k] == reg[k]
  {
    reg - {Normalize(cmd)}
  }

  /** `Shutdown`: the registry becomes empty. */
  function Shutdown<H>(reg: Registry<H>): (r: Registry<H>)
    ensures |r| == 0
  {
    map[]
  }

  /** End of the command token: the first blank or terminator from `i`. */
  function WordEnd(s: string, i: nat): (j: nat)
    requires i <= |s|
    ensures i <= j <= |s|
    ensures forall k :: i <= k < j ==> s[k] != ' ' && s[k] != '\t' && s[k] != '\0'
    ensures At(s, j) == ' ' || At(s, j) == '\t' || At(s, j) == '\0'
    decreases |s| - i
  {
    if i < |s| && s[i] != ' ' && s[i] != '\t' && s[i] != '\0' then WordEnd(s, i + 1) else i
  }

  /**
   * `Dispatch`: the handler for the line's first word and the text after
   * the blanks that follow it, or nothing when the line is null, blank, or
   * names no registered command.
   */
  function Dispatch<H>(reg: Registry<H>, line: Option<string>): (r: Option<(H, string)>)
    ensures line.None? ==> r.None?
    ensures line.Some? && At(line.value, SkipSeps(line.value, Blanks, 0)) == '\0' ==> r.None?
    ensures r.Some? ==> exists k :: k in reg && reg[k] == r.value.0
  {
    match line
    case None => None
    case Some(s) =>
      var p := SkipSeps(s, Blanks, 0);
      if At(s, p) == '\0' then None
      else
        var e := WordEnd(s, p);
        var name := Normalize(s[p..e]);
        if name !in reg then None
        else Some((reg[name], s[SkipSeps(s, Blanks, e)..]))
  }

  predicate AllBlank(b: string)
  {
    forall k :: 0 <= k < |b| ==> b[k] == ' ' || b[k] == '\t'
  }

  /** A command token: no blank and no NUL inside. */
  predicate IsToken(t: string)
  {
    |t| > 0 && forall k :: 0 <= k < |t| ==> t[k] != ' ' && t[k] != '\t' && t[k] != '\0'
  }

  lemma {:induction false} SkipBlankRun(s: string, i: nat, b: string)
    requires i + |b| <= |s| && s[i..i + |b|] == b && AllBlank(b)
    ensures SkipSeps(s, Blanks, i) == SkipSeps(s, Blanks, i + |b|)
    decreases |b|
  {
    if |b| > 0 {
      assert s[i] == b[0];
      assert s[i + 1..i + 1 + |b[1..]|] == b[1..];
      SkipBlankRun(s, i + 1, b[1..]);
    }
  }

  lemma {:induction false} TokenRun(s: string, i: nat, t: string)
    requires i + |t| <= |s| && s[i..i + |t|] == t && IsToken(t)
    requires At(s, i + |t|) in {' ', '\t', '\0'}
    ensures WordEnd(s, i) == i + |t|
  {
    var k := i;
    while k < i + |t|
      invariant i <= k <= i + |t|
      invariant WordEnd(s, i) == WordEnd(s, k)
    {
      assert s[k] == t[k - i];
      k := k + 1;
    }
  }

  /** Where `Dispatch`'s scans stop on a line of blanks, token, blanks and rest. */
  lemma {:induction false} LinePositions(b: string, tok: string, sep: string, rest: string)
    requires AllBlank(b) && IsToken(tok) && AllBlank(sep)
    requires |sep| > 0 || rest == []
    requires rest == [] || (rest[0] != ' ' && rest[0] != '\t')
    ensures var s := b + tok + sep + rest;
      SkipSeps(s, Blanks, 0) == |b|
      && At(s, |b|) != '\0'
      && WordEnd(s, |b|) == |b| + |tok|
      && s[|b|..|b| + |tok|] == tok
      && SkipSeps(s, Blanks, |b| + |tok|) == |b| + |tok| + |sep|
      && s[|b| + |tok| + |sep|..] == rest
  {
    LeadingBlanks(b, tok, sep, rest);
    TokenAt(b, tok, sep, rest);
    SeparatorAfter(b, tok, sep, rest);
  }

  /** The skip over the opening blanks stops at the token. */
  lemma {:induction false} LeadingBlanks(b: string, tok: string, sep: string, rest: string)
    requires AllBlank(b) && IsToken(tok)
    ensures var s := b + tok + sep + rest;
      SkipSeps(s, Blanks, 0) == |b| && At(s, |b|) != '\0'
  {
    var s := b + tok + sep + rest;
    assert s[0..|b|] == b;
    SkipBlankRun(s, 0, b);
    assert s[|b|] == tok[0];
  }

  /** The word scan from the token stops right after it. */
  lemma {:induction false} TokenAt(b: string, tok: string, sep: string, rest: string)
    requires IsToken(tok) && AllBlank(sep) && (|sep| > 0 || rest == [])
    ensures var s := b + tok + sep + rest;
      WordEnd(s, |b|) == |b| + |tok| && s[|b|..|b| + |tok|] == tok
  {
    var s := b + tok + sep + rest;
    TokenSlice(b, tok, sep, rest);
    AfterToken(b, tok, sep, rest);
    TokenRun(s, |b|, tok);
  }

  lemma {:induction false} TokenSlice(b: string, tok: string, sep: string, rest: string)
    ensures var s := b + tok + sep + rest; s[|b|..|b| + |tok|] == tok
  {
  }

  /** What follows the token is a blank or the end of the line. */
  lemma {:induction false} AfterToken(b: string, tok: string, sep: string, rest: string)
    requires AllBlank(sep) && (|sep| > 0 || rest == [])
    ensures At(b + tok + sep + rest, |b| + |tok|) in {' ', '\t', '\0'}
  {
    var s := b + tok + sep + rest;
    var e := |b| + |tok|;
    if sep != [] { assert s[e] == sep[0]; } else { assert e == |s|; }
  }

  /** The blanks after the token are skipped up to the rest, which starts with no blank. */
  lemma {:induction false} SeparatorAfter(b: string, tok: string, sep: string, rest: string)
    requires AllBlank(sep)
    requires rest == [] || (rest[0] != ' ' && rest[0] != '\t')
    ensures var s := b + tok + sep + rest;
      SkipSeps(s, Blanks, |b| + |tok|) == |b| + |tok| + |sep| && s[|b| + |tok| + |sep|..] == rest
  {
    var s := b + tok + sep + rest;
    var e := |b| + |tok|;
    assert s[e..e + |sep|] == sep;
    SkipBlankRun(s, e, sep);
    assert At(s, e + |sep|) != ' ' && At(s, e + |sep|) != '\t' by {
      if rest != [] { assert s[e + |sep|] == rest[0]; }
    }
    assert s[e + |sep|..] == rest;
  }

  /**
   * A line made of optional blanks, a token, blanks and the rest reaches
   * the handler registered under the token's normalized name, with the
   * rest as its argument text.
   */
  lemma {:induction false} DispatchLine<H>(reg: Registry<H>, b: string, tok: string, sep: string, rest: string)
    requires AllBlank(b) && IsToken(tok) && AllBlank(sep)
    requires |sep| > 0 || rest == []
    requires rest == [] || (rest[0] != ' ' && rest[0] != '\t')
    ensures Normalize(tok) in reg ==> Dispatch(reg, Some(b + tok + sep + rest)) == Some((reg[Normalize(tok)], rest))
    ensures Normalize(tok) !in reg ==> Dispatch(reg, Some(b + tok + sep + rest)).None?
  {
    var s := b + tok + sep + rest;
    LinePositions(b, tok, sep, rest);
    DispatchAt(reg, s, |b|, |b| + |tok|, |b| + |tok| + |sep|, tok, rest);
  }

  /** `Dispatch` in terms of where its scans stop and what lies between them. */
  lemma {:induction false} DispatchAt<H>(reg: Registry<H>, s: string, p: nat, e: nat, q: nat, tok: string, rest: string)
    requires SkipSeps(s, Blanks, 0) == p && At(s, p) != '\0'
    requires p <= e <= |s| && WordEnd(s, p) == e && SkipSeps(s, Blanks, e) == q
    requires s[p..e] == tok && s[q..] == rest
    ensures Normalize(tok) in reg ==> Dispatch(reg, Some(s)) == Some((reg[Normalize(tok)], rest))
    ensures Normalize(tok) !in reg ==> Dispatch(reg, Some(s)).None?
  {
  }

  /** After `AddCommand`, a line naming the command in any case, with or without '/', reaches it. */
  lemma {:induction false} AddThenDispatch<H>(reg: Registry<H>, cmd: string, h: H, tok: string, rest: string)
    requires IsToken(tok) && Normalize(tok) == Normalize(cmd)
    requires rest == [] || (rest[0] != ' ' && rest[0] != '\t')
    ensures Dispatch(AddCommand(reg, cmd, h), Some(tok + " " + rest)) == Some((h, rest))
  {
    var reg2 := AddCommand(reg, cmd, h);
    assert Normalize(tok) in reg2 && reg2[Normalize(tok)] == h;
    EmptyPrefix(tok);
    DispatchLine(reg2, "", tok, " ", rest);
  }

  lemma {:induction false} EmptyPrefix(s: string)
    ensures "" + s == s
  {
  }

  /** After `RemoveCommand`, the name no longer dispatches. */
  lemma {:induction false} RemoveThenDispatch<H>(reg: Registry<H>, cmd: string, tok: string, rest: string)
    requires IsToken(tok) && Normalize(tok) == Normalize(cmd)
    requires rest == [] || (rest[0] != ' ' && rest[0] != '\t')
    ensures Dispatch(RemoveCommand(reg, cmd), Some(tok + " " + rest)).None?
  {
    var reg2 := RemoveCommand(reg, cmd);
    assert Normalize(tok) !in reg2;
    EmptyPrefix(tok);
    DispatchLine(reg2, "", tok, " ", rest);
  }

  /** After `Shutdown`, nothing dispatches. */
  lemma {:induction false} ShutdownSilences<H>(reg: Registry<H>, line: Option<string>)
    ensures Dispatch(Shutdown(reg), line).None?
  {
  }

  /** Case and one leading '/' do not matter to the lookup. */
  lemma {:induction false} NormalizeIgnoresSlashAndCase(x: string)
    requires At(x, 0) != '/'
    ensures Normalize("/" + x) == Normalize(x)
    ensures Normalize(x) == Normalize(LowerStr(x))
  {
    assert ("/" + x)[1..] == x;
    LowerTerminated(x);
  }

  lemma {:induction false} LowerTerminated(x: string)
    ensures LowerStr(Terminated(x)) == LowerStr(Terminated(LowerStr(x)))
    ensures At(x, 0) != '/' ==> At(LowerStr(x), 0) != '/'
  {
    if x != [] && x[0] != '\0' {
      LowerTerminated(x[1..]);
      assert LowerStr(x)[1..] == LowerStr(x[1..]);
    }
  }
}
