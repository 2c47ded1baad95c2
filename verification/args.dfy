/**
 * The quote-aware argument splitter of mq_compat.cpp (`GetNextArg` and
 * `GetArg`). A C string is modelled as a `string` whose end, or first NUL,
 * is the terminator; `At` reads the terminator past the end, so the model
 * reads exactly the characters the C loops read. Positions stand for the
 * pointers the C code returns into its input.
 */
module Args {
  import opened Opt

  /** Separator configuration: `sep == '\0'` means "blanks, plus ',' when csv". */
  datatype SepMode = SepMode(csv: bool, sep: char)

  const Blanks := SepMode(false, '\0')

  /** The options of `GetArg` after the source position and index. */
  datatype ArgOptions = ArgOptions(leaveQuotes: bool, toParen: bool, mode: SepMode, anyNonAlphaNum: bool)

  /** `GetArg(dest, src, n)` with every optional parameter at its default. */
  const Plain := ArgOptions(false, false, Blanks, false)

  function At(s: string, i: nat): char
  {
    if i < |s| then s[i] else '\0'
  }

  /** The C string held in `s`: everything before the first NUL. */
  function Terminated(s: string): (r: string)
    ensures r <= s && '\0' !in r
    ensures r == s || s[|r|] == '\0'
  {
    if s == [] || s[0] == '\0' then [] else [s[0]] + Terminated(s[1..])
  }

  predicate IsSep(m: SepMode, c: char)
  {
    if m.sep != '\0' then c == m.sep else c == ' ' || c == '\t' || (m.csv && c == ',')
  }

  /** Skips a run of separators starting at `i`. */
  function SkipSeps(s: string, m: SepMode, i: nat): (j: nat)
    requires i <= |s|
    ensures i <= j <= |s|
    ensures !IsSep(m, At(s, j))
    decreases |s| - i
  {
    if i < |s| && IsSep(m, s[i]) then SkipSeps(s, m, i + 1) else i
  }

  /**
   * The token scan of `GetNextArg`: outside quotes a separator or the
   * terminator ends the token, `"` toggles the quote state, and the
   * terminator met inside quotes stops the scan where it is.
   */
  function TokenEnd(s: string, m: SepMode, i: nat, inQuotes: bool): (j: nat)
    requires i <= |s|
    ensures i <= j <= |s|
    ensures !IsSep(m, At(s, i)) && At(s, i) != '\0' ==> j > i
    ensures At(s, j) == '\0' || IsSep(m, At(s, j))
    decreases |s| - i
  {
    var c := At(s, i);
    if (!IsSep(m, c) && c != '\0') || inQuotes then
      if c == '\0' && inQuotes then i
      else TokenEnd(s, m, i + 1, if c == '"' then !inQuotes else inQuotes)
    else i
  }

  /** Skips `n` tokens, each followed by its separators. */
  function Advance(s: string, m: SepMode, p: nat, n: nat): (j: nat)
    requires p <= |s|
    ensures p <= j <= |s|
    decreases n
  {
    if n == 0 then p else Advance(s, m, Step(s, m, p), n - 1)
  }

  /** Where `GetNextArg(s, n)` points: leading separators skipped, then `n` tokens. */
  function NextArgPos(s: string, n: int, m: SepMode): (j: nat)
    ensures j <= |s|
    ensures n < 1 ==> forall k :: 0 <= k < j ==> IsSep(m, s[k])
    ensures n < 1 ==> !IsSep(m, At(s, j))
  {
    var p := SkipSeps(s, m, 0);
    SkippedAreSeps(s, m, 0);
    if n < 1 then p else Advance(s, m, p, n)
  }

  /** Everything `SkipSeps` skips is a separator. */
  lemma {:induction false} SkippedAreSeps(s: string, m: SepMode, i: nat)
    requires i <= |s|
    ensures forall k :: i <= k < SkipSeps(s, m, i) ==> IsSep(m, s[k])
    decreases |s| - i
  {
    if i < |s| && IsSep(m, s[i]) {
      SkippedAreSeps(s, m, i + 1);
    }
  }

  /** `GetNextArg`: the rest of the line after `n` arguments; null gives "". */
  function GetNextArg(line: Option<string>, n: int, m: SepMode): (r: string)
    ensures line.None? ==> r == ""
    ensures line.Some? ==> |r| <= |line.value| && r == line.value[|line.value| - |r|..]
  {
    match line
    case None => ""
    case Some(s) => s[NextArgPos(s, n, m)..]
  }

  predicate IsWordChar(c: char)
  {
    ('0' <= c <= '9') || ('a' <= c <= 'z') || ('A' <= c <= 'Z') || c == '_'
  }

  /** The condition under which `GetArg` keeps copying outside quotes. */
  predicate Continues(o: ArgOptions, c: char)
  {
    !IsSep(o.mode, c)
    && (!o.anyNonAlphaNum || IsWordChar(c))
    && c != '\0'
    && (!o.toParen || c != ')')
  }

  /** The copy loop of `GetArg`, from position `i` with the given quote state. */
  function CopyArg(s: string, o: ArgOptions, i: nat, inQuotes: bool): (r: string)
    requires i <= |s|
    ensures '\0' !in r
    ensures !o.leaveQuotes ==> '"' !in r
    ensures |r| <= |s| - i + 1
    decreases |s| - i
  {
    var c := At(s, i);
    if Continues(o, c) || inQuotes then
      if c == '\0' then ""
      else
        (if c != '"' then [c] else if o.leaveQuotes then ['"'] else [])
        + CopyArg(s, o, i + 1, if c == '"' then !inQuotes else inQuotes)
    else if o.toParen && c == ')' then ")"
    else ""
  }

  /**
   * `GetArg`: the `n`-th argument of `src` (1-based), NUL-terminated; a
   * null source or destination gives no result.
   */
  function GetArg(src: Option<string>, hasDest: bool, n: int, o: ArgOptions): (r: Option<string>)
    ensures r.Some? <==> src.Some? && hasDest
    ensures r.Some? ==> '\0' !in r.value
    ensures r.Some? && !o.leaveQuotes ==> '"' !in r.value
  {
    if src.None? || !hasDest then None
    else Some(CopyArg(src.value, o, NextArgPos(src.value, n - 1, o.mode), false))
  }

  /** `GetArg(dest, src, n)` with default options on a non-null source. */
  function Arg(s: string, n: int): (r: string)
    ensures '\0' !in r && '"' !in r
  {
    GetArg(Some(s), true, n, Plain).value
  }

  /** `GetNextArg(s, n)` with default options on a non-null source. */
  function NextArg(s: string, n: int): (r: string)
  {
    GetNextArg(Some(s), n, Blanks)
  }

  // ---------------------------------------------------------------------
  // Properties
  // ---------------------------------------------------------------------

  /** A plain word: non-empty, with no blank, quote or NUL in it. */
  predicate IsWord(w: string)
  {
    |w| > 0 && forall k :: 0 <= k < |w| ==> w[k] != ' ' && w[k] != '\t' && w[k] != '"' && w[k] != '\0'
  }

  /** The scan functions only look at the suffix they are given. */
  lemma {:induction false} SkipSepsShift(a: string, b: string, m: SepMode, i: nat)
    requires i <= |b|
    ensures SkipSeps(a + b, m, |a| + i) == |a| + SkipSeps(b, m, i)
    decreases |b| - i
  {
    assert At(a + b, |a| + i) == At(b, i);
    if i < |b| && IsSep(m, b[i]) {
      SkipSepsShift(a, b, m, i + 1);
    }
  }

  lemma {:induction false} TokenEndShift(a: string, b: string, m: SepMode, i: nat, q: bool)
    requires i <= |b|
    ensures TokenEnd(a + b, m, |a| + i, q) == |a| + TokenEnd(b, m, i, q)
    decreases |b| - i
  {
    var c := At(b, i);
    assert At(a + b, |a| + i) == c;
    if (!IsSep(m, c) && c != '\0') || q {
      if !(c == '\0' && q) {
        TokenEndShift(a, b, m, i + 1, if c == '"' then !q else q);
      }
    }
  }

  /** One token and the separators after it: the step `Advance` repeats. */
  function Step(s: string, m: SepMode, p: nat): (j: nat)
    requires p <= |s|
    ensures p <= j <= |s|
  {
    SkipSeps(s, m, TokenEnd(s, m, p, false))
  }

  lemma {:induction false} StepShift(a: string, b: string, m: SepMode, p: nat)
    requires p <= |b|
    ensures Step(a + b, m, |a| + p) == |a| + Step(b, m, p)
  {
    TokenEndShift(a, b, m, p, false);
    SkipSepsShift(a, b, m, TokenEnd(b, m, p, false));
  }

  lemma {:induction false} AdvanceShift(a: string, b: string, m: SepMode, p: nat, n: nat)
    requires p <= |b|
    ensures Advance(a + b, m, |a| + p, n) == |a| + Advance(b, m, p, n)
    decreases n
  {
    if n > 0 {
      var q := Step(b, m, p);
      calc {
        Advance(a + b, m, |a| + p, n);
        Advance(a + b, m, Step(a + b, m, |a| + p), n - 1);
      == { StepShift(a, b, m, p); }
        Advance(a + b, m, |a| + q, n - 1);
      == { AdvanceShift(a, b, m, q, n - 1); }
        |a| + Advance(b, m, q, n - 1);
      }
    }
  }

  lemma {:induction false} CopyArgShift(a: string, b: string, o: ArgOptions, i: nat, q: bool)
    requires i <= |b|
    ensures CopyArg(a + b, o, |a| + i, q) == CopyArg(b, o, i, q)
    decreases |b| - i
  {
    var c := At(b, i);
    assert At(a + b, |a| + i) == c;
    if (Continues(o, c) || q) && c != '\0' {
      CopyArgShift(a, b, o, i + 1, if c == '"' then !q else q);
    }
  }

  /** Scanning a plain word from its start stops right after it. */
  lemma {:induction false} WordScan(s: string, w: string, i: nat)
    requires IsWord(w) && w <= s && i <= |w|
    requires At(s, |w|) == '\0' || At(s, |w|) == ' ' || At(s, |w|) == '\t'
    ensures TokenEnd(s, Blanks, i, false) == |w|
    ensures CopyArg(s, Plain, i, false) == w[i..]
    decreases |w| - i
  {
    if i < |w| {
      assert At(s, i) == w[i];
      WordScan(s, w, i + 1);
      assert w[i..] == [w[i]] + w[i + 1..];
    }
  }

  /** The first argument of a line that starts with a plain word is that word. */
  lemma {:induction false} FirstWord(w: string, t: string)
    requires IsWord(w)
    requires t == [] || t[0] == ' ' || t[0] == '\t'
    ensures Arg(w + t, 1) == w
  {
    var s := w + t;
    assert w <= s;
    assert At(s, |w|) == At(t, 0);
    assert At(s, 0) == w[0];
    WordScan(s, w, 0);
  }

  /**
   * Dropping a leading word and one blank shifts every later argument
   * down by one: the `k`-th argument of `w + " " + t` is the `(k-1)`-th
   * of `t`.
   */
  lemma {:induction false} NextWordShift(w: string, t: string, k: int)
    requires IsWord(w) && k >= 2
    ensures NextArgPos(w + " " + t, k - 1, Blanks) == |w| + 1 + NextArgPos(t, k - 2, Blanks)
    ensures Arg(w + " " + t, k) == Arg(t, k - 1)
  {
    var a := w + " ";
    var s := a + t;
    var j := NextArgPos(t, k - 2, Blanks);
    PastFirstWord(w, t, k - 1);
    CopyArgShift(a, t, Plain, j, false);
  }

  lemma {:induction false} PastFirstWord(w: string, t: string, n: nat)
    requires IsWord(w) && n >= 1
    ensures NextArgPos(w + " " + t, n, Blanks) == |w| + 1 + NextArgPos(t, n - 1, Blanks)
  {
    var a := w + " ";
    var s := a + t;
    var p := SkipSeps(t, Blanks, 0);
    FirstTokenSkipped(w, t);
    assert NextArgPos(s, n, Blanks) == Advance(s, Blanks, |a| + p, n - 1);
    AdvanceShift(a, t, Blanks, p, n - 1);
    if n - 1 < 1 {
      assert Advance(t, Blanks, p, 0) == p;
    }
  }

  /** From the start of `w + " " + t`, one token and its blanks end where `t`'s first argument starts. */
  lemma {:induction false} FirstTokenSkipped(w: string, t: string)
    requires IsWord(w)
    ensures SkipSeps(w + " " + t, Blanks, 0) == 0
    ensures SkipSeps(w + " " + t, Blanks, TokenEnd(w + " " + t, Blanks, 0, false))
            == |w| + 1 + SkipSeps(t, Blanks, 0)
  {
    var a := w + " ";
    var s := a + t;
    assert w <= s;
    assert At(s, |w|) == ' ';
    assert At(s, 0) == w[0];
    WordScan(s, w, 0);
    assert SkipSeps(s, Blanks, |w|) == SkipSeps(s, Blanks, |a|);
    SkipSepsShift(a, t, Blanks, 0);
  }

  /** Words joined by single spaces, as a user types a command line. */
  function JoinWords(ws: seq<string>): (s: string)
    requires |ws| > 0
  {
    if |ws| == 1 then ws[0] else ws[0] + " " + JoinWords(ws[1..])
  }

  /** Splitting a space-joined line of plain words gives the words back. */
  lemma {:induction false} ArgOfJoin(ws: seq<string>, k: int)
    requires |ws| > 0 && forall i :: 0 <= i < |ws| ==> IsWord(ws[i])
    requires 1 <= k <= |ws|
    ensures Arg(JoinWords(ws), k) == ws[k - 1]
    decreases |ws|
  {
    if |ws| == 1 {
      FirstWord(ws[0], "");
      assert ws[0] + "" == ws[0];
    } else if k == 1 {
      FirstWord(ws[0], " " + JoinWords(ws[1..]));
      assert ws[0] + " " + JoinWords(ws[1..]) == ws[0] + (" " + JoinWords(ws[1..]));
    } else {
      NextWordShift(ws[0], JoinWords(ws[1..]), k);
      ArgOfJoin(ws[1..], k - 1);
    }
  }

  /** Inside quotes the copy runs on through separators up to the closing quote. */
  lemma {:induction false} QuotedCopy(s: string, o: ArgOptions, i: nat, p: string)
    requires !o.leaveQuotes
    requires i + |p| < |s| && s[i..i + |p|] == p && s[i + |p|] == '"'
    requires '"' !in p && '\0' !in p
    ensures CopyArg(s, o, i, true) == p + CopyArg(s, o, i + |p| + 1, false)
    decreases |p|
  {
    if |p| > 0 {
      var rest := CopyArg(s, o, i + |p| + 1, false);
      calc {
        CopyArg(s, o, i, true);
      == { assert At(s, i) == s[i] == p[0]; }
        [p[0]] + CopyArg(s, o, i + 1, true);
      == { assert s[i + 1..i + 1 + |p[1..]|] == p[1..]; QuotedCopy(s, o, i + 1, p[1..]); }
        [p[0]] + (p[1..] + rest);
      == { assert p == [p[0]] + p[1..]; }
        p + rest;
      }
    }
  }

  /** A quote that is never closed runs the copy to the end of the string. */
  lemma {:induction false} UnterminatedCopy(s: string, o: ArgOptions, i: nat)
    requires i <= |s|
    requires forall k :: i <= k < |s| ==> s[k] != '"' && s[k] != '\0'
    ensures CopyArg(s, o, i, true) == s[i..]
    decreases |s| - i
  {
    if i < |s| {
      UnterminatedCopy(s, o, i + 1);
      assert s[i..] == [s[i]] + s[i + 1..];
    }
  }

  /** A double-quoted first argument keeps its blanks and loses its quotes. */
  lemma {:induction false} QuotedFirstArg(p: string)
    requires '"' !in p && '\0' !in p
    ensures Arg("\"" + p + "\"", 1) == p
  {
    var s := "\"" + p + "\"";
    assert s[1..1 + |p|] == p;
    assert At(s, 0) == '"';
    QuotedCopy(s, Plain, 1, p);
  }

  /** An unterminated quote makes the argument the whole rest of the line. */
  lemma {:induction false} UnterminatedFirstArg(p: string)
    requires '"' !in p && '\0' !in p
    ensures Arg("\"" + p, 1) == p
  {
    var s := "\"" + p;
    assert s[1..] == p;
    assert At(s, 0) == '"';
    UnterminatedCopy(s, Plain, 1);
  }
}
