/**
 * The deterministic helpers of the target-window mod: the
 * "top,bottom,left,right" rectangle strings of its settings, on/off
 * parsing and the `/targetinfo` toggles, the placeholder (PH) file's
 * line format, and the anchor arithmetic that places the overlay
 * labels inside the target window.
 */
module TargetInfo {
  import opened Opt
  import opened CInt
  import opened Text
  import opened Args
  import opened Compat

  // ---------------------------------------------------------------------
  // Character search
  // ---------------------------------------------------------------------

  /** `strchr` / `find`: the first position of `c`, or `|s|` when there is none. */
  function IndexOf(s: string, c: char): (p: nat)
    ensures p <= |s|
    ensures p < |s| ==> s[p] == c
  {
    if s == [] || s[0] == c then 0 else 1 + IndexOf(s[1..], c)
  }

  /** Nothing before the first `c` is a `c`. */
  lemma {:induction false} IndexOfFirst(s: string, c: char)
    ensures c !in s[..IndexOf(s, c)]
  {
    if s != [] && s[0] != c {
      IndexOfFirst(s[1..], c);
      assert s[..IndexOf(s, c)] == [s[0]] + s[1..][..IndexOf(s[1..], c)];
    }
  }

  /** The first `c` of `a + t` is `a`'s when `a` has one, else it lies in `t`. */
  lemma {:induction false} IndexOfAppend(a: string, t: string, c: char)
    ensures IndexOf(a + t, c) == if IndexOf(a, c) < |a| then IndexOf(a, c) else |a| + IndexOf(t, c)
  {
    if a == [] {
      assert a + t == t;
    } else if a[0] != c {
      assert (a + t)[1..] == a[1..] + t;
      IndexOfAppend(a[1..], t, c);
    }
  }

  // ---------------------------------------------------------------------
  // Rectangle strings
  // ---------------------------------------------------------------------

  /** A window rectangle as the settings give it. */
  datatype Rect4 = Rect4(top: int32, bottom: int32, left: int32, right: int32)

  /** The comma-separated fields of `s`; there is always at least one. */
  function Fields(s: string): (fs: seq<string>)
    ensures |fs| >= 1
    decreases |s|
  {
    var p := IndexOf(s, ',');
    if p == |s| then [s] else [s[..p]] + Fields(s[p + 1..])
  }

  /** The fields of two strings joined by a comma are the fields of each, in order. */
  lemma {:induction false} FieldsAppend(a: string, b: string)
    ensures Fields(a + "," + b) == Fields(a) + Fields(b)
    decreases |a|
  {
    var p := IndexOf(a, ',');
    IndexOfAppend(a, "," + b, ',');
    assert a + "," + b == a + ("," + b);
    if p == |a| {
      FieldsLastCut(a, b);
    } else {
      FieldsAppend(a[p + 1..], b);
      FieldsFirstCut(a, b, p);
    }
  }

  /** `a` without a comma: the joined string is cut right after `a`. */
  lemma {:induction false} FieldsLastCut(a: string, b: string)
    requires IndexOf(a + "," + b, ',') == |a| == IndexOf(a, ',')
    ensures Fields(a + "," + b) == Fields(a) + Fields(b)
  {
    var s := a + "," + b;
    FieldsCut(s, |a|);
    assert s[..|a|] == a && s[|a| + 1..] == b;
  }

  /** `a` with a comma at `p`: the joined string is cut there too. */
  lemma {:induction false} FieldsFirstCut(a: string, b: string, p: nat)
    requires p < |a| && IndexOf(a + "," + b, ',') == p == IndexOf(a, ',')
    requires Fields(a[p + 1..] + "," + b) == Fields(a[p + 1..]) + Fields(b)
    ensures Fields(a + "," + b) == Fields(a) + Fields(b)
  {
    var s, t := a + "," + b, a[p + 1..];
    calc {
      Fields(s);
    == { FieldsCut(s, p); assert s[..p] == a[..p] && s[p + 1..] == t + "," + b; }
      [a[..p]] + Fields(t + "," + b);
    ==
      [a[..p]] + (Fields(t) + Fields(b));
    == { FieldsCut(a, p); }
      Fields(a) + Fields(b);
    }
  }

  /** One unfolding of `Fields` at its first comma. */
  lemma {:induction false} FieldsCut(s: string, p: nat)
    requires p < |s| && IndexOf(s, ',') == p
    ensures Fields(s) == [s[..p]] + Fields(s[p + 1..])
  {
  }

  /** A string without commas is a single field. */
  lemma {:induction false} FieldsSingle(a: string)
    requires ',' !in a
    ensures Fields(a) == [a]
  {
  }

  /** A field's number; an empty field keeps the default. */
  function FieldValue(f: string, d: int32): int32
  {
    if f != "" then GetInt(f, d) else d
  }

  /** Field `j`'s value, or the default when there is no such field. */
  function Pick(fs: seq<string>, j: int, d: int32): int32
  {
    if 0 <= j < |fs| then FieldValue(fs[j], d) else d
  }

  /**
   * The scanning loop of `ParseRect` from field slot `idx` on: each field
   * up to the next comma is read into its slot by `value`, with the
   * slot's value as the default; the loop stops after the fourth slot or
   * the last field.
   */
  function ParseFields(s: string, vals: seq<int32>, idx: nat, value: (string, int32) -> int32): (r: seq<int32>)
    requires |vals| == 4 && idx <= 4
    ensures |r| == 4
    decreases |s|
  {
    if idx == 4 then vals
    else
      var p := IndexOf(s, ',');
      var v := vals[idx := value(s[..p], vals[idx])];
      if p == |s| then v else ParseFields(s[p + 1..], v, idx + 1, value)
  }

  /** Slot `i` ends up with the value of field `i - idx`, or keeps its value when there is no such field. */
  lemma {:induction false} ParseFieldsSlot(s: string, vals: seq<int32>, idx: nat, i: nat, value: (string, int32) -> int32)
    requires |vals| == 4 && idx <= 4 && i < 4
    ensures var fs := Fields(s);
      ParseFields(s, vals, idx, value)[i] == if idx <= i < idx + |fs| then value(fs[i - idx], vals[i]) else vals[i]
    decreases |s|
  {
    if idx < 4 {
      var p := IndexOf(s, ',');
      var v := vals[idx := value(s[..p], vals[idx])];
      if p == |s| {
        assert s[..p] == s && Fields(s) == [s];
        assert ParseFields(s, vals, idx, value) == v;
      } else {
        var fs := Fields(s[p + 1..]);
        assert Fields(s) == [s[..p]] + fs;
        assert ParseFields(s, vals, idx, value) == ParseFields(s[p + 1..], v, idx + 1, value);
        ParseFieldsSlot(s[p + 1..], v, idx + 1, i, value);
      }
    }
  }

  /** `ParseRect(s, dT, dB, dL, dR)`: the scan from the first slot with the defaults in place. */
  function ParseRect(s: string, dT: int32, dB: int32, dL: int32, dR: int32): (r: Rect4)
  {
    var v := ParseFields(s, [dT, dB, dL, dR], 0, FieldValue);
    Rect4(v[0], v[1], v[2], v[3])
  }

  /**
   * The first four comma-separated fields are top, bottom, left and
   * right; a missing or empty field keeps its default, and fields after
   * the fourth are ignored.
   */
  lemma {:induction false} ParseRectFields(s: string, dT: int32, dB: int32, dL: int32, dR: int32)
    ensures var r := ParseRect(s, dT, dB, dL, dR);
      r.top == Pick(Fields(s), 0, dT) && r.bottom == Pick(Fields(s), 1, dB) &&
      r.left == Pick(Fields(s), 2, dL) && r.right == Pick(Fields(s), 3, dR)
  {
    var d := [dT, dB, dL, dR];
    ParseFieldsSlot(s, d, 0, 0, FieldValue);
    ParseFieldsSlot(s, d, 0, 1, FieldValue);
    ParseFieldsSlot(s, d, 0, 2, FieldValue);
    ParseFieldsSlot(s, d, 0, 3, FieldValue);
  }

  /** The settings text of a rectangle. */
  function ShowRect(r: Rect4): string
  {
    Show(r.top) + "," + Show(r.bottom) + "," + Show(r.left) + "," + Show(r.right)
  }

  lemma {:induction false} ShowNoComma(n: int)
    ensures ',' !in Show(n)
  {
  }

  /** Writing a rectangle out and parsing it back gives the rectangle, whatever the defaults. */
  lemma {:induction false} RectRoundTrip(r: Rect4, dT: int32, dB: int32, dL: int32, dR: int32)
    ensures ParseRect(ShowRect(r), dT, dB, dL, dR) == r
  {
    ParseRectFields(ShowRect(r), dT, dB, dL, dR);
    var a, b, c, d := Show(r.top), Show(r.bottom), Show(r.left), Show(r.right);
    ShowNoComma(r.top); ShowNoComma(r.bottom); ShowNoComma(r.left); ShowNoComma(r.right);
    FieldsSingle(a); FieldsSingle(b); FieldsSingle(c); FieldsSingle(d);
    FieldsAppend(a, b);
    FieldsAppend(a + "," + b, c);
    FieldsAppend(a + "," + b + "," + c, d);
    assert Fields(ShowRect(r)) == [a, b, c, d];
    ShowInt(r.top, dT); ShowInt(r.bottom, dB); ShowInt(r.left, dL); ShowInt(r.right, dR);
  }

  /** Anything after a fourth field changes nothing. */
  lemma {:induction false} ExtraFieldsIgnored(s: string, t: string, dT: int32, dB: int32, dL: int32, dR: int32)
    requires |Fields(s)| >= 4
    ensures ParseRect(s + "," + t, dT, dB, dL, dR) == ParseRect(s, dT, dB, dL, dR)
  {
    ParseRectFields(s, dT, dB, dL, dR);
    ParseRectFields(s + "," + t, dT, dB, dL, dR);
    FieldsAppend(s, t);
  }

  // ---------------------------------------------------------------------
  // On/off values and the /targetinfo command
  // ---------------------------------------------------------------------

  predicate OnWord(t: string)
  {
    CiEquals(t, "on") || CiEquals(t, "true") || CiEquals(t, "1")
  }

  predicate OffWord(t: string)
  {
    CiEquals(t, "off") || CiEquals(t, "false") || CiEquals(t, "0")
  }

  /** No word means both on and off. */
  lemma {:induction false} OnOffDisjoint(t: string)
    ensures !(OnWord(t) && OffWord(t))
  {
    if CiEquals(t, "1") {
      assert ToLower(t[0]) == ToLower("1"[0]) != ToLower("0"[0]);
    }
  }

  /**
   * `GetBoolFromString(str, default)`: on/true/1 give true and off/false/0
   * false, ignoring case; null, empty and anything else give the default.
   */
  function GetBoolFromString(str: Option<string>, d: bool): (r: bool)
    ensures str.None? ==> r == d
    ensures str.Some? && OnWord(Terminated(str.value)) ==> r
    ensures str.Some? && OffWord(Terminated(str.value)) ==> !r
    ensures str.Some? && !OnWord(Terminated(str.value)) && !OffWord(Terminated(str.value)) ==> r == d
  {
    OnOffDisjoint(if str.Some? then Terminated(str.value) else "");
    if str.None? then d
    else
      var t := Terminated(str.value);
      if t == "" then d
      else if OnWord(t) then true
      else if OffWord(t) then false
      else d
  }

  /** The five display switches `/targetinfo` controls. */
  datatype Flag = Distance | Info | Placeholder | Anon | Sight

  datatype Flags = Flags(distance: bool, info: bool, placeholder: bool, anon: bool, sight: bool)

  function FlagName(f: Flag): string
  {
    match f
    case Distance => "distance"
    case Info => "info"
    case Placeholder => "placeholder"
    case Anon => "anon"
    case Sight => "sight"
  }

  function Get(fs: Flags, f: Flag): bool
  {
    match f
    case Distance => fs.distance
    case Info => fs.info
    case Placeholder => fs.placeholder
    case Anon => fs.anon
    case Sight => fs.sight
  }

  /** `fs` with switch `f` set to `b` and the others unchanged. */
  function Set(fs: Flags, f: Flag, b: bool): (r: Flags)
    ensures Get(r, f) == b
    ensures forall g :: g != f ==> Get(r, g) == Get(fs, g)
  {
    match f
    case Distance => fs.(distance := b)
    case Info => fs.(info := b)
    case Placeholder => fs.(placeholder := b)
    case Anon => fs.(anon := b)
    case Sight => fs.(sight := b)
  }

  /** The switch an argument names, compared ignoring case, in the order the handler tests them. */
  function FindFlag(arg: string): (r: Option<Flag>)
    ensures r.Some? ==> CiEquals(arg, FlagName(r.value))
    ensures r.None? ==> forall f :: !CiEquals(arg, FlagName(f))
  {
    if CiEquals(arg, "distance") then Some(Distance)
    else if CiEquals(arg, "info") then Some(Info)
    else if CiEquals(arg, "placeholder") then Some(Placeholder)
    else if CiEquals(arg, "anon") then Some(Anon)
    else if CiEquals(arg, "sight") then Some(Sight)
    else None
  }

  /** Each switch is found by its own name in any case: no two names are equal ignoring case. */
  lemma {:induction false} FindFlagName(arg: string, f: Flag)
    requires CiEquals(arg, FlagName(f))
    ensures FindFlag(arg) == Some(f)
  {
    if f == Anon {
      assert ToLower(arg[0]) == ToLower("anon"[0]) != ToLower("info"[0]);
    }
  }

  /** What `/targetinfo` does: update the switches (and save them), reload the UI, or print usage. */
  datatype TargetInfoOutcome = Updated(flags: Flags) | Reload | Usage

  /**
   * `CMD_TargetInfo` on its first two arguments: `/targetinfo <switch> [value]`
   * sets the switch from the value, with the switch's negation as the
   * default, so that without a value it flips; `reload` restarts the UI;
   * anything else prints usage.
   */
  function TargetInfoCommand(fs: Flags, arg: string, value: string): (r: TargetInfoOutcome)
    ensures r.Updated? <==> FindFlag(arg).Some?
    ensures r == Reload <==> FindFlag(arg).None? && CiEquals(arg, "reload")
    ensures r.Updated? ==> var f := FindFlag(arg).value;
      r.flags == Set(fs, f, GetBoolFromString(Some(value), !Get(fs, f)))
  {
    match FindFlag(arg)
    case Some(f) => Updated(Set(fs, f, GetBoolFromString(Some(value), !Get(fs, f))))
    case None => if CiEquals(arg, "reload") then Reload else Usage
  }

  /** The handler as the chat line reaches it: the arguments are the line's words 1 and 2. */
  function TargetInfoLine(fs: Flags, line: string): TargetInfoOutcome
  {
    TargetInfoCommand(fs, Arg(line, 1), Arg(line, 2))
  }

  /** Flipping a switch twice restores every switch. */
  lemma {:induction false} FlipTwice(fs: Flags, f: Flag)
    ensures var once := Set(fs, f, !Get(fs, f)); Set(once, f, !Get(once, f)) == fs
  {
    match f
    case Distance =>
    case Info =>
    case Placeholder =>
    case Anon =>
    case Sight =>
  }

  /** Naming a switch without a value flips it, and doing so twice restores every switch. */
  lemma {:induction false} ToggleTwice(fs: Flags, arg: string)
    requires FindFlag(arg).Some?
    ensures var f := FindFlag(arg).value;
      TargetInfoCommand(fs, arg, "") == Updated(Set(fs, f, !Get(fs, f)))
    ensures TargetInfoCommand(TargetInfoCommand(fs, arg, "").flags, arg, "") == Updated(fs)
  {
    assert Terminated("") == "";
    FlipTwice(fs, FindFlag(arg).value);
  }

  /** `/targetinfo <switch> on` and `... off` set the switch whatever it was. */
  lemma {:induction false} SetExplicitly(fs: Flags, f: Flag, b: bool)
    ensures TargetInfoLine(fs, JoinWords([FlagName(f), if b then "on" else "off"])) == Updated(Set(fs, f, b))
  {
    var w := if b then "on" else "off";
    var ws := [FlagName(f), w];
    assert IsWord(FlagName(f)) && IsWord(w);
    ArgOfJoin(ws, 1);
    ArgOfJoin(ws, 2);
    assert CiEquals(FlagName(f), FlagName(f));
    FindFlagName(FlagName(f), f);
    assert Terminated(w) == w;
    assert b ==> OnWord(w);
    assert !b ==> OffWord(w);
  }

  // ---------------------------------------------------------------------
  // Placeholder file lines
  // ---------------------------------------------------------------------

  /** One placeholder record: the named mob, its expansion, zone and web link. */
  datatype PHInfo = PHInfo(named: string, expansion: string, zone: string, link: string)

  /** A parsed line: the placeholder list and the record its names map to. */
  datatype PhLine = PhLine(phs: string, info: PHInfo)

  predicate LineEnd(c: char)
  {
    c == '\r' || c == '\n'
  }

  /**
   * The trailing-newline trim: CR and LF are dropped from the end while
   * more than one character is left.
   */
  function StripCrLf(t: string): (r: string)
    ensures r <= t
    ensures forall k :: |r| <= k < |t| ==> LineEnd(t[k])
    ensures |t| >= 1 ==> |r| >= 1
    ensures |r| <= 1 || !LineEnd(r[|r| - 1])
  {
    if |t| > 1 && LineEnd(t[|t| - 1]) then StripCrLf(t[..|t| - 1]) else t
  }

  /** A link that already ends in neither CR nor LF is kept whole. */
  lemma {:induction false} StripCrLfKeeps(l: string, e: string)
    requires |l| >= 1 && !LineEnd(l[|l| - 1])
    requires forall k :: 0 <= k < |e| ==> LineEnd(e[k])
    ensures StripCrLf(l + e) == l
  {
    var r := StripCrLf(l + e);
    assert r == (l + e)[..|r|];
    assert (l + e)[..|l|] == l;
  }

  /**
   * The first `n` '^'-terminated fields of `s` and the rest after them,
   * as `strchr` finds them one after another; `None` when `s` has fewer
   * than `n` carets.
   */
  function CutFields(s: string, n: nat): (r: Option<seq<string>>)
    ensures r.Some? ==> |r.value| == n + 1
  {
    if n == 0 then Some([s])
    else
      var p := IndexOf(s, '^');
      if p == |s| then None
      else
        var rest := CutFields(s[p + 1..], n - 1);
        if rest.None? then None else Some([s[..p]] + rest.value)
  }

  /** Cutting `n` fields fails exactly when there are fewer than `n` carets. */
  lemma {:induction false} CutFieldsCount(s: string, n: nat)
    ensures CutFields(s, n).None? <==> multiset(s)['^'] < n
  {
    if n > 0 {
      var p := IndexOf(s, '^');
      NoCaretBefore(s, p);
      if p < |s| {
        assert s == s[..p] + [s[p]] + s[p + 1..];
        CutFieldsCount(s[p + 1..], n - 1);
      } else {
        assert s[..p] == s;
      }
    }
  }

  /** No caret before the first one. */
  lemma {:induction false} NoCaretBefore(s: string, p: nat)
    requires p == IndexOf(s, '^')
    ensures multiset(s[..p])['^'] == 0
  {
    IndexOfFirst(s, '^');
  }

  /** Fields joined by '^'. */
  function JoinCarets(fs: seq<string>): string
    requires |fs| >= 1
  {
    if |fs| == 1 then fs[0] else fs[0] + "^" + JoinCarets(fs[1..])
  }

  /** Joining fields with '^' and cutting the same number of fields back gives them again. */
  lemma {:induction false} CutJoinCarets(fs: seq<string>)
    requires |fs| >= 1 && forall k :: 0 <= k < |fs| - 1 ==> '^' !in fs[k]
    ensures CutFields(JoinCarets(fs), |fs| - 1) == Some(fs)
  {
    if |fs| == 1 {
      assert fs == [fs[0]];
    } else {
      var gs := fs[1..];
      assert forall k :: 0 <= k < |gs| - 1 ==> gs[k] == fs[k + 1];
      calc {
        CutFields(JoinCarets(fs), |fs| - 1);
        CutFields(fs[0] + "^" + JoinCarets(gs), |gs|);
      == { assert '^' !in fs[0]; CutJoinCarets(gs); CutFieldsCons(fs[0], JoinCarets(gs), gs); }
        Some([fs[0]] + gs);
      == { assert fs == [fs[0]] + gs; }
        Some(fs);
      }
    }
  }

  /** A caret-free field in front of a string that cuts into `gs` cuts into it and `gs`. */
  lemma {:induction false} CutFieldsCons(f: string, rest: string, gs: seq<string>)
    requires '^' !in f && |gs| >= 1 && CutFields(rest, |gs| - 1) == Some(gs)
    ensures CutFields(f + "^" + rest, |gs|) == Some([f] + gs)
  {
    FirstCaretSplits(f, rest);
  }

  /** The caret after a caret-free field is the first one, and splits the string back. */
  lemma {:induction false} FirstCaretSplits(f: string, rest: string)
    requires '^' !in f
    ensures IndexOf(f + "^" + rest, '^') == |f|
    ensures (f + "^" + rest)[..|f|] == f && (f + "^" + rest)[|f| + 1..] == rest
  {
    assert f + "^" + rest == f + ("^" + rest);
    IndexOfAppend(f, "^" + rest, '^');
  }

  /**
   * The body of `LoadPHs`'s loop for one line:
   * `Named^PHs^Expansion^Zone^Link`; a line with fewer than four '^' is
   * skipped (`None`); the link is everything after the fourth '^', its
   * trailing newline trimmed.
   */
  function ParsePhLine(line: string): (r: Option<PhLine>)
    ensures r.None? <==> multiset(line)['^'] < 4
  {
    CutFieldsCount(line, 4);
    match CutFields(line, 4)
    case None => None
    case Some(fs) => Some(PhLine(fs[1], PHInfo(fs[0], fs[2], fs[3], StripCrLf(fs[4]))))
  }

  /** The line a record is written as: fields joined by '^', the link followed by a line end. */
  function PhText(p: PhLine, eol: string): string
  {
    JoinCarets([p.info.named, p.phs, p.info.expansion, p.info.zone, p.info.link + eol])
  }

  /** A well-formed line reads back as the record it was written from. */
  lemma {:induction false} PhLineRoundTrip(p: PhLine, eol: string)
    requires '^' !in p.info.named && '^' !in p.phs && '^' !in p.info.expansion && '^' !in p.info.zone
    requires |p.info.link| >= 1 && !LineEnd(p.info.link[|p.info.link| - 1])
    requires forall k :: 0 <= k < |eol| ==> LineEnd(eol[k])
    ensures ParsePhLine(PhText(p, eol)) == Some(p)
  {
    var i := p.info;
    var fs := [i.named, p.phs, i.expansion, i.zone, i.link + eol];
    CutJoinCarets(fs);
    assert CutFields(PhText(p, eol), 4) == Some(fs);
    StripCrLfKeeps(i.link, eol);
    assert StripCrLf(fs[4]) == i.link;
  }

  /** An empty link is not restored: the trim keeps the first character of what follows the fourth '^'. */
  lemma {:induction false} EmptyLinkKeepsCr(p: PhLine)
    requires '^' !in p.info.named && '^' !in p.phs && '^' !in p.info.expansion && '^' !in p.info.zone
    requires p.info.link == ""
    ensures ParsePhLine(PhText(p, "\r\n")) == Some(p.(info := p.info.(link := "\r")))
  {
    var i := p.info;
    assert i.link + "\r\n" == "\r\n";
    CutJoinCarets([i.named, p.phs, i.expansion, i.zone, "\r\n"]);
    assert StripCrLf("\r\n") == "\r";
  }
}
