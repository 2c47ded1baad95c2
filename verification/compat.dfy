/**
 * The string and spawn helpers of mq_compat.cpp: integer parsing with a
 * default (`GetIntFromString`), case-insensitive comparison and search
 * (`ci_equals`, `ci_find_substr`), the "named mob" rule (`IsNamed`) and
 * the con-colour tables (`ConColor`, `ConColorToARGB`).
 */
module Compat {
  import opened Opt
  import opened CInt
  import opened Text
  import opened Args
  import opened CompatTypes

  // ---------------------------------------------------------------------
  // GetIntFromString
  // ---------------------------------------------------------------------

  /** End of the run of decimal digits that starts at `i`. */
  function DigitRunEnd(s: string, i: nat): (e: nat)
    requires i <= |s|
    ensures i <= e <= |s|
    ensures forall k :: i <= k < e ==> IsDigit(s[k])
    ensures !IsDigit(At(s, e))
    decreases |s| - i
  {
    if i < |s| && IsDigit(s[i]) then DigitRunEnd(s, i + 1) else i
  }

  /**
   * `std::from_chars` into an `int` that already holds `d`: an optional
   * '-', then the longest run of digits. No digits, or a value outside the
   * `int` range, leaves `d` in place.
   */
  function FromChars(s: string, i: nat, d: int32): (r: int32)
    requires i <= |s|
    ensures !IsDigit(At(s, i)) && At(s, i) != '-' ==> r == d
  {
    var neg := At(s, i) == '-';
    var start := if neg then i + 1 else i;
    var e := DigitRunEnd(s, start);
    if e == start then d
    else
      var v: int := DigitsValue(s[start..e]);
      var x: int := if neg then -v else v;
      if INT32_MIN <= x <= INT32_MAX then x else d
  }

  /**
   * `GetIntFromString(str, defaultVal)`: null or empty input gives the
   * default; leading spaces and tabs are skipped; then `from_chars`.
   */
  function GetIntFromString(str: Option<string>, d: int32): (r: int32)
    ensures str.None? || At(str.value, 0) == '\0' ==> r == d
    ensures str.Some? ==>
      var c := At(str.value, SkipSeps(str.value, Blanks, 0));
      !IsDigit(c) && c != '-' ==> r == d
  {
    if str.None? || At(str.value, 0) == '\0' then d
    else FromChars(str.value, SkipSeps(str.value, Blanks, 0), d)
  }

  /** `GetIntFromString` on a non-null string. */
  function GetInt(s: string, d: int32): (r: int32)
    ensures At(s, 0) == '\0' ==> r == d
  {
    GetIntFromString(Some(s), d)
  }

  predicate AllBlanks(b: string)
  {
    forall k :: 0 <= k < |b| ==> b[k] == ' ' || b[k] == '\t'
  }

  lemma {:induction false} DigitRunOver(s: string, i: nat, n: nat, t: string)
    requires i + |NatDigits(n)| <= |s|
    requires s[i..i + |NatDigits(n)|] == NatDigits(n)
    requires At(s, i + |NatDigits(n)|) == At(t, 0) && !IsDigit(At(t, 0))
    ensures DigitRunEnd(s, i) == i + |NatDigits(n)|
  {
    var u := NatDigits(n);
    var k := i;
    while k < i + |u|
      invariant i <= k <= i + |u|
      invariant DigitRunEnd(s, i) == DigitRunEnd(s, k)
    {
      assert s[k] == u[k - i];
      k := k + 1;
    }
  }

  /** `from_chars` applied where the decimal text of `v` starts. */
  lemma {:induction false} FromCharsShow(s: string, i: nat, v: int, t: string, d: int32)
    requires i + |Show(v)| <= |s| && s[i..i + |Show(v)|] == Show(v)
    requires At(s, i + |Show(v)|) == At(t, 0) && !IsDigit(At(t, 0))
    ensures FromChars(s, i, d) == if INT32_MIN <= v <= INT32_MAX then v else d
  {
    var w := Show(v);
    var start := if v < 0 then i + 1 else i;
    var n: nat := if v < 0 then -v else v;
    assert s[i] == w[0];
    assert s[start..start + |NatDigits(n)|] == NatDigits(n);
    DigitRunOver(s, start, n, t);
    NatDigitsValue(n);
  }

  /**
   * Parsing the decimal text of a number, after any blanks and before any
   * non-digit, gives that number back when it fits in an `int`, and the
   * default when it does not.
   */
  lemma {:induction false} GetIntOfShow(b: string, v: int, t: string, d: int32)
    requires AllBlanks(b)
    requires t == [] || !IsDigit(t[0])
    ensures GetInt(b + Show(v) + t, d) == if INT32_MIN <= v <= INT32_MAX then v else d
  {
    var s := b + Show(v) + t;
    var w := Show(v);
    assert s[|b|..|b| + |w|] == w;
    assert At(s, |b|) == w[0];
    assert At(s, 0) != '\0' by {
      if |b| > 0 { assert s[0] == b[0]; }
    }
    assert SkipSeps(s, Blanks, 0) == |b| by {
      var k := 0;
      while k < |b|
        invariant 0 <= k <= |b|
        invariant SkipSeps(s, Blanks, 0) == SkipSeps(s, Blanks, k)
      {
        assert s[k] == b[k];
        k := k + 1;
      }
    }
    assert At(s, |b| + |w|) == At(t, 0);
    FromCharsShow(s, |b|, v, t, d);
  }

  /** Reading back the decimal text of an `int`, whatever the default. */
  lemma {:induction false} ShowInt(v: int32, d: int32)
    ensures GetInt(Show(v), d) == v
  {
    GetIntOfShow("", v, "", d);
    assert "" + Show(v) + "" == Show(v);
  }

  // ---------------------------------------------------------------------
  // Case-insensitive comparison and search
  // ---------------------------------------------------------------------

  /** `ci_equals(a, b)`: same length and equal under `tolower` char by char. */
  predicate CiEquals(a: string, b: string)
  {
    |a| == |b| && forall i :: 0 <= i < |a| ==> ToLower(a[i]) == ToLower(b[i])
  }

  /** Case-insensitive equality is equality of the lower-cased strings. */
  lemma {:induction false} CiEqualsLower(a: string, b: string)
    ensures CiEquals(a, b) <==> LowerStr(a) == LowerStr(b)
  {
    if LowerStr(a) == LowerStr(b) {
      assert |a| == |b|;
      forall i | 0 <= i < |a| ensures ToLower(a[i]) == ToLower(b[i]) {
        assert LowerStr(a)[i] == LowerStr(b)[i];
      }
    }
  }

  /** The needle matches case-insensitively at position `i` of the haystack. */
  predicate MatchAt(h: string, n: string, i: nat)
  {
    i + |n| <= |h| && forall k :: 0 <= k < |n| ==> ToLower(h[i + k]) == ToLower(n[k])
  }

  /** `std::search` from `i`: the first match position, or `|h|` (end) for none. */
  function Search(h: string, n: string, i: nat): (p: nat)
    requires i <= |h|
    ensures i <= p <= |h|
    ensures p < |h| ==> MatchAt(h, n, p)
    ensures forall j :: i <= j < p ==> !MatchAt(h, n, j)
    ensures p == |h| ==> forall j :: i <= j < |h| ==> !MatchAt(h, n, j)
    decreases |h| - i
  {
    if i == |h| then |h|
    else if MatchAt(h, n, i) then i
    else Search(h, n, i + 1)
  }

  /**
   * `ci_find_substr`: the index of the first case-insensitive occurrence,
   * or -1. As with `std::search`, an empty needle is found at 0 in a
   * non-empty haystack, and nothing is found in an empty haystack.
   */
  function CiFindSubstr(h: string, n: string): (r: int)
    ensures -1 <= r < |h|
    ensures r >= 0 ==> MatchAt(h, n, r) && forall j :: 0 <= j < r ==> !MatchAt(h, n, j)
    ensures r == -1 <==> forall j :: 0 <= j < |h| ==> !MatchAt(h, n, j)
  {
    var p := Search(h, n, 0);
    if p == |h| then -1 else p
  }

  /** `ci_equals(haystack, needle, isExact)`. */
  function CiMatches(h: string, n: string, exact: bool): (r: bool)
    ensures exact ==> (r <==> CiEquals(h, n))
    ensures !exact ==> (r <==> exists j :: 0 <= j < |h| && MatchAt(h, n, j))
  {
    if exact then CiEquals(h, n) else CiFindSubstr(h, n) != -1
  }

  /** A non-empty string is found at 0 in anything it equals case-insensitively. */
  lemma {:induction false} CiEqualFound(h: string, n: string)
    requires CiEquals(h, n) && |h| > 0
    ensures CiFindSubstr(h, n) == 0
  {
    assert MatchAt(h, n, 0);
  }

  // ---------------------------------------------------------------------
  // IsNamed
  // ---------------------------------------------------------------------

  /**
   * The name test of `IsNamed`: "A_" and "An_" mark common mobs; a name is
   * named when it starts with '#' or a capital letter. `name[1]` and
   * `name[2]` may be the terminator, which `At` reads.
   */
  function IsNamedName(name: string): (r: bool)
    ensures r ==> |name| > 0 && (name[0] == '#' || IsUpper(name[0]))
    ensures "A_" <= name || "An_" <= name ==> !r
    ensures |name| > 0 && (name[0] == '#' || IsUpper(name[0])) && !("A_" <= name) && !("An_" <= name) ==> r
  {
    var c0 := At(name, 0);
    if c0 == '\0' then false
    else if c0 == 'A' && At(name, 1) == '_' then false
    else if c0 == 'A' && At(name, 1) == 'n' && At(name, 2) == '_' then false
    else if c0 == '#' then true
    else IsUpper(c0)
  }

  /** `IsNamed`: only targetable NPCs that are not objects can be named. */
  function IsNamed(spawn: Option<SpawnView>): (r: bool)
    ensures r ==> spawn.Some? && spawn.value.spawnType == NPC && spawn.value.classId != MQ_Class_Object
    ensures r <==> spawn.Some? && spawn.value.spawnType == NPC && spawn.value.classId != MQ_Class_Object
                   && IsNamedName(spawn.value.name)
  {
    match spawn
    case None => false
    case Some(sp) => sp.spawnType == NPC && sp.classId != MQ_Class_Object && IsNamedName(sp.name)
  }

  // ---------------------------------------------------------------------
  // Con colours
  // ---------------------------------------------------------------------

  /** The colour of each con level the game reports, from 0 (trivial) to 7 (deadly). */
  const ConByLevel: seq<int> :=
    [CONCOLOR_GREY, CONCOLOR_GREY, CONCOLOR_GREEN, CONCOLOR_LIGHTBLUE,
     CONCOLOR_BLUE, CONCOLOR_WHITE, CONCOLOR_YELLOW, CONCOLOR_RED]

  /**
   * `ConColor`: the game's con level for a spawn (absent when the player,
   * the spawn or the game function is missing) mapped to a colour code:
   * the level's entry in `ConByLevel`, and purple for any level past it.
   */
  function ConColor(conLevel: Option<uint32>): (r: int)
    ensures conLevel.None? ==> r == CONCOLOR_WHITE
    ensures conLevel.Some? && conLevel.value < |ConByLevel| ==> r == ConByLevel[conLevel.value]
    ensures conLevel.Some? && conLevel.value >= |ConByLevel| ==> r == COLOR_PURPLE
    ensures r in {CONCOLOR_GREY, CONCOLOR_GREEN, CONCOLOR_LIGHTBLUE, CONCOLOR_BLUE,
                  CONCOLOR_WHITE, CONCOLOR_YELLOW, CONCOLOR_RED, COLOR_PURPLE}
  {
    match conLevel
    case None => CONCOLOR_WHITE
    case Some(l) =>
      if l <= 1 then CONCOLOR_GREY
      else if l == 2 then CONCOLOR_GREEN
      else if l == 3 then CONCOLOR_LIGHTBLUE
      else if l == 4 then CONCOLOR_BLUE
      else if l == 5 then CONCOLOR_WHITE
      else if l == 6 then CONCOLOR_YELLOW
      else if l == 7 then CONCOLOR_RED
      else COLOR_PURPLE
  }

  /** The codes `ConColorToARGB` has an entry for, besides white. */
  const DrawnCodes: set<int> :=
    {CONCOLOR_GREY, CONCOLOR_GREEN, CONCOLOR_LIGHTBLUE, CONCOLOR_BLUE, CONCOLOR_YELLOW, CONCOLOR_RED}

  /** The colour each con code draws in, as ARGB. */
  const ARGBByCode: map<int, bv32> := map[
    CONCOLOR_GREY := 0xFF80_8080, CONCOLOR_GREEN := 0xFF00_FF00,
    CONCOLOR_LIGHTBLUE := 0xFF00_FFFF, CONCOLOR_BLUE := 0xFF00_00FF,
    CONCOLOR_WHITE := 0xFFFF_FFFF, CONCOLOR_YELLOW := 0xFFFF_FF00,
    CONCOLOR_RED := 0xFFFF_0000]

  /**
   * `ConColorToARGB`: each con code draws in its entry of `ARGBByCode`,
   * all of them opaque; unknown codes draw white.
   */
  function ConColorToARGB(code: int): (r: bv32)
    ensures r >> 24 == 0xFF
    ensures code in ARGBByCode ==> r == ARGBByCode[code]
    ensures code !in ARGBByCode ==> r == 0xFFFF_FFFF
    ensures code !in DrawnCodes ==> r == 0xFFFF_FFFF
  {
    if code == CONCOLOR_GREY then 0xFF80_8080
    else if code == CONCOLOR_GREEN then 0xFF00_FF00
    else if code == CONCOLOR_LIGHTBLUE then 0xFF00_FFFF
    else if code == CONCOLOR_BLUE then 0xFF00_00FF
    else if code == CONCOLOR_WHITE then 0xFFFF_FFFF
    else if code == CONCOLOR_YELLOW then 0xFFFF_FF00
    else if code == CONCOLOR_RED then 0xFFFF_0000
    else 0xFFFF_FFFF
  }

  /**
   * Con levels 2 to 7 each draw in their own colour, distinct from grey;
   * levels from 8 up come back purple, which has no entry in the ARGB table
   * and so draws the same white as level 5.
   */
  lemma {:induction false} ConColorsDrawn(a: uint32, b: uint32)
    ensures 2 <= a <= 7 && 2 <= b <= 7 && a != b ==>
      ConColorToARGB(ConColor(Some(a))) != ConColorToARGB(ConColor(Some(b)))
    ensures a >= 2 ==> ConColorToARGB(ConColor(Some(a))) != ConColorToARGB(ConColor(Some(0)))
    ensures a >= 8 ==> ConColorToARGB(ConColor(Some(a))) == ConColorToARGB(ConColor(Some(5)))
  {
  }
}
