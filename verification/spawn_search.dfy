/**
 * The spawn search of mq_compat.cpp: `ParseSearchSpawn` turns a line of
 * keywords into an `MQSpawnSearch`, and `SpawnMatchesSearch` tests a
 * spawn against it. The floating-point parts (location, radius and the
 * distance tests) are outside the model: their arguments are consumed
 * exactly as the source consumes them, and the distance verdict is a
 * parameter of the match.
 */
module SpawnSearch {
  import opened Opt
  import opened CInt
  import opened Text
  import opened Args
  import opened CompatTypes
  import opened Compat

  /** The boolean switches a search keyword can turn on. */
  datatype SearchFlag =
    | XTarHater | NoPet | TargNext | TargPrev | LFG | GM | Group | NoGroup | Raid
    | NoGuild | Trader | Named | Merchant | Banker | Tank | Healer | Dps | Slower
    | LoS | Targetable

  /** The integer, text and flag fields of `MQSpawnSearch`. */
  datatype Search = Search(
    minLevel: int32,
    maxLevel: int32,
    spawnType: SpawnType,
    spawnId: uint32,
    bSpawnId: bool,
    notId: uint32,
    name: string,
    exactName: bool,
    knownLocation: bool,
    flags: set<SearchFlag>)

  /** `MQSpawnSearch{}`: levels 0..200, any type, no id, no name, no flags. */
  const DefaultSearch := Search(0, MAX_NPC_LEVEL, NONE, 0, false, 0, "", false, false, {})

  /**
   * Keywords that select a spawn type. The source compares each argument
   * with `_stricmp` against lower-case keywords, which is equality of the
   * lower-cased argument (`Compat.CiEqualsLower`).
   */
  const TypeWords: map<string, SpawnType> := map[
    "pc" := PC, "npc" := NPC, "mount" := MOUNT, "pet" := PET, "pcpet" := PCPET,
    "npcpet" := NPCPET, "corpse" := CORPSE, "npccorpse" := NPCCORPSE,
    "pccorpse" := PCCORPSE, "trigger" := TRIGGER, "untargetable" := UNTARGETABLE,
    "trap" := TRAP, "chest" := CHEST, "timer" := TIMER, "aura" := AURA,
    "object" := OBJECT, "banner" := BANNER, "campfire" := CAMPFIRE,
    "mercenary" := MERCENARY, "flyer" := FLYER, "any" := NONE]

  /** Keywords that set a flag. */
  const FlagWords: map<string, SearchFlag> := map[
    "xtarhater" := XTarHater, "nopet" := NoPet, "next" := TargNext, "prev" := TargPrev,
    "lfg" := LFG, "gm" := GM, "group" := Group, "nogroup" := NoGroup, "raid" := Raid,
    "noguild" := NoGuild, "trader" := Trader, "named" := Named, "merchant" := Merchant,
    "banker" := Banker, "tank" := Tank, "healer" := Healer, "dps" := Dps,
    "slower" := Slower, "los" := LoS, "targetable" := Targetable]

  /** What one word of a search line does. */
  datatype Word =
    | TypeWord(t: SpawnType)
    | FlagWord(f: SearchFlag)
    | RangeWord | LocWord | IdWord | RadiusWord | ZRadiusWord | NotIdWord
    | NameWord

  function ClassifyLower(k: string): Word
  {
    if k in TypeWords then TypeWord(TypeWords[k])
    else if k in FlagWords then FlagWord(FlagWords[k])
    else if k == "range" then RangeWord
    else if k == "loc" then LocWord
    else if k == "id" then IdWord
    else if k == "radius" then RadiusWord
    else if k == "zradius" then ZRadiusWord
    else if k == "notid" then NotIdWord
    else NameWord
  }

  function Classify(arg: string): Word
  {
    ClassifyLower(LowerStr(arg))
  }

  /** `GetArg(szArg, szRest, 1); szRest = GetNextArg(szRest, 1);` */
  function Take(rest: string): (r: (string, string))
    ensures |r.1| <= |rest|
    ensures r.0 != "" ==> |r.1| < |rest|
  {
    TakeProgress(rest);
    (Arg(rest, 1), NextArg(rest, 1))
  }

  /** A non-empty first argument means the scan moved past it. */
  lemma {:induction false} TakeProgress(s: string)
    ensures Arg(s, 1) != "" ==> |NextArg(s, 1)| < |s|
  {
    var p0 := SkipSeps(s, Blanks, 0);
    assert NextArgPos(s, 0, Blanks) == p0;
    if Arg(s, 1) != "" {
      assert CopyArg(s, Plain, p0, false) != "";
      assert Continues(Plain, At(s, p0));
      var e := TokenEnd(s, Blanks, p0, false);
      assert e > p0;
      assert NextArgPos(s, 1, Blanks) == Advance(s, Blanks, p0, 1) == SkipSeps(s, Blanks, e);
    }
  }

  /** The effect of one word, given the rest of the line after it. */
  function Step(s: Search, arg: string, rest: string): (r: (Search, string))
    ensures |r.1| <= |rest|
  {
    match Classify(arg)
    case TypeWord(t) => (s.(spawnType := t), rest)
    case FlagWord(f) => (s.(flags := s.flags + {f}), rest)
    case RangeWord =>
      var (a, rest1) := Take(rest);
      var (b, rest2) := Take(rest1);
      (s.(minLevel := GetInt(a, 0), maxLevel := GetInt(b, MAX_NPC_LEVEL)), rest2)
    case LocWord =>
      var (_, rest1) := Take(rest);
      var (_, rest2) := Take(rest1);
      (s.(knownLocation := true), rest2)
    case IdWord =>
      var (a, rest1) := Take(rest);
      (s.(spawnId := U32(GetInt(a, 0)), bSpawnId := true), rest1)
    case RadiusWord => (s, Take(rest).1)
    case ZRadiusWord => (s, Take(rest).1)
    case NotIdWord =>
      var (a, rest1) := Take(rest);
      (s.(notId := U32(GetInt(a, 0))), rest1)
    case NameWord =>
      (s.(name := if s.name != "" then s.name + " " + arg else arg), rest)
  }

  /** The keyword loop: stops at the first empty argument. */
  function ParseLoop(s: Search, rest: string): (r: Search)
    decreases |rest|
  {
    var (arg, rest1) := Take(rest);
    if arg == "" then s
    else
      var (s2, rest2) := Step(s, arg, rest1);
      ParseLoop(s2, rest2)
  }

  /**
   * `ParseSearchSpawn(Buffer, pSearchSpawn)`: a null buffer leaves the
   * search alone; otherwise the search is cleared and the words applied.
   */
  function ParseSearchSpawn(buffer: Option<string>, s: Search): (r: Search)
    ensures buffer.None? ==> r == s
  {
    match buffer
    case None => s
    case Some(b) => ParseLoop(DefaultSearch, b)
  }

  /**
   * `SpawnMatchesSearch` without its floating-point distance tests, whose
   * verdict is `withinDistance`.
   */
  function Matches(s: Search, spawn: Option<SpawnView>, withinDistance: bool): (r: bool)
    ensures r ==> spawn.Some?
    ensures r ==> s.spawnType == NONE || spawn.value.spawnType == s.spawnType
    ensures r ==> s.minLevel <= spawn.value.level <= s.maxLevel
    ensures r && s.bSpawnId ==> spawn.value.id == s.spawnId
    ensures r && s.notId != 0 ==> spawn.value.id != s.notId
    ensures r && Named in s.flags ==> IsNamed(spawn)
    ensures r && NoPet in s.flags ==> spawn.value.spawnType !in {PET, MERCENARY}
    ensures r ==> withinDistance
    ensures r ==> NameMatches(s, spawn.value)
    ensures (spawn.Some? && withinDistance && NameMatches(s, spawn.value)
             && (s.spawnType == NONE || spawn.value.spawnType == s.spawnType)
             && s.minLevel <= spawn.value.level <= s.maxLevel
             && (s.bSpawnId ==> spawn.value.id == s.spawnId)
             && (s.notId != 0 ==> spawn.value.id != s.notId)
             && (Named in s.flags ==> IsNamed(spawn))
             && (NoPet in s.flags ==> spawn.value.spawnType !in {PET, MERCENARY})) ==> r
  {
    match spawn
    case None => false
    case Some(sp) =>
      (s.spawnType == NONE || s.spawnType == sp.spawnType)
      && s.minLevel <= sp.level <= s.maxLevel
      && (!s.bSpawnId || sp.id == s.spawnId)
      && (s.notId == 0 || sp.id != s.notId)
      && NameMatches(s, sp)
      && (Named !in s.flags || IsNamed(spawn))
      && (NoPet !in s.flags || sp.spawnType !in {PET, MERCENARY})
      && withinDistance
  }

  /**
   * The name part of the match: skipped when the search has no name or the
   * spawn's name is empty; otherwise exact, or a substring of the name or
   * of the displayed name.
   */
  predicate NameMatches(s: Search, sp: SpawnView)
  {
    s.name == "" || At(sp.name, 0) == '\0'
    || (if s.exactName then CiEquals(sp.name, s.name)
        else CiFindSubstr(sp.name, s.name) != -1 || CiFindSubstr(sp.displayedName, s.name) != -1)
  }

  // ---------------------------------------------------------------------
  // Properties
  // ---------------------------------------------------------------------

  /** A default search lets through every spawn with level up to 200. */
  lemma {:induction false} DefaultMatchesAll(sp: SpawnView)
    requires sp.level <= MAX_NPC_LEVEL
    ensures Matches(DefaultSearch, Some(sp), true)
  {
  }

  /** A line with nothing but blanks parses to the default search. */
  lemma {:induction false} BlankLineIsDefault(b: string)
    requires AllBlanks(b)
    ensures ParseSearchSpawn(Some(b), DefaultSearch) == DefaultSearch
  {
    var p0 := SkipSeps(b, Blanks, 0);
    assert p0 == |b| by {
      var k := 0;
      while k < |b|
        invariant 0 <= k <= |b|
        invariant SkipSeps(b, Blanks, 0) == SkipSeps(b, Blanks, k)
      {
        k := k + 1;
      }
    }
    assert Arg(b, 1) == "";
  }

  /** The decimal text of a number is a plain word. */
  lemma {:induction false} ShowIsWord(v: int)
    ensures IsWord(Show(v))
  {
    var w := Show(v);
    forall k | 0 <= k < |w| ensures w[k] != ' ' && w[k] != '\t' && w[k] != '"' && w[k] != '\0' {
      if v < 0 && k > 0 { assert w[k] == w[1..][k - 1]; }
    }
  }

  /** Taking the first argument of `w + " " + t` yields `w` and leaves `t`. */
  lemma {:induction false} TakeWord(w: string, t: string)
    requires IsWord(w) && !IsSep(Blanks, At(t, 0))
    ensures Take(w + " " + t) == (w, t)
  {
    var s := w + " " + t;
    assert s == w + (" " + t);
    FirstWord(w, " " + t);
    PastFirstWord(w, t, 1);
    assert NextArgPos(t, 0, Blanks) == 0;
  }

  /** Taking the only argument of a lone word leaves nothing. */
  lemma {:induction false} TakeLastWord(w: string)
    requires IsWord(w)
    ensures Take(w) == (w, "")
  {
    FirstWord(w, "");
    assert w + "" == w;
    assert w <= w && At(w, |w|) == '\0';
    WordScan(w, w, 0);
    assert At(w, 0) == w[0];
    assert NextArgPos(w, 1, Blanks) == Advance(w, Blanks, 0, 1) == |w|;
  }

  /** How `ParseSearchSpawn` extends a name with one more word. */
  function AppendName(name: string, w: string): string
  {
    if name != "" then name + " " + w else w
  }

  lemma {:induction false} StepName(s: Search, w: string, rest: string)
    requires Classify(w) == NameWord
    ensures Step(s, w, rest) == (s.(name := AppendName(s.name, w)), rest)
  {
  }

  lemma {:induction false} ParseLoopStep(s: Search, rest: string)
    requires Take(rest).0 != ""
    ensures ParseLoop(s, rest) == ParseLoop(Step(s, Take(rest).0, Take(rest).1).0, Step(s, Take(rest).0, Take(rest).1).1)
  {
  }

  lemma {:induction false} ParseLoopEnd(s: Search)
    ensures ParseLoop(s, "") == s
  {
    assert Take("") == ("", "");
  }

  /** A plain word that is not a search keyword. */
  predicate IsNameWord(w: string)
  {
    IsWord(w) && Classify(w) == NameWord
  }

  /** One non-keyword word followed by more of the line. */
  lemma {:induction false} NameThenMore(s: Search, w: string, t: string)
    requires IsWord(w) && Classify(w) == NameWord && !IsSep(Blanks, At(t, 0))
    ensures ParseLoop(s, w + " " + t) == ParseLoop(s.(name := AppendName(s.name, w)), t)
  {
    TakeWord(w, t);
    ParseLoopStep(s, w + " " + t);
    StepName(s, w, t);
  }

  /** A last non-keyword word. */
  lemma {:induction false} NameLast(s: Search, w: string)
    requires IsWord(w) && Classify(w) == NameWord
    ensures ParseLoop(s, w) == s.(name := AppendName(s.name, w))
  {
    TakeLastWord(w);
    ParseLoopStep(s, w);
    StepName(s, w, "");
    ParseLoopEnd(s.(name := AppendName(s.name, w)));
  }

  /**
   * Words that are not keywords accumulate into the name, joined with
   * single spaces, and change nothing else.
   */
  lemma {:induction false} NameWordsJoined(s: Search, ws: seq<string>)
    requires |ws| > 0
    requires forall i :: 0 <= i < |ws| ==> IsNameWord(ws[i])
    ensures ParseLoop(s, JoinWords(ws)) == s.(name := AppendName(s.name, JoinWords(ws)))
    decreases |ws|
  {
    var w := ws[0];
    if |ws| == 1 {
      NameLast(s, w);
    } else {
      var rest := ws[1..];
      var t := JoinWords(rest);
      var s2 := s.(name := AppendName(s.name, w));
      assert forall i :: 0 <= i < |rest| ==> rest[i] == ws[i + 1];
      calc {
        ParseLoop(s, JoinWords(ws));
        ParseLoop(s, w + " " + t);
      == { JoinStartsWithFirst(rest); NameThenMore(s, w, t); }
        ParseLoop(s2, t);
      == { NameWordsJoined(s2, rest); }
        s2.(name := AppendName(s2.name, t));
      == { AppendNameAssoc(s.name, w, t); }
        s.(name := AppendName(s.name, JoinWords(ws)));
      }
    }
  }

  lemma {:induction false} AppendNameAssoc(n: string, w: string, t: string)
    requires w != ""
    ensures AppendName(AppendName(n, w), t) == AppendName(n, w + " " + t)
  {
  }

  lemma {:induction false} JoinStartsWithFirst(ws: seq<string>)
    requires |ws| > 0 && IsWord(ws[0])
    ensures |JoinWords(ws)| > 0 && JoinWords(ws)[0] == ws[0][0]
  {
  }

  /** A line of non-keyword words is a name search for exactly that line. */
  lemma {:induction false} NameSearch(ws: seq<string>, s: Search)
    requires |ws| > 0
    requires forall i :: 0 <= i < |ws| ==> IsNameWord(ws[i])
    ensures ParseSearchSpawn(Some(JoinWords(ws)), s) == DefaultSearch.(name := JoinWords(ws))
  {
    NameWordsJoined(DefaultSearch, ws);
  }

  lemma {:induction false} RangeIsKeyword()
    ensures Classify("range") == RangeWord
  {
    assert LowerStr("range") == "range";
    assert "range" !in TypeWords && "range" !in FlagWords;
  }

  lemma {:induction false} IdIsKeyword()
    ensures Classify("id") == IdWord
  {
    assert LowerStr("id") == "id";
    assert "id" !in TypeWords && "id" !in FlagWords;
  }

  /** A keyword followed by more of the line is handled by one `Step`. */
  lemma {:induction false} LoopAfterWord(s: Search, k: string, t: string)
    requires IsWord(k) && !IsSep(Blanks, At(t, 0))
    ensures ParseLoop(s, k + " " + t) == ParseLoop(Step(s, k, t).0, Step(s, k, t).1)
  {
    TakeWord(k, t);
    ParseLoopStep(s, k + " " + t);
  }

  lemma {:induction false} RangeStep(s: Search, a: int32, b: int32)
    ensures Step(s, "range", Show(a) + " " + Show(b)) == (s.(minLevel := a, maxLevel := b), "")
  {
    ShowIsWord(a);
    ShowIsWord(b);
    RangeIsKeyword();
    TakeWord(Show(a), Show(b));
    TakeLastWord(Show(b));
    ShowInt(a, 0);
    ShowInt(b, MAX_NPC_LEVEL);
  }

  /** "range a b" sets the level bounds to `a` and `b`. */
  lemma {:induction false} RangeParsed(a: int32, b: int32, s: Search)
    ensures ParseSearchSpawn(Some("range " + Show(a) + " " + Show(b)), s)
            == DefaultSearch.(minLevel := a, maxLevel := b)
  {
    var sa, sb := Show(a), Show(b);
    assert "range " + sa + " " + sb == "range" + " " + (sa + " " + sb);
    assert At(sa + " " + sb, 0) == sa[0];
    LoopAfterWord(DefaultSearch, "range", sa + " " + sb);
    RangeStep(DefaultSearch, a, b);
    ParseLoopEnd(DefaultSearch.(minLevel := a, maxLevel := b));
  }

  /** After "range a b", only spawns with a level in [a, b] can match. */
  lemma {:induction false} RangeFilters(a: int32, b: int32, sp: SpawnView, within: bool)
    requires Matches(ParseSearchSpawn(Some("range " + Show(a) + " " + Show(b)), DefaultSearch), Some(sp), within)
    ensures a <= sp.level <= b
  {
    RangeParsed(a, b, DefaultSearch);
  }

  lemma {:induction false} IdStep(s: Search, n: int32)
    requires n >= 0
    ensures Step(s, "id", Show(n)) == (s.(spawnId := n, bSpawnId := true), "")
  {
    ShowIsWord(n);
    IdIsKeyword();
    TakeLastWord(Show(n));
    ShowInt(n, 0);
  }

  /** "id n" for a non-negative `n` restricts the match to the spawn with that id. */
  lemma {:induction false} IdParsed(n: int32, sp: SpawnView, within: bool)
    requires n >= 0
    ensures ParseSearchSpawn(Some("id " + Show(n)), DefaultSearch) == DefaultSearch.(spawnId := n, bSpawnId := true)
    ensures Matches(ParseSearchSpawn(Some("id " + Show(n)), DefaultSearch), Some(sp), within) ==> sp.id == n
  {
    var sn := Show(n);
    assert "id " + sn == "id" + " " + sn;
    assert At(sn, 0) == sn[0];
    ShowIsWord(n);
    LoopAfterWord(DefaultSearch, "id", sn);
    IdStep(DefaultSearch, n);
    ParseLoopEnd(DefaultSearch.(spawnId := n, bSpawnId := true));
  }

  /** An empty quoted argument reads as the end of the line, so nothing after it counts. */
  lemma {:induction false} EmptyQuotesStop(rest: string)
    ensures ParseSearchSpawn(Some("\"\" " + rest), DefaultSearch) == DefaultSearch
  {
    var s := "\"\" " + rest;
    assert At(s, 0) == '"' && At(s, 1) == '"' && At(s, 2) == ' ';
    assert SkipSeps(s, Blanks, 0) == 0;
    assert CopyArg(s, Plain, 2, false) == "";
    assert CopyArg(s, Plain, 1, true) == "";
    assert CopyArg(s, Plain, 0, false) == "";
    assert Arg(s, 1) == "";
  }
}
