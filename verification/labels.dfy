/**
 * The label and stat overrides: class titles by tier, the class lines
 * shown in place of the Name/Class/Deity labels, the synergy labels, the
 * permille gauge values, and the clamped stat values returned to the
 * game instead of its own.
 *
 * The cached server stats are a `StatCache.Cache`; the local player's
 * spawn, read as a fallback for the first class line, is a parameter.
 */
module Labels {
  import opened Opt
  import opened CInt
  import opened Text
  import opened Compat
  import opened StatCache
  import opened GameString

  // ---------------------------------------------------------------------
  // Class titles
  // ---------------------------------------------------------------------

  /** `s_classTitles`: one row per class (Warrior = 1 .. Berserker = 16), one column per tier. */
  const Titles: seq<seq<string>> := [
    ["Warrior",      "Champion",     "Myrmidon",   "Warlord",     "Overlord"],
    ["Cleric",       "Vicar",        "Templar",    "High Priest", "Archon"],
    ["Paladin",      "Cavalier",     "Knight",     "Crusader",    "Lord Protector"],
    ["Ranger",       "Pathfinder",   "Outrider",   "Warder",      "Forest Stalker"],
    ["Shadowknight", "Reaver",       "Revenant",   "Grave Lord",  "Dread Lord"],
    ["Druid",        "Wanderer",     "Preserver",  "Hierophant",  "Storm Warden"],
    ["Monk",         "Disciple",     "Master",     "Grandmaster", "Transcendent"],
    ["Bard",         "Minstrel",     "Troubador",  "Virtuoso",    "Maestro"],
    ["Rogue",        "Rake",         "Blackguard", "Assassin",    "Deceiver"],
    ["Shaman",       "Mystic",       "Luminary",   "Oracle",      "Prophet"],
    ["Necromancer",  "Heretic",      "Defiler",    "Warlock",     "Arch Lich"],
    ["Wizard",       "Channeler",    "Evoker",     "Sorcerer",    "Arcanist"],
    ["Magician",     "Elementalist", "Conjurer",   "Arch Mage",   "Arch Convoker"],
    ["Enchanter",    "Illusionist",  "Beguiler",   "Phantasmist", "Coercer"],
    ["Beastlord",    "Primalist",    "Animist",    "Savage Lord", "Feral Lord"],
    ["Berserker",    "Brawler",      "Vehement",   "Rager",       "Fury"]
  ]

  const ClassTitleCount := 16
  const TierCount := 5

  /** The highest level of each of the first four tiers. */
  const TierTops: seq<int> := [50, 54, 59, 64]

  /** The tier of a level: how many tier tops it exceeds. */
  function Tier(level: int): (t: nat)
    ensures t < TierCount
    ensures forall i :: 0 <= i < |TierTops| ==> (i < t <==> level > TierTops[i])
  {
    if level <= 50 then 0
    else if level <= 54 then 1
    else if level <= 59 then 2
    else if level <= 64 then 3
    else 4
  }

  /** A higher level never lowers the tier. */
  lemma {:induction false} TierMonotone(a: int, b: int)
    requires a <= b
    ensures Tier(a) <= Tier(b)
  {
  }

  /** `GetClassTitle`: "Unknown" outside classes 1..16. */
  function GetClassTitle(classId: int, level: int): (r: string)
    ensures classId < 1 || classId > ClassTitleCount ==> r == "Unknown"
    ensures 1 <= classId <= ClassTitleCount ==> r in Titles[classId - 1]
    ensures |r| <= 14
  {
    if classId < 1 || classId > ClassTitleCount then "Unknown"
    else Titles[classId - 1][Tier(level)]
  }

  /** No class's title is "Unknown", and within a class the five titles are pairwise different. */
  lemma {:induction false} TitleTable()
    ensures |Titles| == ClassTitleCount
    ensures forall c :: 0 <= c < |Titles| ==> |Titles[c]| == TierCount
    ensures forall c, t :: 0 <= c < |Titles| && 0 <= t < |Titles[c]| ==> Titles[c][t] != "Unknown"
    ensures forall c, t, u :: 0 <= c < |Titles| && 0 <= t < u < |Titles[c]| ==> Titles[c][t] != Titles[c][u]
  {
  }

  /** Within a known class the title names the tier: equal titles mean equal tiers, and the title is never "Unknown". */
  lemma {:induction false} TitleNamesTier(classId: int, a: int, b: int)
    requires 1 <= classId <= ClassTitleCount
    ensures GetClassTitle(classId, a) != "Unknown"
    ensures GetClassTitle(classId, a) == GetClassTitle(classId, b) <==> Tier(a) == Tier(b)
  {
    TitleTable();
    if Tier(a) < Tier(b) {
      assert Titles[classId - 1][Tier(a)] != Titles[classId - 1][Tier(b)];
    } else if Tier(b) < Tier(a) {
      assert Titles[classId - 1][Tier(b)] != Titles[classId - 1][Tier(a)];
    }
  }

  // ---------------------------------------------------------------------
  // Class lines
  // ---------------------------------------------------------------------

  /** The local player's class and level as the spawn stores them. */
  datatype Spawn = Spawn(classId: int32, level: uint8)

  /** What an unused class line shows. */
  const Blank := " "

  /** `"%d %s"` of a level and a class title. */
  function Line(level: int32, title: string): (r: string)
    requires |title| <= 14
    ensures |r| <= 26 && r != Blank
  {
    ShowInt32Length(level);
    Show(level) + " " + title
  }

  /** A class line reads back: its leading number is the level and the rest, after one blank, is the title. */
  lemma {:induction false} LineReadsBack(level: int32, title: string, d: int32)
    requires |title| <= 14
    ensures GetInt(Line(level, title), d) == level
    ensures Line(level, title)[|Show(level)| + 1..] == title
  {
    var t := " " + title;
    GetIntOfShow("", level, t, d);
    assert "" + Show(level) + t == Line(level, title);
  }

  /** The line for a class and level. */
  function ClassLine(level: int32, classId: int32): (r: string)
    ensures |r| <= 26 && r != Blank
  {
    Line(level, GetClassTitle(classId, level))
  }

  /** The stat holding the class, and the one holding its level, of class line 1, 2 or 3. */
  function ClassKey(classNum: int): uint32
    requires 1 <= classNum <= 3
  {
    if classNum == 1 then Class1 else if classNum == 2 then Class2 else Class3
  }

  function LevelKey(classNum: int): uint32
    requires 1 <= classNum <= 3
  {
    if classNum == 1 then Class1Level else if classNum == 2 then Class2Level else Class3Level
  }

  /** A stat narrowed to `int`, as the class lines read class and level. */
  function StatInt(c: Cache, k: uint32): int32
  {
    Wrap32(GetStat(c, k))
  }

  /** The server data can fill the first class line. */
  predicate FirstFromStats(c: Cache)
  {
    HasStat(c, ClassCount) && GetClassCount(c) >= 1 && HasStat(c, Class1) && StatInt(c, Class1) > 0
  }

  /** The local player's spawn can fill the first class line. */
  predicate FirstFromSpawn(player: Option<Spawn>)
  {
    player.Some? && 0 < player.value.classId <= 16 && player.value.level > 0
  }

  /**
   * `FormatClassLine(classNum)`; `None` leaves the game's own label.
   * Line 1 prefers the server's stats and falls back to the spawn. Lines 2
   * and 3 are blank when the class count is missing or too small or the
   * class is 0. A missing class count blanks every other line number too,
   * before the line number is looked at; with a class count present any
   * line number other than 1..3 keeps the game's label.
   */
  function FormatClassLine(c: Cache, classNum: int, player: Option<Spawn>): (r: Option<string>)
    ensures classNum == 1 ==> (r.None? <==> !FirstFromStats(c) && !FirstFromSpawn(player))
    ensures classNum == 1 && FirstFromStats(c) ==> r == Some(ClassLine(StatInt(c, Class1Level), StatInt(c, Class1)))
    ensures classNum == 1 && !FirstFromStats(c) && FirstFromSpawn(player) ==>
      r == Some(ClassLine(player.value.level as int32, player.value.classId))
    ensures classNum != 1 && !HasStat(c, ClassCount) ==> r == Some(Blank)
    ensures classNum !in {1, 2, 3} && HasStat(c, ClassCount) ==> r.None?
    ensures classNum in {2, 3} && HasStat(c, ClassCount) ==>
      r.Some? && (r.value == Blank <==> GetClassCount(c) < classNum || StatInt(c, ClassKey(classNum)) == 0)
    ensures classNum in {2, 3} && r.Some? && r.value != Blank ==>
      r.value == ClassLine(StatInt(c, LevelKey(classNum)), StatInt(c, ClassKey(classNum)))
    ensures r.Some? ==> |r.value| < 256
  {
    if classNum == 1 then
      if FirstFromStats(c) then Some(ClassLine(StatInt(c, Class1Level), StatInt(c, Class1)))
      else if FirstFromSpawn(player) then Some(ClassLine(player.value.level as int32, player.value.classId))
      else None
    else if !HasStat(c, ClassCount) then Some(Blank)
    else if classNum != 2 && classNum != 3 then None
    else if GetClassCount(c) < classNum then Some(Blank)
    else
      var classId := StatInt(c, ClassKey(classNum));
      if classId == 0 then Some(Blank)
      else Some(ClassLine(StatInt(c, LevelKey(classNum)), classId))
  }

  /** A non-blank second or third line reads back the level and the title the stats hold. */
  lemma {:induction false} ClassLineReadsBack(c: Cache, classNum: int, player: Option<Spawn>, d: int32)
    requires classNum in {2, 3}
    requires HasStat(c, ClassCount) && GetClassCount(c) >= classNum && StatInt(c, ClassKey(classNum)) != 0
    ensures var r := FormatClassLine(c, classNum, player);
      var level := StatInt(c, LevelKey(classNum));
      r.Some? && GetInt(r.value, d) == level &&
      r.value[|Show(level)| + 1..] == GetClassTitle(StatInt(c, ClassKey(classNum)), level)
  {
    var level := StatInt(c, LevelKey(classNum));
    LineReadsBack(level, GetClassTitle(StatInt(c, ClassKey(classNum)), level), d);
  }

  // ---------------------------------------------------------------------
  // Synergy labels
  // ---------------------------------------------------------------------

  /** `FormatSynergy(stat)`: nothing without the stat, empty unless classless, else the number. */
  function FormatSynergy(c: Cache, k: uint32): (r: Option<string>)
    ensures r.None? <==> !HasStat(c, k)
    ensures r == Some("") <==> HasStat(c, k) && !IsClassless(c)
  {
    if !HasStat(c, k) then None
    else if !IsClassless(c) then Some("")
    else Some(Show(GetStat(c, k)))
  }

  /** A classless character's synergy label parses back to the stat when it fits an `int`. */
  lemma {:induction false} SynergyReadsBack(c: Cache, k: uint32, d: int32)
    requires HasStat(c, k) && IsClassless(c)
    requires INT32_MIN <= GetStat(c, k) <= INT32_MAX
    ensures GetInt(FormatSynergy(c, k).value, d) == GetStat(c, k)
  {
    GetIntOfShow("", GetStat(c, k), "", d);
    assert "" + Show(GetStat(c, k)) + "" == Show(GetStat(c, k));
  }

  // ---------------------------------------------------------------------
  // Label dispatch
  // ---------------------------------------------------------------------

  /** Stats of the twelve per-line synergy labels, for label types 1020..1031. */
  const SynergyLevel1: uint32 := 39

  /**
   * The modelled part of the label table: types 1, 3 and 4 show class
   * lines 1, 2 and 3; type 1006 and types 1020..1031 show synergy levels.
   */
  function FormatLabel(c: Cache, eqType: int, player: Option<Spawn>): (r: Option<string>)
    ensures eqType == 1 ==> r == FormatClassLine(c, 1, player)
    ensures eqType == 3 ==> r == FormatClassLine(c, 2, player)
    ensures eqType == 4 ==> r == FormatClassLine(c, 3, player)
    ensures eqType == 1006 ==> r == FormatSynergy(c, SynergyLevel)
    ensures 1020 <= eqType <= 1031 ==> r == FormatSynergy(c, SynergyLevel1 + (eqType - 1020) as uint32)
    ensures eqType !in {1, 3, 4, 1006} && !(1020 <= eqType <= 1031) ==> r.None?
  {
    if eqType == 1 then FormatClassLine(c, 1, player)
    else if eqType == 3 then FormatClassLine(c, 2, player)
    else if eqType == 4 then FormatClassLine(c, 3, player)
    else if eqType == 1006 then FormatSynergy(c, SynergyLevel)
    else if 1020 <= eqType <= 1031 then FormatSynergy(c, SynergyLevel1 + (eqType - 1020) as uint32)
    else None
  }

  /**
   * `GetLabelFromEQ_Detour` after the original ran: with server data and a
   * formatted text, the label's string is overwritten; otherwise (`None`)
   * it is left as the game wrote it.
   */
  function LabelDetour(c: Cache, eqType: int, player: Option<Spawn>, cxstr: Option<Option<Rep>>, heapOk: bool): (r: Option<Overwritten>)
    ensures !c.hasData ==> r.None?
    ensures c.hasData && FormatLabel(c, eqType, player).Some? ==>
      r == OverwriteCXStr(cxstr, FormatLabel(c, eqType, player), heapOk)
    ensures FormatLabel(c, eqType, player).None? ==> r.None?
  {
    if !c.hasData then None
    else
      var text := FormatLabel(c, eqType, player);
      if text.None? then None else OverwriteCXStr(cxstr, text, heapOk)
  }

  // ---------------------------------------------------------------------
  // Gauges
  // ---------------------------------------------------------------------

  /** The current and maximum stats behind a gauge. */
  datatype GaugeStats = GaugeStats(cur: uint32, max: uint32)

  /** Gauge types 1 and 6 are hit points, 2 mana, 3 endurance; others are not overridden. */
  function GaugeKeys(eqType: int): (r: Option<GaugeStats>)
    ensures r.Some? <==> eqType in {1, 2, 3, 6}
    ensures r.Some? ==> r.value.max == r.value.cur + 3
  {
    if eqType == 1 || eqType == 6 then Some(GaugeStats(CurHP, MaxHP))
    else if eqType == 2 then Some(GaugeStats(CurMana, MaxMana))
    else if eqType == 3 then Some(GaugeStats(CurEndur, MaxEndur))
    else None
  }

  /** The gauge is overridden: server data, both stats present, and a positive maximum. */
  predicate GaugeOverridden(c: Cache, eqType: int)
  {
    c.hasData && GaugeKeys(eqType).Some? &&
    HasStat(c, GaugeKeys(eqType).value.cur) && HasStat(c, GaugeKeys(eqType).value.max) &&
    GetStat(c, GaugeKeys(eqType).value.max) > 0
  }

  /** `cur * 1000` fits in 64 bits and its quotient by `max` fits in `int`: nothing wraps. */
  predicate GaugeFits(cur: int, max: int)
  {
    Abs(cur) * 1000 <= INT64_MAX && Abs(cur) * 1000 <= INT32_MAX * max
  }

  /**
   * `p` is `cur / max` in thousandths rounded toward zero: it has the sign
   * of `cur`, and its magnitude is the largest permille not above
   * `|cur| / max`.
   */
  predicate TruncPermille(cur: int, max: int, p: int)
  {
    (cur >= 0 ==> 0 <= p && p * max <= cur * 1000 < (p + 1) * max) &&
    (cur < 0 ==> p <= 0 && -p * max <= -cur * 1000 < (-p + 1) * max)
  }

  /**
   * The gauge value in thousandths: `cur * 1000 / max` in 64-bit
   * arithmetic with C division, narrowed to `int`. Whenever nothing wraps
   * it is the truncated permille of the current value, negative for a
   * negative current value and above 1000 for one past the maximum; it
   * lies between 0 and 1000 when the current value lies between 0 and the
   * maximum.
   */
  function GaugeValue(c: Cache, eqType: int): (r: Option<int32>)
    ensures r.Some? <==> GaugeOverridden(c, eqType)
    ensures r.Some? ==>
      var cur := GetStat(c, GaugeKeys(eqType).value.cur);
      var max := GetStat(c, GaugeKeys(eqType).value.max);
      GaugeFits(cur, max) ==> TruncPermille(cur, max, r.value)
    ensures r.Some? ==>
      var cur := GetStat(c, GaugeKeys(eqType).value.cur);
      var max := GetStat(c, GaugeKeys(eqType).value.max);
      0 <= cur <= max && cur <= INT64_MAX / 1000 ==>
        0 <= r.value <= 1000 && r.value * max <= cur * 1000 < (r.value + 1) * max
  {
    if !GaugeOverridden(c, eqType) then None
    else
      var keys := GaugeKeys(eqType).value;
      var cur := GetStat(c, keys.cur);
      var max := GetStat(c, keys.max);
      var q := TruncDiv(Wrap64(cur * 1000), max);
      PermilleBounds(cur, max, q);
      Some(Wrap32(q))
  }

  /**
   * Without wrap-around, C division of `cur * 1000` by a positive maximum
   * is the truncated permille, fits in `int`, and is at most 1000 for a
   * current value between 0 and the maximum.
   */
  lemma {:induction false} PermilleBounds(cur: int64, max: int64, q: int)
    requires max > 0 && q == TruncDiv(Wrap64(cur * 1000), max)
    ensures GaugeFits(cur, max) ==> INT32_MIN <= q <= INT32_MAX && TruncPermille(cur, max, q)
    ensures GaugeFits(cur, max) && 0 <= cur <= max ==> q <= 1000
  {
    if GaugeFits(cur, max) {
      var a := cur * 1000;
      assert Abs(a) == Abs(cur) * 1000;
      assert Wrap64(a) == a;
      var rem := a - q * max;
      assert Abs(rem) < max;
      if cur >= 0 {
        assert 0 <= rem;
        assert q * max <= a < (q + 1) * max;
        MulLess(0, q + 1, max);
      } else {
        assert rem <= 0;
        assert -q * max <= -a < (-q + 1) * max;
        MulLess(0, -q + 1, max);
      }
      MulBelow(Abs(q), INT32_MAX, max);
      if 0 <= cur <= max {
        MulBelow(q, 1000, max);
      }
    }
  }

  /** `x * m < y * m` with `m` positive gives `x < y`. */
  lemma {:induction false} MulLess(x: int, y: int, m: int)
    requires m > 0 && x * m < y * m
    ensures x < y
  {
  }

  /** `x * m <= y * m` with `m` positive gives `x <= y`. */
  lemma {:induction false} MulBelow(x: int, y: int, m: int)
    requires m > 0 && x * m <= y * m
    ensures x <= y
  {
  }

  /** Euclidean quotient of `a` by `b`, and its bound when `a` is at most `k` times `b`. */
  lemma {:induction false} DivBounds(a: nat, b: nat, k: nat)
    requires b > 0 && a <= k * b
    ensures a / b * b <= a < (a / b + 1) * b
    ensures a / b <= k
  {
    var q := a / b;
    assert a == q * b + a % b;
  }

  /**
   * `GetGaugeValueFromEQ_Detour` after the original ran: an overridden
   * gauge's string becomes the decimal text of its permille value.
   */
  function GaugeDetour(c: Cache, eqType: int, cxstr: Option<Option<Rep>>, heapOk: bool): (r: Option<Overwritten>)
    ensures !GaugeOverridden(c, eqType) ==> r.None?
    ensures GaugeOverridden(c, eqType) ==>
      r == OverwriteCXStr(cxstr, Some(Show(GaugeValue(c, eqType).value)), heapOk)
  {
    var v := GaugeValue(c, eqType);
    if v.None? then None else OverwriteCXStr(cxstr, Some(Show(v.value)), heapOk)
  }

  /** The game parsing the gauge string back gets the permille value. */
  lemma {:induction false} GaugeTextReadsBack(c: Cache, eqType: int, rep: Rep, d: int32)
    requires GaugeOverridden(c, eqType)
    ensures var r := GaugeDetour(c, eqType, Some(Some(rep)), true);
      r.Some? && GetInt(r.value.current.text, d) == GaugeValue(c, eqType).value
  {
    var v := GaugeValue(c, eqType).value;
    GetIntOfShow("", v, "", d);
    assert "" + Show(v) + "" == Show(v);
  }

  // ---------------------------------------------------------------------
  // Stat detours
  // ---------------------------------------------------------------------

  /** The largest value a stat detour means to return. */
  const StatCap := INT32_MAX - 1

  /** The narrowing the stat detours perform as written: an upper clamp, then a plain cast. */
  function StatAsWritten(v: int64): (r: int32)
    ensures v > StatCap ==> r == StatCap
    ensures INT32_MIN <= v <= StatCap ==> r == v
    ensures v < INT32_MIN ==> (v - r) % TWO32 == 0
  {
    if v > StatCap then StatCap else Wrap32(v)
  }

  /** A value just below the `int` range escapes the cap and comes out as the largest `int`. */
  lemma {:induction false} StatAsWrittenEscapesCap()
    ensures StatAsWritten(INT32_MIN - 1) == INT32_MAX > StatCap
    ensures StatAsWritten(INT32_MIN - 1) > StatAsWritten(0)
  {
  }

  /** The evidently intended narrowing: clamp into `[INT32_MIN, INT32_MAX - 1]`. */
  function StatClamped(v: int64): (r: int32)
    ensures INT32_MIN <= r <= StatCap
    ensures INT32_MIN <= v <= StatCap ==> r == v
    ensures v > StatCap ==> r == StatCap
    ensures v < INT32_MIN ==> r == INT32_MIN
  {
    Clamp(v, INT32_MIN, StatCap)
  }

  /** The clamp keeps order, and agrees with the code as written on every value that is not below the `int` range. */
  lemma {:induction false} StatClampedAgrees(a: int64, b: int64)
    ensures a <= b ==> StatClamped(a) <= StatClamped(b)
    ensures a >= INT32_MIN ==> StatAsWritten(a) == StatClamped(a)
  {
  }

  /** The six stats the game's own functions compute that the detours replace. */
  predicate DetouredStat(k: uint32)
  {
    k in {CurHP, CurMana, CurEndur, MaxHP, MaxMana, MaxEndur}
  }

  /**
   * `Cur_HP` … `Max_Endurance` detours: the clamped cached value, or `None`
   * to call the game's function. The clamp is the corrected `StatClamped`;
   * for every cached value from `INT32_MIN` up it returns what the code as
   * written returns, and only below that range do the two differ.
   */
  function StatDetour(c: Cache, k: uint32): (r: Option<int32>)
    requires DetouredStat(k)
    ensures r.Some? <==> HasStat(c, k)
    ensures r.Some? ==> r.value <= StatCap
    ensures r.Some? && INT32_MIN <= GetStat(c, k) <= StatCap ==> r.value == GetStat(c, k)
    ensures r.Some? && GetStat(c, k) >= INT32_MIN ==> r.value == StatAsWritten(GetStat(c, k))
  {
    if HasStat(c, k) then Some(StatClamped(GetStat(c, k))) else None
  }
}
