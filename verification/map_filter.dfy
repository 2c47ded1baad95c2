/**
 * The map filter options of map.h and the `MapFilterOptions` table of
 * map_object.cpp: one option per `MapFilter` value, each naming the
 * option it depends on, and the recursive "enabled only if my
 * prerequisite is enabled" rule.
 */
module MapFilters {
  import opened CInt
  import opened CompatTypes

  // `MapFilter` values; `Invalid` is -1 and `Last` is one past the end.
  const Invalid: int := -1
  const All: int := 0
  const PC: int := 1
  const PCConColor: int := 2
  const Group: int := 3
  const Mount: int := 4
  const NPC: int := 5
  const NPCConColor: int := 6
  const Untargetable: int := 7
  const Pet: int := 8
  const Corpse: int := 9
  const Chest: int := 10
  const Trigger: int := 11
  const Trap: int := 12
  const Timer: int := 13
  const Ground: int := 14
  const Target: int := 15
  const TargetLine: int := 16
  const TargetRadius: int := 17
  const TargetMelee: int := 18
  const Vector: int := 19
  const Custom: int := 20
  const CastRadius: int := 21
  const NormalLabels: int := 22
  const ContextMenu: int := 23
  const SpellRadius: int := 24
  const Aura: int := 25
  const Object: int := 26
  const Banner: int := 27
  const Campfire: int := 28
  const PCCorpse: int := 29
  const NPCCorpse: int := 30
  const Mercenary: int := 31
  const Named: int := 32
  const TargetPath: int := 33
  const Marker: int := 34
  const CampRadius: int := 35
  const PullRadius: int := 36
  const Last: int := 37

  /** `MarkerType`. */
  datatype MarkerType = NoMarker | Triangle | Square | Diamond | Ring | UnknownMarker

  // `MapFilterOption::Flags`.
  const Toggle: bv32 := 0x01
  const NoColor: bv32 := 0x02
  const Regenerate: bv32 := 0x04
  const UsesRadius: bv32 := 0x08
  const ObjectFlag: bv32 := 0x10

  /**
   * `MapFilterOption` without its floating-point radius. `requiresOption`
   * is the `MapFilter` this option depends on.
   */
  datatype FilterOption = FilterOption(
    name: string,
    isDefault: bool,
    thisFilter: int,
    defaultColor: Color,
    requiresOption: int,
    flags: bv32,
    help: string,
    marker: MarkerType,
    markerSize: int32,
    enabled: bool,
    color: Color)
  {
    predicate IsToggle() { flags & Toggle != 0 }
    predicate IsRegenerateOnChange() { flags & Regenerate != 0 }
    predicate IsRadius() { flags & UsesRadius != 0 }
    predicate HasColor() { flags & NoColor == 0 }
    predicate IsObject() { flags & ObjectFlag != 0 }
  }

  /** An aggregate-initialised table entry: the remaining fields keep their defaults. */
  function Entry(name: string, isDefault: bool, thisFilter: int, defaultColor: Color,
                 requiresOption: int, flags: bv32, help: string): FilterOption
  {
    FilterOption(name, isDefault, thisFilter, defaultColor, requiresOption, flags, help,
                 NoMarker, 0, false, DefaultColor)
  }

  /** `MapFilterInvalidOption`: disabled, depending on nothing, no flags. */
  const InvalidOption := Entry("Invalid", false, Invalid, DefaultColor, Invalid, 0, "Invalid filter")

  /** `MapFilterOptions` as the source initialises it. */
  const MapFilterOptions: seq<FilterOption> := [
    Entry("All", true, All, DefaultColor, Invalid, Toggle | NoColor, "Enables/disables map functions"),
    Entry("PC", true, PC, RGB(255, 0, 255), All, Toggle | ObjectFlag, "Displays PCs"),
    Entry("PCConColor", false, PCConColor, DefaultColor, PC, Toggle | NoColor | Regenerate, "Displays PCs in consider colors"),
    Entry("Group", false, Group, RGB(0, 128, 192), PC, Toggle | ObjectFlag, "Displays group members in a specific color"),
    Entry("Mount", false, Mount, RGB(112, 112, 112), All, Toggle | ObjectFlag, "Displays mounts"),
    Entry("NPC", true, NPC, RGB(64, 64, 64), All, Toggle | ObjectFlag, "Displays NPCs"),
    Entry("NPCConColor", false, NPCConColor, DefaultColor, NPC, Toggle | NoColor | Regenerate, "Displays NPCs in consider colors"),
    Entry("Untargetable", false, Untargetable, RGB(128, 128, 128), All, Toggle | ObjectFlag, "Displays untargetable spawns"),
    Entry("Pet", false, Pet, RGB(128, 0, 128), All, Toggle | ObjectFlag, "Displays pets"),
    Entry("Corpse", false, Corpse, RGB(0, 0, 128), All, Toggle | ObjectFlag, "Displays corpses"),
    Entry("Chest", false, Chest, RGB(192, 128, 0), All, Toggle | ObjectFlag, "Displays chests"),
    Entry("Trigger", false, Trigger, RGB(192, 128, 0), All, Toggle | ObjectFlag, "Displays triggers"),
    Entry("Trap", false, Trap, RGB(192, 128, 0), All, Toggle | ObjectFlag, "Displays traps"),
    Entry("Timer", false, Timer, RGB(192, 128, 0), All, Toggle | ObjectFlag, "Displays timers"),
    Entry("Ground", false, Ground, RGB(192, 128, 0), All, Toggle | ObjectFlag, "Displays ground items"),
    Entry("Target", true, Target, RGB(192, 0, 0), All, Toggle | Regenerate, "Displays your target"),
    Entry("TargetLine", true, TargetLine, RGB(128, 0, 0), Target, Toggle, "Displays a line to your target"),
    Entry("TargetRadius", false, TargetRadius, RGB(128, 128, 0), Target, Toggle | UsesRadius, "Sets radius of target circle"),
    Entry("TargetMelee", false, TargetMelee, RGB(255, 128, 0), Target, Toggle | UsesRadius, "Displays melee range for target"),
    Entry("Vector", false, Vector, DefaultColor, All, Toggle | NoColor | Regenerate, "Displays heading vectors"),
    Entry("Custom", false, Custom, DefaultColor, All, Toggle | NoColor | Regenerate, "Sets custom filter"),
    Entry("CastRadius", false, CastRadius, RGB(128, 128, 0), All, Toggle | UsesRadius, "Sets radius of cast circle"),
    Entry("NormalLabels", true, NormalLabels, DefaultColor, All, Toggle | NoColor, "Displays normal EQ labels"),
    Entry("ContextMenu", true, ContextMenu, DefaultColor, All, Toggle | NoColor, "Displays context menu"),
    Entry("SpellRadius", false, SpellRadius, RGB(128, 128, 0), All, Toggle | UsesRadius, "Sets radius of spell circle"),
    Entry("Aura", false, Aura, RGB(64, 64, 64), All, Toggle | ObjectFlag, "Displays auras"),
    Entry("Object", false, Object, RGB(64, 64, 64), All, Toggle | ObjectFlag, "Displays objects"),
    Entry("Banner", false, Banner, RGB(64, 64, 64), All, Toggle | ObjectFlag, "Displays banners"),
    Entry("Campfire", false, Campfire, RGB(64, 64, 64), All, Toggle | ObjectFlag, "Displays campfires"),
    Entry("PCCorpse", false, PCCorpse, RGB(0, 0, 128), Corpse, Toggle | ObjectFlag, "Displays PC corpses"),
    Entry("NPCCorpse", false, NPCCorpse, RGB(0, 0, 128), Corpse, Toggle | ObjectFlag, "Displays NPC corpses"),
    Entry("Mercenary", false, Mercenary, RGB(128, 0, 128), All, Toggle | ObjectFlag, "Displays mercenaries"),
    Entry("Named", false, Named, RGB(64, 64, 64), NPC, Toggle | Regenerate, "Displays named NPCs"),
    Entry("TargetPath", false, TargetPath, RGB(128, 0, 0), Target, Toggle, "Displays a path to your target"),
    Entry("Marker", false, Marker, DefaultColor, All, Toggle | NoColor | Regenerate, "Displays markers on spawns"),
    Entry("CampRadius", false, CampRadius, RGB(128, 128, 0), All, Toggle | UsesRadius, "Sets radius of camp circle"),
    Entry("PullRadius", false, PullRadius, RGB(128, 128, 0), All, Toggle | UsesRadius, "Sets radius of pull circle")
  ]

  /**
   * What makes the option rule well defined: one entry per filter in enum
   * order, each depending on `Invalid` or on an option earlier in the table.
   */
  predicate WellFormed(opts: seq<FilterOption>)
  {
    |opts| == Last
    && forall i :: 0 <= i < |opts| ==>
         opts[i].thisFilter == i && Invalid <= opts[i].requiresOption < i
  }

  /** The shipped table is well formed. */
  lemma {:induction false} TableWellFormed()
    ensures WellFormed(MapFilterOptions)
  {
    TableRows(0, 13);
    TableRows(13, 26);
    TableRows(26, Last);
  }

  /** Rows `lo..hi` of the shipped table are in enum order and depend on earlier rows. */
  lemma {:induction false} TableRows(lo: int, hi: int)
    requires 0 <= lo <= hi <= Last
    ensures forall i :: lo <= i < hi ==>
      MapFilterOptions[i].thisFilter == i && Invalid <= MapFilterOptions[i].requiresOption < i
  {
  }

  /** `GetMapFilterOption`: the table entry, or the invalid option outside [All, Last). */
  function GetOption(opts: seq<FilterOption>, f: int): (o: FilterOption)
    requires |opts| == Last
    ensures 0 <= f < Last ==> o == opts[f]
    ensures !(0 <= f < Last) ==> o == InvalidOption && !o.enabled && o.requiresOption == Invalid
  {
    if f < All || f >= Last then InvalidOption else opts[f]
  }

  /** `IsOptionEnabled`: `Invalid` counts as enabled; otherwise the option and its whole prerequisite chain must be. */
  function IsOptionEnabled(opts: seq<FilterOption>, f: int): (r: bool)
    requires WellFormed(opts)
    ensures f == Invalid ==> r
    ensures f != Invalid && !(0 <= f < Last) ==> !r
    ensures r && 0 <= f < Last ==> opts[f].enabled
    decreases f + 1
  {
    if f == Invalid then true
    else
      var o := GetOption(opts, f);
      o.enabled && IsOptionEnabled(opts, o.requiresOption)
  }

  /** `RequirementsMet`: the prerequisite chain alone, ignoring the option's own flag. */
  function RequirementsMet(opts: seq<FilterOption>, f: int): (r: bool)
    requires WellFormed(opts)
    ensures !(0 <= f < Last) ==> r
    ensures 0 <= f < Last && opts[f].enabled ==> (r <==> IsOptionEnabled(opts, f))
  {
    if f == Invalid then true
    else IsOptionEnabled(opts, GetOption(opts, f).requiresOption)
  }

  // ---------------------------------------------------------------------
  // Properties
  // ---------------------------------------------------------------------

  /** `g` is `f` or one of the options `f` depends on, directly or not. */
  predicate DependsOn(opts: seq<FilterOption>, f: int, g: int)
    requires WellFormed(opts)
    ensures DependsOn(opts, f, g) ==> 0 <= g <= f < Last
    decreases f + 1
  {
    0 <= f < Last && (g == f || DependsOn(opts, opts[f].requiresOption, g))
  }

  /**
   * The recursive rule agrees with its closed form: an option is enabled
   * exactly when every option in its prerequisite chain has its flag set.
   */
  lemma {:induction false} EnabledIffChainEnabled(opts: seq<FilterOption>, f: int)
    requires WellFormed(opts) && 0 <= f < Last
    ensures IsOptionEnabled(opts, f) <==> forall g :: DependsOn(opts, f, g) ==> opts[g].enabled
    decreases f
  {
    var req := opts[f].requiresOption;
    if req != Invalid {
      EnabledIffChainEnabled(opts, req);
    }
    if !IsOptionEnabled(opts, f) && opts[f].enabled {
      var g :| DependsOn(opts, req, g) && !opts[g].enabled;
      assert DependsOn(opts, f, g);
    }
  }

  /** Two tables agreeing on the flags and dependencies of options `0..f` agree on `f`. */
  lemma {:induction false} EnabledFrame(opts: seq<FilterOption>, opts2: seq<FilterOption>, f: int)
    requires WellFormed(opts) && WellFormed(opts2) && f < Last
    requires forall g :: 0 <= g <= f ==>
      opts[g].enabled == opts2[g].enabled && opts[g].requiresOption == opts2[g].requiresOption
    ensures IsOptionEnabled(opts, f) == IsOptionEnabled(opts2, f)
    decreases f + 1
  {
    if 0 <= f {
      EnabledFrame(opts, opts2, opts[f].requiresOption);
    }
  }

  /** Flipping an option's own flag never changes whether its requirements are met. */
  lemma {:induction false} RequirementsIgnoreOwnFlag(opts: seq<FilterOption>, f: int, on: bool)
    requires WellFormed(opts) && 0 <= f < Last
    ensures WellFormed(opts[f := opts[f].(enabled := on)])
    ensures RequirementsMet(opts[f := opts[f].(enabled := on)], f) == RequirementsMet(opts, f)
  {
    var opts2 := opts[f := opts[f].(enabled := on)];
    EnabledFrame(opts, opts2, opts[f].requiresOption);
  }

  /** Every option but `All` depends on some real option. */
  predicate RootedAtAll(opts: seq<FilterOption>)
    requires WellFormed(opts)
  {
    opts[All].requiresOption == Invalid
    && forall i :: 0 < i < Last ==> opts[i].requiresOption != Invalid
  }

  /** In the shipped table every chain ends at `All`, and every option is a toggle. */
  lemma {:induction false} TableShape()
    ensures WellFormed(MapFilterOptions) && RootedAtAll(MapFilterOptions)
    ensures forall i :: 0 <= i < Last ==> MapFilterOptions[i].IsToggle()
  {
    TableWellFormed();
  }

  /** With `All` switched off, no option is enabled. */
  lemma {:induction false} AllGatesEverything(opts: seq<FilterOption>, f: int)
    requires WellFormed(opts) && RootedAtAll(opts) && !opts[All].enabled
    requires 0 <= f < Last
    ensures !IsOptionEnabled(opts, f)
    decreases f
  {
    if f > 0 {
      AllGatesEverything(opts, opts[f].requiresOption);
    }
  }

  /** The options that draw no colour of their own are exactly these eight. */
  lemma {:induction false} ColorlessOptions(i: int)
    requires 0 <= i < Last
    ensures !MapFilterOptions[i].HasColor() <==>
      i in {All, PCConColor, NPCConColor, Vector, Custom, NormalLabels, ContextMenu, Marker}
  {
  }
}
