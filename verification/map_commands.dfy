/**
 * The map's slash-command handlers of map_commands.cpp that edit state:
 * filter toggles, filter colours, the active layer, the click-command
 * slots, marker specifications and the highlight pulse reset.
 *
 * Chat output and the INI writes that follow each change are left out;
 * every handler here returns the new state, which equals the old one on
 * each error path.
 */
module MapCommands {
  import opened Opt
  import opened CInt
  import opened Text
  import opened Args
  import opened CompatTypes
  import opened Compat
  import opened SpawnSearch
  import opened MapFilters
  import opened MapApi
  import opened MapFormat

  // ---------------------------------------------------------------------
  // MapFilterSetting
  // ---------------------------------------------------------------------

  /** The option table together with the `Custom` filter's search. */
  datatype Filters = Filters(opts: seq<FilterOption>, custom: Search)

  /** Only the `enabled` flags and marker fields of options ever change. */
  predicate SameShape(a: seq<FilterOption>, b: seq<FilterOption>)
  {
    |a| == |b|
    && forall i :: 0 <= i < |a| ==>
         b[i].(enabled := a[i].enabled, marker := a[i].marker, markerSize := a[i].markerSize, color := a[i].color) == a[i]
  }

  lemma {:induction false} SameShapeWellFormed(a: seq<FilterOption>, b: seq<FilterOption>)
    requires WellFormed(a) && SameShape(a, b)
    ensures WellFormed(b)
  {
    forall i | 0 <= i < |b|
      ensures b[i].thisFilter == i && Invalid <= b[i].requiresOption < i
    {
      assert b[i].thisFilter == a[i].thisFilter;
    }
  }

  /** One option's `enabled` flag set to `on`. */
  function SetEnabled(opts: seq<FilterOption>, f: int, on: bool): (r: seq<FilterOption>)
    requires 0 <= f < |opts|
    ensures SameShape(opts, r) && r[f].enabled == on
    ensures forall i :: 0 <= i < |r| && i != f ==> r[i] == opts[i]
  {
    opts[f := opts[f].(enabled := on)]
  }

  /** The first option whose name equals `name` case-insensitively. */
  function FindOption(opts: seq<FilterOption>, name: string): (r: Option<nat>)
    ensures r.Some? ==> r.value < |opts| && CiEquals(name, opts[r.value].name)
    ensures r.Some? ==> forall j :: 0 <= j < r.value ==> !CiEquals(name, opts[j].name)
    ensures r.None? <==> forall j :: 0 <= j < |opts| ==> !CiEquals(name, opts[j].name)
  {
    if opts == [] then None
    else if CiEquals(name, opts[0].name) then Some(0)
    else
      var r := FindOption(opts[1..], name);
      if r.None? then None else Some(r.value + 1)
  }

  /** What `FormatMarker` reports. */
  datatype MarkerOutcome =
    | NoSpawnType
    | NoShape
    | UnknownShape(shape: string)
    | InvalidSize(sizeText: string)
    | UnknownSpawnType(spawnType: string)
    | MarkerSet(index: nat, marker: MarkerType, size: int32)

  /**
   * `FormatMarker "<type> <shape> [<size>]"` on its three arguments: sets
   * the marker of the first option named `<type>`; the size defaults to 6,
   * and a size that parses as 0 is refused.
   */
  function SetMarker(opts: seq<FilterOption>, markType: string, markShape: string, markSize: string): (r: (seq<FilterOption>, MarkerOutcome))
    ensures !r.1.MarkerSet? ==> r.0 == opts
    ensures SameShape(opts, r.0)
    ensures r.1.MarkerSet? ==>
      var i := r.1.index;
      i < |opts| && CiEquals(markType, opts[i].name)
      && r.1.marker != UnknownMarker && r.1.size != 0
      && r.0 == opts[i := opts[i].(marker := r.1.marker, markerSize := r.1.size)]
    ensures markType == [] ==> r.1 == NoSpawnType
    ensures markType != [] && markShape == [] ==> r.1 == NoShape
    ensures r.1.MarkerSet? && markSize == [] ==> r.1.size == 6
  {
    if markType == [] then (opts, NoSpawnType)
    else if markShape == [] then (opts, NoShape)
    else
      match FindOption(opts, markType)
      case None => (opts, UnknownSpawnType(markType))
      case Some(i) =>
        var marker := FindMarker(markShape, UnknownMarker);
        if marker == UnknownMarker then (opts, UnknownShape(markShape))
        else
          var size := if markSize != [] then GetInt(markSize, 0) else 6;
          if size == 0 then (opts, InvalidSize(markSize))
          else (opts[i := opts[i].(marker := marker, markerSize := size)], MarkerSet(i, marker, size))
  }

  /** `FormatMarker` on a command line: its arguments are the line's words 1 to 3. */
  function FormatMarker(opts: seq<FilterOption>, line: string): (r: (seq<FilterOption>, MarkerOutcome))
    ensures SameShape(opts, r.0)
  {
    SetMarker(opts, Arg(line, 1), Arg(line, 2), Arg(line, 3))
  }

  /**
   * `MapFilterSetting` with a value (`value.None?` only displays). Nothing
   * changes when not in game or when the filter's prerequisites are off.
   */
  function MapFilterSetting(s: Filters, inGame: bool, f: int, value: Option<string>): (r: Filters)
    requires WellFormed(s.opts) && 0 <= f < Last
    ensures !inGame || !RequirementsMet(s.opts, f) || value.None? ==> r == s
    ensures SameShape(s.opts, r.opts)
    ensures s.opts[f].IsToggle() ==> r.custom == s.custom
    ensures s.opts[f].IsToggle() ==> r.opts == SetEnabled(s.opts, f, r.opts[f].enabled)
  {
    if !inGame || !RequirementsMet(s.opts, f) || value.None? then s
    else
      var v := value.value;
      var o := s.opts[f];
      if o.IsToggle() then
        var on := if CiEquals(v, "hide") then false else if CiEquals(v, "show") then true else !o.enabled;
        s.(opts := SetEnabled(s.opts, f, on))
      else if f == Custom then
        if v == [] then Filters(SetEnabled(s.opts, f, false), DefaultSearch)
        else Filters(SetEnabled(s.opts, f, true), ParseSearchSpawn(Some(v), DefaultSearch))
      else if f == Marker then
        if CiEquals(v, "hide") then s.(opts := SetEnabled(s.opts, f, false))
        else if CiEquals(v, "show") then s.(opts := SetEnabled(s.opts, f, true))
        else
          var opts1 := SetEnabled(s.opts, f, true);
          var opts2 := FormatMarker(opts1, v).0;
          SameShapeTrans(s.opts, opts1, opts2);
          s.(opts := opts2)
      else s
  }

  lemma {:induction false} SameShapeTrans(a: seq<FilterOption>, b: seq<FilterOption>, c: seq<FilterOption>)
    requires SameShape(a, b) && SameShape(b, c)
    ensures SameShape(a, c)
  {
    forall i | 0 <= i < |a|
      ensures c[i].(enabled := a[i].enabled, marker := a[i].marker, markerSize := a[i].markerSize, color := a[i].color) == a[i]
    {
      assert b[i].(enabled := a[i].enabled, marker := a[i].marker, markerSize := a[i].markerSize, color := a[i].color) == a[i];
      assert c[i].(enabled := b[i].enabled, marker := b[i].marker, markerSize := b[i].markerSize, color := b[i].color) == b[i];
    }
  }

  /** "hide" and "show" set a toggle whatever its case; any other value flips it. */
  lemma {:induction false} ToggleValues(s: Filters, f: int, v: string)
    requires WellFormed(s.opts) && 0 <= f < Last && s.opts[f].IsToggle() && RequirementsMet(s.opts, f)
    ensures var r := MapFilterSetting(s, true, f, Some(v));
      && (LowerStr(v) == "hide" ==> !r.opts[f].enabled)
      && (LowerStr(v) == "show" ==> r.opts[f].enabled && IsOptionEnabled(r.opts, f))
      && (LowerStr(v) != "hide" && LowerStr(v) != "show" ==> r.opts[f].enabled == !s.opts[f].enabled)
  {
    CiEqualsLower(v, "hide");
    CiEqualsLower(v, "show");
    assert LowerStr("hide") == "hide" && LowerStr("show") == "show";
    var r := MapFilterSetting(s, true, f, Some(v));
    RequirementsIgnoreOwnFlag(s.opts, f, r.opts[f].enabled);
  }

  /** Flipping a toggle twice gives the table back. */
  lemma {:induction false} FlipTwice(s: Filters, f: int, v: string)
    requires WellFormed(s.opts) && 0 <= f < Last && s.opts[f].IsToggle() && RequirementsMet(s.opts, f)
    requires !CiEquals(v, "hide") && !CiEquals(v, "show")
    ensures MapFilterSetting(MapFilterSetting(s, true, f, Some(v)), true, f, Some(v)) == s
  {
    var r := MapFilterSetting(s, true, f, Some(v));
    RequirementsIgnoreOwnFlag(s.opts, f, !s.opts[f].enabled);
    assert r.opts[f].IsToggle();
    assert r.opts[f := r.opts[f].(enabled := !r.opts[f].enabled)] == s.opts;
  }

  /** With `All` switched off no other filter can be changed by a setting. */
  lemma {:induction false} AllOffBlocksSettings(s: Filters, f: int, value: Option<string>)
    requires WellFormed(s.opts) && RootedAtAll(s.opts) && !s.opts[All].enabled && 0 < f < Last
    ensures MapFilterSetting(s, true, f, value) == s
  {
    AllGatesEverything(s.opts, s.opts[f].requiresOption);
  }

  // ---------------------------------------------------------------------
  // MapFilterColorSetting
  // ---------------------------------------------------------------------

  /** A colour channel: `GetIntFromString(arg, 255)` clamped to [0, 255]. */
  function Channel(arg: string): (c: bv8)
    ensures At(arg, 0) == '\0' ==> c == 255
  {
    Clamp(GetInt(arg, 255) as int, 0, 255) as bv8
  }

  /**
   * `MapFilterColorSetting`: the second word of `value` starts the colour;
   * without it the colour resets to the option's default. Options without
   * a colour are untouched.
   */
  function MapFilterColorSetting(opts: seq<FilterOption>, f: int, value: string): (r: seq<FilterOption>)
    requires 0 <= f < |opts|
    ensures !opts[f].HasColor() ==> r == opts
    ensures |r| == |opts| && forall i :: 0 <= i < |r| && i != f ==> r[i] == opts[i]
    ensures r[f].(color := opts[f].color) == opts[f]
    ensures opts[f].HasColor() && Arg(value, 2) == [] ==> r[f].color == opts[f].defaultColor
    ensures opts[f].HasColor() && Arg(value, 2) != [] ==> r[f].color.Alpha() == 0xFF
  {
    var o := opts[f];
    if !o.HasColor() then opts
    else if Arg(value, 2) == [] then opts[f := o.(color := o.defaultColor)]
    else
      var c := RGB(Channel(Arg(value, 2)), Channel(Arg(value, 3)), Channel(Arg(value, 4)));
      opts[f := o.(color := c)]
  }

  lemma {:induction false} ChannelOfShow(v: int)
    requires 0 <= v <= 255
    ensures Channel(Show(v)) == v as bv8
  {
    ShowInt(v, 255);
  }

  /** "<word> r g b" with each component in [0, 255] sets exactly that colour. */
  lemma {:induction false} ColorRoundTrip(opts: seq<FilterOption>, f: int, w: string, red: int, green: int, blue: int)
    requires 0 <= f < |opts| && opts[f].HasColor() && IsWord(w)
    requires 0 <= red <= 255 && 0 <= green <= 255 && 0 <= blue <= 255
    ensures MapFilterColorSetting(opts, f, JoinWords([w, Show(red), Show(green), Show(blue)]))[f].color
      == RGB(red as bv8, green as bv8, blue as bv8)
  {
    var ws := [w, Show(red), Show(green), Show(blue)];
    ShowIsWord(red);
    ShowIsWord(green);
    ShowIsWord(blue);
    ArgOfJoin(ws, 2);
    ArgOfJoin(ws, 3);
    ArgOfJoin(ws, 4);
    ChannelOfShow(red);
    ChannelOfShow(green);
    ChannelOfShow(blue);
  }

  /** Out-of-range components are clamped: a negative one gives 0, a large one 255. */
  lemma {:induction false} ChannelClamps(v: int)
    requires INT32_MIN <= v <= INT32_MAX
    ensures v < 0 ==> Channel(Show(v)) == 0
    ensures v > 255 ==> Channel(Show(v)) == 255
  {
    ShowInt(v, 255);
  }

  // ---------------------------------------------------------------------
  // MapActiveLayerCmd
  // ---------------------------------------------------------------------

  /** `MapActiveLayerCmd`: only a line that parses to 0..3 changes the layer. */
  function MapActiveLayer(layer: int, line: Option<string>): (r: int)
    ensures r != layer ==> 0 <= r <= 3
    ensures line.None? ==> r == layer
    ensures line.Some? && 0 <= GetInt(line.value, -1) <= 3 ==> r == GetInt(line.value, -1)
  {
    var n := GetIntFromString(line, -1);
    if line.None? || At(line.value, 0) == '\0' || n < 0 || n > 3 then layer else n
  }

  /** Typing a layer number selects it; any other number leaves the layer alone. */
  lemma {:induction false} ActiveLayerOfShow(layer: int, v: int32)
    ensures MapActiveLayer(layer, Some(Show(v))) == if 0 <= v <= 3 then v else layer
  {
    ShowInt(v, -1);
  }

  // ---------------------------------------------------------------------
  // MapClickCommand
  // ---------------------------------------------------------------------

  /** The 16 left-click and 16 right-click command slots. */
  datatype ClickSlots = ClickSlots(left: seq<string>, special: seq<string>)

  predicate SlotsOk(c: ClickSlots)
  {
    |c.left| == MaxClickStrings && |c.special| == MaxClickStrings
  }

  /** The shared lambda: "list", a combo 1..15 with nothing after it, "clear", or a command to store. */
  function SetSlot(slots: seq<string>, arg: string, rest: string): (r: seq<string>)
    requires |slots| == MaxClickStrings
    ensures |r| == |slots|
    ensures forall i :: 0 <= i < |r| && r[i] != slots[i] ==> i == GetInt(arg, 0) && 1 <= i <= 15
    ensures CiEquals(arg, "list") || At(rest, 0) == '\0' ==> r == slots
  {
    if CiEquals(arg, "list") then slots
    else
      var combo := GetInt(arg, 0);
      if combo <= 0 || combo >= 16 then slots
      else if At(rest, 0) == '\0' then slots
      else if CiEquals(rest, "clear") then slots[combo := []]
      else slots[combo := rest]
  }

  /** `MapClickCommand`: "left <combo> ..." edits a left-click slot, "<combo> ..." a right-click slot. */
  function MapClickCommand(c: ClickSlots, line: string): (r: ClickSlots)
    requires SlotsOk(c)
    ensures SlotsOk(r)
    ensures At(line, 0) == '\0' ==> r == c
    ensures CiEquals(Arg(line, 1), "left") ==> r.special == c.special
    ensures !CiEquals(Arg(line, 1), "left") ==> r.left == c.left
  {
    if At(line, 0) == '\0' then c
    else
      var arg := Arg(line, 1);
      var rest := NextArg(line, 1);
      if CiEquals(arg, "left") then c.(left := SetSlot(c.left, Arg(rest, 1), NextArg(rest, 1)))
      else c.(special := SetSlot(c.special, arg, rest))
  }

  /** "left <n> <rest>" reaches the left-slot editor with `Show(n)` and `rest`. */
  lemma {:induction false} LeftLine(c: ClickSlots, n: int, rest: string)
    requires SlotsOk(c) && !IsSep(Blanks, At(rest, 0))
    ensures MapClickCommand(c, "left " + Show(n) + " " + rest) == c.(left := SetSlot(c.left, Show(n), rest))
  {
    var tail := Show(n) + " " + rest;
    var line := "left" + " " + tail;
    assert "left " + Show(n) + " " + rest == line;
    assert IsWord("left");
    TakeWord("left", tail);
    assert Arg(line, 1) == "left" && NextArg(line, 1) == tail;
    ShowIsWord(n);
    TakeWord(Show(n), rest);
    assert Arg(tail, 1) == Show(n) && NextArg(tail, 1) == rest;
    assert CiEquals("left", "left");
    assert At(line, 0) == 'l';
  }

  /** "left <n> <command>" stores the command in left slot n, for n in 1..15. */
  lemma {:induction false} ClickStore(c: ClickSlots, n: int, cmd: string)
    requires SlotsOk(c) && 1 <= n <= 15
    requires !IsSep(Blanks, At(cmd, 0)) && At(cmd, 0) != '\0' && !CiEquals(cmd, "clear")
    ensures MapClickCommand(c, "left " + Show(n) + " " + cmd) == c.(left := c.left[n := cmd])
  {
    LeftLine(c, n, cmd);
    ShowInt(n, 0);
    assert !CiEquals(Show(n), "list");
  }

  /** "left <n> clear" empties left slot n. */
  lemma {:induction false} ClickClear(c: ClickSlots, n: int)
    requires SlotsOk(c) && 1 <= n <= 15
    ensures MapClickCommand(c, "left " + Show(n) + " clear") == c.(left := c.left[n := []])
  {
    assert "left " + Show(n) + " clear" == "left " + Show(n) + " " + "clear";
    LeftLine(c, n, "clear");
    ShowInt(n, 0);
    assert !CiEquals(Show(n), "list");
    assert CiEquals("clear", "clear");
  }

  // ---------------------------------------------------------------------
  // FormatMarker round trip and PulseReset
  // ---------------------------------------------------------------------

  /** "<name> <shape> <size>" sets that shape and size on the option the name finds. */
  lemma {:induction false} MarkerRoundTrip(opts: seq<FilterOption>, name: string, m: MarkerType, size: int32)
    requires IsWord(name) && FindOption(opts, name).Some?
    requires m != UnknownMarker && size != 0
    ensures var i := FindOption(opts, name).value;
      FormatMarker(opts, JoinWords([name, MarkerName(m), Show(size)]))
        == (opts[i := opts[i].(marker := m, markerSize := size)], MarkerSet(i, m, size))
  {
    var ws := [name, MarkerName(m), Show(size)];
    MarkerNameIsWord(m);
    ShowIsWord(size);
    ArgOfJoin(ws, 1);
    ArgOfJoin(ws, 2);
    ArgOfJoin(ws, 3);
    SetMarkerNamed(opts, name, m, size);
  }

  /** The argument-level half of the round trip. */
  lemma {:induction false} SetMarkerNamed(opts: seq<FilterOption>, name: string, m: MarkerType, size: int32)
    requires name != [] && FindOption(opts, name).Some?
    requires m != UnknownMarker && size != 0
    ensures var i := FindOption(opts, name).value;
      SetMarker(opts, name, MarkerName(m), Show(size))
        == (opts[i := opts[i].(marker := m, markerSize := size)], MarkerSet(i, m, size))
  {
    MarkerNameRoundTrip(m, UnknownMarker);
    ShowInt(size, 0);
  }

  lemma {:induction false} MarkerNameIsWord(m: MarkerType)
    ensures IsWord(MarkerName(m))
  {
    match m
    case NoMarker => assert IsWord("None");
    case Triangle => assert IsWord("Triangle");
    case Square => assert IsWord("Square");
    case Diamond => assert IsWord("Diamond");
    case Ring => assert IsWord("Ring");
    case UnknownMarker => assert IsWord("Unknown");
  }

  /** The highlight pulse animation state. */
  datatype Pulse = Pulse(increasing: bool, index: int, diff: int)

  /** `PulseReset`: restart growing from index 0 in steps of a tenth of the side length. */
  function PulseReset(sideLen: int): (r: Pulse)
    ensures r.increasing && r.index == 0
    ensures sideLen >= 0 ==> 0 <= 10 * r.diff <= sideLen < 10 * r.diff + 10
    ensures sideLen < 0 ==> sideLen <= 10 * r.diff <= 0 && 10 * r.diff < sideLen + 10
  {
    Pulse(true, 0, TruncDiv(sideLen, 10))
  }
}
