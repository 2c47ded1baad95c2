/**
 * Spawn-driven bookkeeping of map_api.cpp: hiding, showing and
 * highlighting the map objects of the spawns a search selects, and the
 * marker-name lookup `FindMarker`.
 *
 * `SpawnMatchesSearch` enters as the predicate `matches`; `SearchMatcher`
 * builds it from a search (`SpawnSearch.Matches`) and the float radius
 * test, which is a parameter.
 */
module MapApi {
  import opened Opt
  import opened CInt
  import opened Text
  import opened CompatTypes
  import opened Compat
  import opened SpawnSearch
  import opened MapFilters

  /** A map object of the active list and the spawn it draws, if any. */
  datatype MapObject = MapObject(id: nat, spawn: Option<SpawnView>, highlight: bool)

  /** `SpawnMatchesSearch(&search, pLocalPlayer, spawn)`, the radius test given as `near`. */
  function SearchMatcher(s: Search, near: SpawnView -> bool): (m: SpawnView -> bool)
    ensures forall sp :: m(sp) == Matches(s, Some(sp), near(sp))
  {
    sp => Matches(s, Some(sp), near(sp))
  }

  predicate Selected(matches: SpawnView -> bool, o: MapObject)
  {
    o.spawn.Some? && matches(o.spawn.value)
  }

  /** The objects a hide leaves: those whose spawn does not match, in order. */
  function Survivors(matches: SpawnView -> bool, objs: seq<MapObject>): (r: seq<MapObject>)
    ensures |r| <= |objs|
  {
    if objs == [] then []
    else
      var last := objs[|objs| - 1];
      Survivors(matches, objs[..|objs| - 1]) + (if Selected(matches, last) then [] else [last])
  }

  /** The number of objects whose spawn matches. */
  function CountSelected(matches: SpawnView -> bool, objs: seq<MapObject>): (n: nat)
    ensures n <= |objs|
  {
    if objs == [] then 0
    else CountSelected(matches, objs[..|objs| - 1]) + (if Selected(matches, objs[|objs| - 1]) then 1 else 0)
  }

  /** Exactly the unmatched objects survive a hide. */
  lemma {:induction false} SurvivorsContents(matches: SpawnView -> bool, objs: seq<MapObject>)
    ensures forall o :: o in Survivors(matches, objs) ==> o in objs && !Selected(matches, o)
    ensures forall o :: o in objs && !Selected(matches, o) ==> o in Survivors(matches, objs)
    ensures |Survivors(matches, objs)| + CountSelected(matches, objs) == |objs|
  {
    if objs != [] {
      var init := objs[..|objs| - 1];
      SurvivorsContents(matches, init);
      assert objs == init + [objs[|objs| - 1]];
    }
  }

  /** `MapHide`: removes every object whose spawn matches, returning how many went. */
  method MapHide(matches: SpawnView -> bool, objs: seq<MapObject>) returns (kept: seq<MapObject>, count: int)
    ensures kept == Survivors(matches, objs)
    ensures count == CountSelected(matches, objs)
  {
    kept := [];
    count := 0;
    var i := 0;
    while i < |objs|
      invariant 0 <= i <= |objs|
      invariant kept == Survivors(matches, objs[..i])
      invariant count == CountSelected(matches, objs[..i])
    {
      assert objs[..i + 1][..i] == objs[..i];
      if Selected(matches, objs[i]) {
        count := count + 1;
      } else {
        kept := kept + [objs[i]];
      }
      i := i + 1;
    }
    assert objs[..i] == objs;
  }

  /** `MapHighlight`: with no search every highlight is cleared; else matches are lit and counted. */
  method MapHighlight(search: bool, matches: SpawnView -> bool, objs: seq<MapObject>) returns (r: seq<MapObject>, count: int)
    ensures |r| == |objs|
    ensures forall i :: 0 <= i < |r| ==> r[i].(highlight := objs[i].highlight) == objs[i]
    ensures !search ==> count == 0 && forall i :: 0 <= i < |r| ==> !r[i].highlight
    ensures search ==> forall i :: 0 <= i < |r| ==>
      r[i].highlight == (objs[i].highlight || Selected(matches, objs[i]))
    ensures search ==> count == CountSelected(matches, objs)
  {
    r := [];
    count := 0;
    var i := 0;
    while i < |objs|
      invariant 0 <= i <= |objs| && |r| == i
      invariant forall k :: 0 <= k < i ==> r[k].(highlight := objs[k].highlight) == objs[k]
      invariant !search ==> count == 0 && forall k :: 0 <= k < i ==> !r[k].highlight
      invariant search ==> forall k :: 0 <= k < i ==>
        r[k].highlight == (objs[k].highlight || Selected(matches, objs[k]))
      invariant search ==> count == CountSelected(matches, objs[..i])
    {
      assert objs[..i + 1][..i] == objs[..i];
      var o := objs[i];
      if !search {
        o := o.(highlight := false);
      } else if Selected(matches, o) {
        o := o.(highlight := true);
        count := count + 1;
      }
      r := r + [o];
      i := i + 1;
    }
    assert objs[..i] == objs;
  }

  /**
   * `MapShow`: walks the spawn list and adds an object for each matching
   * spawn that has none yet. `shown` is the set of spawn ids that have an
   * object; the spawns added are returned in list order.
   */
  method MapShow(matches: SpawnView -> bool, spawns: seq<SpawnView>, shown: set<uint32>)
    returns (added: seq<SpawnView>, after: set<uint32>, count: int)
    ensures after == shown + (set sp | sp in added :: sp.id)
    ensures count == |added|
    ensures forall sp :: sp in added ==> sp in spawns && sp.id !in shown && matches(sp)
    ensures forall sp :: sp in spawns && matches(sp) ==> sp.id in after
  {
    added := [];
    after := shown;
    count := 0;
    var i := 0;
    while i < |spawns|
      invariant 0 <= i <= |spawns|
      invariant after == shown + (set sp | sp in added :: sp.id)
      invariant count == |added|
      invariant forall sp :: sp in added ==> sp in spawns[..i] && sp.id !in shown && matches(sp)
      invariant forall k :: 0 <= k < i && matches(spawns[k]) ==> spawns[k].id in after
    {
      var sp := spawns[i];
      if sp.id !in after && matches(sp) {
        added := added + [sp];
        after := after + {sp.id};
        count := count + 1;
      }
      i := i + 1;
    }
    assert spawns[..i] == spawns;
  }

  // ---------------------------------------------------------------------
  // FindMarker
  // ---------------------------------------------------------------------

  /** `szMarkType`: the name written back for each marker shape. */
  function MarkerName(m: MarkerType): string
  {
    match m
    case NoMarker => "None"
    case Triangle => "Triangle"
    case Square => "Square"
    case Diamond => "Diamond"
    case Ring => "Ring"
    case UnknownMarker => "Unknown"
  }

  predicate ShapeName(mark: string)
  {
    CiEquals(mark, "none") || CiEquals(mark, "triangle") || CiEquals(mark, "square")
    || CiEquals(mark, "diamond") || CiEquals(mark, "ring")
  }

  /** `FindMarker`: a case-insensitive match of the five shape names, else the fallback. */
  function FindMarker(mark: string, fallback: MarkerType): (r: MarkerType)
    ensures CiEquals(mark, "none") ==> r == NoMarker
    ensures r == UnknownMarker ==> fallback == UnknownMarker
    ensures r != fallback ==> CiEquals(mark, MarkerName(r))
    ensures !ShapeName(mark) ==> r == fallback
  {
    if CiEquals(mark, "none") then NoMarker
    else if CiEquals(mark, "triangle") then Triangle
    else if CiEquals(mark, "square") then Square
    else if CiEquals(mark, "diamond") then Diamond
    else if CiEquals(mark, "ring") then Ring
    else fallback
  }

  /** Two strings of one length that differ, case aside, at position `i`. */
  lemma {:induction false} DiffersAt(a: string, b: string, i: nat)
    requires i < |a| == |b| && ToLower(a[i]) != ToLower(b[i])
    ensures !CiEquals(a, b)
  {
  }

  /** The name written for a shape reads back as that shape, whatever the fallback. */
  lemma {:induction false} MarkerNameRoundTrip(m: MarkerType, fallback: MarkerType)
    requires m != UnknownMarker
    ensures FindMarker(MarkerName(m), fallback) == m
  {
    match m
    case NoMarker =>
      assert CiEquals("None", "none");
    case Triangle =>
      assert CiEquals("Triangle", "triangle");
    case Square =>
      assert CiEquals("Square", "square");
    case Diamond =>
      assert CiEquals("Diamond", "diamond");
    case Ring => RingFound(fallback);
  }

  lemma {:induction false} RingFound(fallback: MarkerType)
    ensures FindMarker("Ring", fallback) == Ring
  {
    DiffersAt("Ring", "none", 0);
    assert CiEquals("Ring", "ring");
  }

  /** Case does not matter to `FindMarker`. */
  lemma {:induction false} FindMarkerIgnoresCase(a: string, b: string, fallback: MarkerType)
    requires LowerStr(a) == LowerStr(b)
    ensures FindMarker(a, fallback) == FindMarker(b, fallback)
  {
    var names := ["none", "triangle", "square", "diamond", "ring"];
    forall k | 0 <= k < |names|
      ensures CiEquals(a, names[k]) <==> CiEquals(b, names[k])
    {
      CiEqualsLower(a, names[k]);
      CiEqualsLower(b, names[k]);
    }
    assert names[0] == "none" && names[1] == "triangle" && names[2] == "square";
    assert names[3] == "diamond" && names[4] == "ring";
  }
}
