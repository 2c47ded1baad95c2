/**
 * The MapLoc list of map_object.cpp (`gMapLocTemplates`): dense 1-based
 * indices kept by re-numbering after every deletion, lookups by index
 * and by tag, and the label text shown for each location; plus the tag
 * that `/maploc remove <y> <x> [<z>]` builds from its coordinates
 * (map_api.cpp).
 */
module MapLocs {
  import opened Opt
  import opened Text
  import opened CompatTypes

  /**
   * One location template. `id` is its identity (the pointer the code
   * compares); `text` is the text of its map object, which exists only
   * when `hasObject`.
   */
  datatype MapLoc = MapLoc(
    id: nat, tag: string, caption: string, index: int, selected: bool,
    hasObject: bool, text: string)

  /** `snprintf` into `char buf[512]` keeps at most 511 characters. */
  const LabelBuf := 512

  /** The text `UpdateLabel` gives a location: "<index>: <caption>", or "<index>" alone. */
  function LabelText(index: int, caption: string): (r: string)
    ensures caption == [] ==> r == Show(index)
    ensures caption != [] ==> |r| <= LabelBuf - 1
    ensures caption != [] && |Show(index)| + 2 + |caption| < LabelBuf ==> r == Show(index) + ": " + caption
  {
    if caption == [] then Show(index)
    else
      var full := Show(index) + ": " + caption;
      if |full| < LabelBuf then full else full[..LabelBuf - 1]
  }

  /** `UpdateLabel`: a location without a map object is left alone. */
  function UpdateLabel(m: MapLoc): (r: MapLoc)
    ensures r.hasObject ==> r.text == LabelText(m.index, m.caption)
    ensures !m.hasObject ==> r == m
    ensures r.(text := m.text) == m
  {
    if m.hasObject then m.(text := LabelText(m.index, m.caption)) else m
  }

  /** The caption shown matches the location's index and caption. */
  predicate LabelCurrent(m: MapLoc)
  {
    m.hasObject ==> m.text == LabelText(m.index, m.caption)
  }

  /** `SetIndex`: relabels only when the index actually changes. */
  function SetIndex(m: MapLoc, index: int): (r: MapLoc)
    ensures r.index == index
    ensures r.(index := m.index, text := m.text) == m
    ensures LabelCurrent(m) ==> LabelCurrent(r)
    ensures m.index == index ==> r == m
  {
    var (changed, v) := TestAndSet(m.index, index);
    if changed then UpdateLabel(m.(index := v)) else m
  }

  /** `SetLabel`: relabels only when the caption actually changes. */
  function SetLabel(m: MapLoc, caption: string): (r: MapLoc)
    ensures r.caption == caption
    ensures r.(caption := m.caption, text := m.text) == m
    ensures LabelCurrent(m) ==> LabelCurrent(r)
    ensures m.caption == caption ==> r == m
  {
    var (changed, v) := TestAndSet(m.caption, caption);
    if changed then UpdateLabel(m.(caption := v)) else m
  }

  /** Indices are exactly 1..n in list order. */
  predicate Dense(locs: seq<MapLoc>)
  {
    forall i :: 0 <= i < |locs| ==> locs[i].index == i + 1
  }

  predicate AllCurrent(locs: seq<MapLoc>)
  {
    forall i :: 0 <= i < |locs| ==> LabelCurrent(locs[i])
  }

  /** The identities in list order. */
  function Ids(locs: seq<MapLoc>): (r: seq<nat>)
    ensures |r| == |locs|
    ensures forall i :: 0 <= i < |locs| ==> r[i] == locs[i].id
  {
    if locs == [] then [] else [locs[0].id] + Ids(locs[1..])
  }

  /** `UpdateMapLocIndexes`: the i-th location gets index i+1. */
  function Renumber(locs: seq<MapLoc>): (r: seq<MapLoc>)
    ensures |r| == |locs| && Dense(r)
    ensures forall i :: 0 <= i < |r| ==> r[i].(index := locs[i].index, text := locs[i].text) == locs[i]
    ensures AllCurrent(locs) ==> AllCurrent(r)
  {
    seq(|locs|, i requires 0 <= i < |locs| => SetIndex(locs[i], i + 1))
  }

  /** Re-numbering a list that is already dense changes nothing. */
  lemma {:induction false} RenumberDense(locs: seq<MapLoc>)
    requires Dense(locs)
    ensures Renumber(locs) == locs
  {
  }

  /** `AddMapLoc`: the new location gets index n+1 and goes last. */
  function AddMapLoc(locs: seq<MapLoc>, m: MapLoc): (r: seq<MapLoc>)
    ensures |r| == |locs| + 1 && r[..|locs|] == locs
    ensures r[|locs|].index == |locs| + 1 && r[|locs|].id == m.id
    ensures Dense(locs) ==> Dense(r)
    ensures AllCurrent(locs) && LabelCurrent(m) ==> AllCurrent(r)
  {
    locs + [SetIndex(m, |locs| + 1)]
  }

  /** The `std::remove_if`/`erase` idiom: keep, in order, the locations `keep` accepts. */
  function Filter(locs: seq<MapLoc>, keep: MapLoc -> bool): (r: seq<MapLoc>)
    ensures |r| <= |locs|
    ensures forall x :: x in r ==> x in locs && keep(x)
    ensures forall x :: x in locs && keep(x) ==> x in r
  {
    if locs == [] then []
    else (if keep(locs[0]) then [locs[0]] else []) + Filter(locs[1..], keep)
  }

  function OtherThan(id: nat): MapLoc -> bool
  {
    (m: MapLoc) => m.id != id
  }

  predicate Unselected(m: MapLoc)
  {
    !m.selected
  }

  /** `DeleteMapLoc`: drops the location with identity `id`, then re-numbers. */
  function DeleteMapLoc(locs: seq<MapLoc>, id: nat): (r: seq<MapLoc>)
    ensures Dense(r)
  {
    Renumber(Filter(locs, OtherThan(id)))
  }

  /** `DeleteSelectedMapLocs`: drops every selected location, then re-numbers. */
  function DeleteSelected(locs: seq<MapLoc>): (r: seq<MapLoc>)
    ensures Dense(r)
  {
    Renumber(Filter(locs, Unselected))
  }

  lemma {:induction false} FilterCurrent(locs: seq<MapLoc>, keep: MapLoc -> bool)
    requires AllCurrent(locs)
    ensures AllCurrent(Filter(locs, keep))
  {
    var r := Filter(locs, keep);
    forall i | 0 <= i < |r|
      ensures LabelCurrent(r[i])
    {
      assert r[i] in locs;
    }
  }

  /** Deleting keeps every shown label in step with its (new) index. */
  lemma {:induction false} DeleteKeepsLabels(locs: seq<MapLoc>, id: nat)
    requires AllCurrent(locs)
    ensures AllCurrent(DeleteMapLoc(locs, id)) && AllCurrent(DeleteSelected(locs))
  {
    FilterCurrent(locs, OtherThan(id));
    FilterCurrent(locs, Unselected);
  }

  /** After `DeleteSelectedMapLocs` no selected location is left, and every unselected one is. */
  lemma {:induction false} DeleteSelectedContents(locs: seq<MapLoc>)
    ensures forall i :: 0 <= i < |DeleteSelected(locs)| ==> !DeleteSelected(locs)[i].selected
    ensures forall x :: x in locs && !x.selected ==> x.id in Ids(DeleteSelected(locs))
  {
    var f := Filter(locs, Unselected);
    var r := Renumber(f);
    forall i | 0 <= i < |r|
      ensures !r[i].selected
    {
      assert f[i] in f;
    }
    forall x | x in locs && !x.selected
      ensures x.id in Ids(r)
    {
      assert Unselected(x);
      var i :| 0 <= i < |f| && f[i] == x;
      assert Ids(r)[i] == x.id;
    }
  }

  /** Filtering with a test that accepts everything keeps the list. */
  lemma {:induction false} FilterAll(locs: seq<MapLoc>, keep: MapLoc -> bool)
    requires forall x :: x in locs ==> keep(x)
    ensures Filter(locs, keep) == locs
  {
    if locs != [] {
      FilterAll(locs[1..], keep);
    }
  }

  /** Identities after a deletion: exactly the others, in their old order. */
  lemma {:induction false} DeleteIds(locs: seq<MapLoc>, id: nat)
    ensures Ids(DeleteMapLoc(locs, id)) == RemoveId(Ids(locs), id)
  {
    var f := Filter(locs, OtherThan(id));
    assert Ids(Renumber(f)) == Ids(f);
    FilterIds(locs, id);
  }

  /** The list of identities with every `id` taken out. */
  function RemoveId(ids: seq<nat>, id: nat): (r: seq<nat>)
    ensures id !in r
    ensures forall x :: x in ids && x != id ==> x in r
    ensures forall x :: x in r ==> x in ids
  {
    if ids == [] then []
    else (if ids[0] != id then [ids[0]] else []) + RemoveId(ids[1..], id)
  }

  lemma {:induction false} FilterIds(locs: seq<MapLoc>, id: nat)
    ensures Ids(Filter(locs, OtherThan(id))) == RemoveId(Ids(locs), id)
  {
    if locs != [] {
      FilterIds(locs[1..], id);
      assert Ids(locs)[1..] == Ids(locs[1..]);
      var head := if locs[0].id != id then [locs[0]] else [];
      IdsAppend(head, Filter(locs[1..], OtherThan(id)));
    }
  }

  lemma {:induction false} IdsAppend(a: seq<MapLoc>, b: seq<MapLoc>)
    ensures Ids(a + b) == Ids(a) + Ids(b)
  {
  }

  /** `GetMapLocByIndex`: element i-1 for 1 <= i <= n, null otherwise. */
  function GetMapLocByIndex(locs: seq<MapLoc>, index: int): (r: Option<MapLoc>)
    ensures r.Some? <==> 0 < index <= |locs|
    ensures r.Some? ==> r.value == locs[index - 1]
  {
    if 0 < index <= |locs| then Some(locs[index - 1]) else None
  }

  /** In a dense list, the location found by index carries that index, and every index is found. */
  lemma {:induction false} IndexLookup(locs: seq<MapLoc>, index: int)
    requires Dense(locs)
    ensures GetMapLocByIndex(locs, index).Some? ==> GetMapLocByIndex(locs, index).value.index == index
    ensures (exists i :: 0 <= i < |locs| && locs[i].index == index) ==> GetMapLocByIndex(locs, index).Some?
  {
  }

  /** `GetMapLocTemplateByTag`: the first location with that tag. */
  function GetByTag(locs: seq<MapLoc>, tag: string): (r: Option<nat>)
    ensures r.Some? ==> r.value < |locs| && locs[r.value].tag == tag
    ensures r.Some? ==> forall j :: 0 <= j < r.value ==> locs[j].tag != tag
    ensures r.None? <==> forall j :: 0 <= j < |locs| ==> locs[j].tag != tag
  {
    if locs == [] then None
    else if locs[0].tag == tag then Some(0)
    else
      var r := GetByTag(locs[1..], tag);
      if r.None? then None else Some(r.value + 1)
  }

  // ---------------------------------------------------------------------
  // Tag of a location given by coordinates
  // ---------------------------------------------------------------------

  function RemoveChar(s: string, c: char): (r: string)
    ensures c !in r
    ensures |r| <= |s|
    ensures c !in s ==> r == s
  {
    if s == [] then []
    else (if s[0] == c then [] else [s[0]]) + RemoveChar(s[1..], c)
  }

  /** `substr(0, find('.'))`: everything before the first '.', or all of it. */
  function BeforeDot(s: string): (r: string)
    ensures '.' !in r && |r| <= |s|
    ensures r == s[..|r|]
    ensures |r| < |s| ==> s[|r|] == '.'
  {
    if s == [] || s[0] == '.' then []
    else [s[0]] + BeforeDot(s[1..])
  }

  /** A coordinate truncated to its integer part: '+' signs dropped, cut at the first '.'. */
  function TagPart(s: string): (r: string)
    ensures '.' !in r && '+' !in r
  {
    var t := RemoveChar(s, '+');
    var r := BeforeDot(t);
    assert forall k :: 0 <= k < |r| ==> r[k] == t[..|r|][k];
    r
  }

  /** The tag "y,x,z" looked up by `/maploc remove`. */
  function CoordTag(y: string, x: string, z: string): string
  {
    TagPart(y) + "," + TagPart(x) + "," + TagPart(z)
  }

  /** Truncating is idempotent. */
  lemma {:induction false} TagPartIdempotent(s: string)
    ensures TagPart(TagPart(s)) == TagPart(s)
  {
    var r := TagPart(s);
    assert RemoveChar(r, '+') == r;
    BeforeDotNoDot(r);
  }

  lemma {:induction false} BeforeDotNoDot(s: string)
    requires '.' !in s
    ensures BeforeDot(s) == s
  {
    if s != [] {
      BeforeDotNoDot(s[1..]);
    }
  }

  lemma {:induction false} RemoveCharAppend(a: string, b: string, c: char)
    ensures RemoveChar(a + b, c) == RemoveChar(a, c) + RemoveChar(b, c)
  {
    if a == [] {
      assert a + b == b;
    } else {
      assert (a + b)[1..] == a[1..] + b;
      RemoveCharAppend(a[1..], b, c);
    }
  }

  lemma {:induction false} BeforeDotAppend(a: string, b: string)
    requires '.' !in a
    ensures BeforeDot(a + "." + b) == a
  {
    if a == [] {
      assert (a + "." + b)[0] == '.';
    } else {
      assert (a + "." + b)[1..] == a[1..] + "." + b;
      BeforeDotAppend(a[1..], b);
    }
  }

  lemma {:induction false} ShowPlain(n: int)
    ensures '.' !in Show(n) && '+' !in Show(n) && ',' !in Show(n)
  {
    var s := Show(n);
    if n < 0 {
      assert forall k :: 1 <= k < |s| ==> s[k] == s[1..][k - 1];
    }
    assert forall k :: 0 <= k < |s| ==> s[k] == '-' || IsDigit(s[k]);
  }

  /** A coordinate typed as "<n>.<fraction>", with or without a '+', contributes just "<n>". */
  lemma {:induction false} TagOfDecimal(sign: string, n: int, frac: string)
    requires sign == "" || sign == "+"
    ensures TagPart(sign + Show(n) + "." + frac) == Show(n)
  {
    ShowPlain(n);
    PlusFreeDecimal(sign, Show(n), frac);
    BeforeDotAppend(Show(n), RemoveChar(frac, '+'));
  }

  /** Dropping the '+' signs of "[+]<s>.<frac>", when `s` has none, leaves `s` and the dot alone. */
  lemma {:induction false} PlusFreeDecimal(sign: string, s: string, frac: string)
    requires sign == "" || sign == "+"
    requires '+' !in s
    ensures RemoveChar(sign + s + "." + frac, '+') == s + "." + RemoveChar(frac, '+')
  {
    var tail := "." + frac;
    var whole := sign + s + "." + frac;
    calc {
      RemoveChar(whole, '+');
    == { SeqAssoc(sign + s, ".", frac); SeqAssoc(sign, s, tail); SignDropped(sign, s + tail); }
      RemoveChar(s + tail, '+');
    == { RemoveCharAppend(s, tail, '+'); }
      RemoveChar(s, '+') + RemoveChar(tail, '+');
    == { KeptHead('.', frac, '+'); }
      s + ("." + RemoveChar(frac, '+'));
    == { SeqAssoc(s, ".", RemoveChar(frac, '+')); }
      s + "." + RemoveChar(frac, '+');
    }
  }

  /** A first character other than `c` is kept. */
  lemma {:induction false} KeptHead(h: char, t: string, c: char)
    requires h != c
    ensures RemoveChar([h] + t, c) == [h] + RemoveChar(t, c)
  {
    assert ([h] + t)[1..] == t;
  }

  /** A leading '+' is dropped and nothing else is. */
  lemma {:induction false} SignDropped(sign: string, t: string)
    requires sign == "" || sign == "+"
    ensures RemoveChar(sign + t, '+') == RemoveChar(t, '+')
  {
    if sign == "+" {
      assert (sign + t)[0] == '+' && (sign + t)[1..] == t;
    } else {
      assert sign + t == t;
    }
  }

  /** The tag of three integer coordinates is their decimal text, comma-separated. */
  lemma {:induction false} IntegerTag(y: int, x: int, z: int)
    ensures CoordTag(Show(y), Show(x), Show(z)) == Show(y) + "," + Show(x) + "," + Show(z)
  {
    ShowPlain(y);
    ShowPlain(x);
    ShowPlain(z);
    BeforeDotNoDot(Show(y));
    BeforeDotNoDot(Show(x));
    BeforeDotNoDot(Show(z));
  }
}
