/**
 * The placeholder database of the target window. Each line of the
 * placeholder file lists placeholder mobs, and every one of them maps to
 * the line's record; the target's displayed name looks a record up, and
 * the PH button opens its link.
 */
module PhMap {
  import opened Opt
  import opened TargetInfo

  // ---------------------------------------------------------------------
  // Splitting a placeholder list
  // ---------------------------------------------------------------------

  /** `s.find(w) != npos`. */
  predicate Contains(s: string, w: string)
    decreases |s|
  {
    w <= s || (s != [] && Contains(s[1..], w))
  }

  /** Names that themselves hold a comma: a list mentioning one is kept whole. */
  const Exempt: seq<string> := ["Yikkarvi,", "Furg,", "Tykronar,", "Ejarld,", "Grald,", "Graluk,"]

  /** Whether a list is split at its commas at all. */
  predicate Splits(phs: string)
  {
    ',' in phs && forall k :: 0 <= k < |Exempt| ==> !Contains(phs, Exempt[k])
  }

  /** `find_last_of(',')`. */
  function LastComma(s: string): (r: Option<nat>)
    ensures r.Some? ==> r.value < |s| && s[r.value] == ','
    ensures r.None? <==> ',' !in s
  {
    if s == [] then None
    else if s[|s| - 1] == ',' then Some(|s| - 1)
    else
      assert s == s[..|s| - 1] + [s[|s| - 1]];
      LastComma(s[..|s| - 1])
  }

  /** Nothing after the last comma is a comma. */
  lemma {:induction false} LastCommaIsLast(s: string)
    requires LastComma(s).Some?
    ensures forall k :: LastComma(s).value < k < |s| ==> s[k] != ','
  {
    if s[|s| - 1] != ',' {
      LastCommaIsLast(s[..|s| - 1]);
    }
  }

  /**
   * The splitting loop as written: working back from the last comma, the
   * key is what starts two characters past the comma (past the comma and
   * the blank after it), and the list is cut at the comma; what is left in
   * the end is the first key. `None` is the `std::out_of_range` that
   * `substr` throws when the comma is the last character. Keys are listed
   * left to right: all keys of one line get the same record, so the order
   * in which the loop inserts them does not matter.
   */
  function SplitAsWritten(phs: string): (r: Option<seq<string>>)
    decreases |phs|
  {
    match LastComma(phs)
    case None => Some([phs])
    case Some(pos) =>
      if pos + 2 > |phs| then None
      else
        var rest := SplitAsWritten(phs[..pos]);
        if rest.None? then None else Some(rest.value + [phs[pos + 2..]])
  }

  /** A comma that ends the list or is followed by another comma. */
  predicate Dangling(s: string)
  {
    exists i :: 0 <= i < |s| && s[i] == ',' && (i + 1 == |s| || s[i + 1] == ',')
  }

  /** The as-written loop throws exactly on a list with a dangling comma. */
  lemma {:induction false} SplitThrows(phs: string)
    ensures SplitAsWritten(phs).None? <==> Dangling(phs)
    decreases |phs|
  {
    match LastComma(phs)
    case None =>
    case Some(pos) =>
      if pos + 2 <= |phs| {
        SplitThrows(phs[..pos]);
        DanglingCut(phs, pos);
      }
  }

  /** Cutting at the last comma, when a character follows it, keeps a dangling comma or its absence. */
  lemma {:induction false} DanglingCut(s: string, pos: nat)
    requires LastComma(s) == Some(pos) && pos + 2 <= |s|
    ensures Dangling(s) <==> Dangling(s[..pos])
  {
    LastCommaIsLast(s);
    var t := s[..pos];
    if Dangling(s) {
      var i :| 0 <= i < |s| && s[i] == ',' && (i + 1 == |s| || s[i + 1] == ',');
      assert i < pos;
      assert t[i] == ',' && (i + 1 == |t| || t[i + 1] == ',');
    }
    if Dangling(t) {
      var i :| 0 <= i < |t| && t[i] == ',' && (i + 1 == |t| || t[i + 1] == ',');
      assert s[i] == ',' && s[i + 1] == ',';
    }
  }

  /** The list `"a,"` makes the loop throw. */
  lemma {:induction false} TrailingCommaThrows()
    ensures SplitAsWritten("a,") == None
    ensures SplitPhs("a,") == ["a", ""]
  {
    assert LastComma("a,") == Some(1);
    assert LastComma("a") == None;
    assert "a,"[..1] == "a" && "a,"[2..] == "";
  }

  /**
   * The split the loop evidently intends: the key after a comma starts two
   * characters on, or is empty when the list ends first.
   */
  function SplitPhs(phs: string): (r: seq<string>)
    ensures |r| >= 1
    decreases |phs|
  {
    match LastComma(phs)
    case None => [phs]
    case Some(pos) =>
      SplitPhs(phs[..pos]) + [phs[if pos + 2 <= |phs| then pos + 2 else |phs|..]]
  }

  /** Where the loop does not throw it produces the intended keys. */
  lemma {:induction false} SplitAgrees(phs: string)
    requires SplitAsWritten(phs).Some?
    ensures SplitAsWritten(phs) == Some(SplitPhs(phs))
    decreases |phs|
  {
    match LastComma(phs)
    case None =>
    case Some(pos) =>
      SplitAgrees(phs[..pos]);
  }

  /** Names listed the way the file lists them, separated by a comma and a blank. */
  function JoinPh(ns: seq<string>): string
    requires |ns| >= 1
  {
    if |ns| == 1 then ns[0] else JoinPh(ns[..|ns| - 1]) + ", " + ns[|ns| - 1]
  }

  /** The last comma of `a + "," + t` is the one after `a` when `t` has none. */
  lemma {:induction false} LastCommaAt(a: string, t: string)
    requires ',' !in t
    ensures LastComma(a + "," + t) == Some(|a|)
    decreases |t|
  {
    var s := a + "," + t;
    if t != [] {
      assert s[|s| - 1] == t[|t| - 1];
      assert s[..|s| - 1] == a + "," + t[..|t| - 1];
      LastCommaAt(a, t[..|t| - 1]);
    }
  }

  /** Comma-free names joined with ", " split back into the same names, with or without the fix. */
  lemma {:induction false} SplitJoin(ns: seq<string>)
    requires |ns| >= 1 && forall k :: 0 <= k < |ns| ==> ',' !in ns[k]
    ensures SplitPhs(JoinPh(ns)) == ns
    ensures SplitAsWritten(JoinPh(ns)) == Some(ns)
    decreases |ns|
  {
    if |ns| > 1 {
      var init, last := ns[..|ns| - 1], ns[|ns| - 1];
      SplitJoin(init);
      SplitLast(JoinPh(init), last);
      assert ns == init + [last];
    }
  }

  /** A comma-free last name after ", " is split off as the last key. */
  lemma {:induction false} SplitLast(a: string, last: string)
    requires ',' !in last
    ensures SplitPhs(a + ", " + last) == SplitPhs(a) + [last]
    ensures SplitAsWritten(a + ", " + last) ==
      if SplitAsWritten(a).None? then None else Some(SplitAsWritten(a).value + [last])
  {
    var s := a + ", " + last;
    assert s == a + "," + (" " + last);
    assert ',' !in " " + last;
    LastCommaAt(a, " " + last);
    assert s[..|a|] == a && s[|a| + 2..] == last;
  }

  /** The keys a list stands for: its pieces when it splits, else the whole list. */
  function PhKeys(phs: string): seq<string>
  {
    if Splits(phs) then SplitPhs(phs) else [phs]
  }

  // ---------------------------------------------------------------------
  // Loading and looking up
  // ---------------------------------------------------------------------

  /** The record `line` gives key `k`, if it gives it one. */
  function LineRecord(line: string, k: string): Option<PHInfo>
  {
    match ParsePhLine(line)
    case None => None
    case Some(p) => if k in PhKeys(p.phs) then Some(p.info) else None
  }

  /** One pass of `LoadPHs`'s loop: every key of a parsed line maps to its record. */
  function LoadLine(m: map<string, PHInfo>, line: string): (r: map<string, PHInfo>)
    ensures forall k :: k in r <==> k in m || LineRecord(line, k).Some?
    ensures forall k :: k in r ==> r[k] == if LineRecord(line, k).Some? then LineRecord(line, k).value else m[k]
  {
    match ParsePhLine(line)
    case None => m
    case Some(p) => m + map k | k in PhKeys(p.phs) :: p.info
  }

  /** The loop over the file's lines, in order. */
  function LoadLines(m: map<string, PHInfo>, lines: seq<string>): map<string, PHInfo>
    decreases |lines|
  {
    if lines == [] then m else LoadLines(LoadLine(m, lines[0]), lines[1..])
  }

  /** `LoadPHs`: the map is cleared first, and a file that cannot be opened leaves it empty. */
  function LoadPHs(file: Option<seq<string>>): map<string, PHInfo>
  {
    if file.None? then map[] else LoadLines(map[], file.value)
  }

  /** The record the last line mentioning `k` gives it: later lines win. */
  function Latest(lines: seq<string>, k: string): Option<PHInfo>
    decreases |lines|
  {
    if lines == [] then None
    else
      var r := Latest(lines[1..], k);
      if r.Some? then r else LineRecord(lines[0], k)
  }

  /** Loading lines on top of a map gives each key its latest record, or keeps what it had. */
  lemma {:induction false} LoadLinesLatest(m: map<string, PHInfo>, lines: seq<string>, k: string)
    ensures k in LoadLines(m, lines) <==> Latest(lines, k).Some? || k in m
    ensures k in LoadLines(m, lines) ==>
      LoadLines(m, lines)[k] == if Latest(lines, k).Some? then Latest(lines, k).value else m[k]
    decreases |lines|
  {
    if lines != [] {
      LoadLinesLatest(LoadLine(m, lines[0]), lines[1..], k);
    }
  }

  /** A parsed line whose list is split and holds a dangling comma: `substr` throws on it. */
  predicate LineThrows(line: string)
  {
    ParsePhLine(line).Some? && Splits(ParsePhLine(line).value.phs) && Dangling(ParsePhLine(line).value.phs)
  }

  /** The keys as the loop computes them: `None` when it throws. */
  function PhKeysAsWritten(phs: string): Option<seq<string>>
  {
    if Splits(phs) then SplitAsWritten(phs) else Some([phs])
  }

  /** The keys as written fail exactly on a split list with a dangling comma, and are the intended keys otherwise. */
  lemma {:induction false} PhKeysAgree(phs: string)
    ensures PhKeysAsWritten(phs).None? <==> Splits(phs) && Dangling(phs)
    ensures PhKeysAsWritten(phs).Some? ==> PhKeysAsWritten(phs).value == PhKeys(phs)
  {
    if Splits(phs) {
      SplitThrows(phs);
      if SplitAsWritten(phs).Some? {
        SplitAgrees(phs);
      }
    }
  }

  /** One pass of the loop as written: `None` when the line's split throws. */
  function LoadLineAsWritten(m: map<string, PHInfo>, line: string): (r: Option<map<string, PHInfo>>)
    ensures r.None? <==> LineThrows(line)
    ensures r.Some? ==> r.value == LoadLine(m, line)
  {
    match ParsePhLine(line)
    case None => Some(m)
    case Some(p) =>
      PhKeysAgree(p.phs);
      match PhKeysAsWritten(p.phs)
      case None => None
      case Some(keys) => Some(m + map k | k in keys :: p.info)
  }

  /** The loop over the lines as written: `None` once a line throws, abandoning the load. */
  function LoadLinesAsWritten(m: map<string, PHInfo>, lines: seq<string>): Option<map<string, PHInfo>>
    decreases |lines|
  {
    if lines == [] then Some(m)
    else
      match LoadLineAsWritten(m, lines[0])
      case None => None
      case Some(m1) => LoadLinesAsWritten(m1, lines[1..])
  }

  /**
   * `LoadPHs` as written: `None` is the exception that escapes it, and
   * `TargetInfoMod::Initialize`, which calls it, when a list has a
   * dangling comma.
   */
  function LoadPHsAsWritten(file: Option<seq<string>>): Option<map<string, PHInfo>>
  {
    if file.None? then Some(map[]) else LoadLinesAsWritten(map[], file.value)
  }

  /**
   * The load as written is abandoned exactly when some line throws;
   * otherwise it builds the same map as the corrected loader.
   */
  lemma {:induction false} LoadLinesAgrees(m: map<string, PHInfo>, lines: seq<string>)
    ensures LoadLinesAsWritten(m, lines).None? <==> exists i :: 0 <= i < |lines| && LineThrows(lines[i])
    ensures LoadLinesAsWritten(m, lines).Some? ==> LoadLinesAsWritten(m, lines).value == LoadLines(m, lines)
    decreases |lines|
  {
    if lines != [] {
      var r := LoadLineAsWritten(m, lines[0]);
      if r.Some? {
        LoadLinesAgrees(r.value, lines[1..]);
        if exists i :: 0 <= i < |lines| && LineThrows(lines[i]) {
          var i :| 0 <= i < |lines| && LineThrows(lines[i]);
          assert i > 0 && lines[1..][i - 1] == lines[i];
        }
        if exists j :: 0 <= j < |lines[1..]| && LineThrows(lines[1..][j]) {
          var j :| 0 <= j < |lines[1..]| && LineThrows(lines[1..][j]);
          assert lines[j + 1] == lines[1..][j];
        }
      }
    }
  }

  /**
   * The file as the program loads it: the load throws exactly when a line
   * carries a dangling comma, and otherwise every name finds the latest
   * record the file gives it.
   */
  lemma {:induction false} LoadAsWritten(file: seq<string>, name: string)
    ensures LoadPHsAsWritten(Some(file)).None? <==> exists i :: 0 <= i < |file| && LineThrows(file[i])
    ensures LoadPHsAsWritten(Some(file)).Some? ==>
      GetPhMap(LoadPHsAsWritten(Some(file)).value, Some(name)) == Latest(file, name)
  {
    LoadLinesAgrees(map[], file);
    LookupLatest(Some(file), name);
  }

  /**
   * `GetPhMap`: the record of the spawn's displayed name; no spawn, or a
   * name not in the map, finds nothing.
   */
  function GetPhMap(m: map<string, PHInfo>, name: Option<string>): Option<PHInfo>
  {
    if name.Some? && name.value in m then Some(m[name.value]) else None
  }

  /** Looking a name up after loading a file finds the latest record the file gives it. */
  lemma {:induction false} LookupLatest(file: Option<seq<string>>, name: string)
    ensures GetPhMap(LoadPHs(file), Some(name)) == if file.Some? then Latest(file.value, name) else None
  {
    if file.Some? {
      LoadLinesLatest(map[], file.value, name);
    }
  }

  /**
   * The PH button's click: the link of the target's record is opened when
   * there is a target, it has a record and the link is not empty.
   */
  function PhButtonLink(m: map<string, PHInfo>, target: Option<string>): (r: Option<string>)
    ensures r.Some? <==> GetPhMap(m, target).Some? && GetPhMap(m, target).value.link != ""
    ensures r.Some? ==> r.value == m[target.value].link
  {
    match GetPhMap(m, target)
    case Some(info) => if info.link != "" then Some(info.link) else None
    case None => None
  }
}
