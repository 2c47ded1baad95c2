/**
 * The two `%`-placeholder engines of the map: the label text formatter
 * `MapObject::FormatString` (map_object.cpp) and the left-click command
 * substitution of `MapClickLocation` (map_api.cpp).
 *
 * The float coordinates enter as the text `std::to_string` or `"%.2f"`
 * would produce for them; that text is a parameter here.
 */
module MapFormat {
  import opened Opt
  import Text

  /** What a map object contributes to its label text. */
  datatype Subject = Subject(text: string, x: string, y: string, z: string)

  /** `HandleFormatSpecifier`: the expansion of `%c`. */
  function Specifier(c: char, o: Subject): (r: string)
    ensures c == 'N' || c == 'n' ==> r == o.text
    ensures c == '%' ==> r == "%"
    ensures c == 'h' ==> r == "1"
    ensures c == 'i' || c == 'l' ==> r == "0"
    ensures c == 'x' ==> r == o.x
    ensures c == 'y' ==> r == o.y
    ensures c == 'z' ==> r == o.z
    ensures !(c in "Nnhilxyz%") ==> r == ['%', c]
  {
    match c
    case 'N' => o.text
    case 'n' => o.text
    case 'h' => "1"
    case 'i' => "0"
    case 'l' => "0"
    case 'x' => o.x
    case 'y' => o.y
    case 'z' => o.z
    case '%' => "%"
    case _ => ['%', c]
  }

  /**
   * `FormatString` exactly as written: a `%` in the last position takes
   * the terminator as its specifier, appends `%` and a NUL, and then the
   * loop steps past the terminator and reads beyond the string. That read
   * is reported as `None`.
   */
  function FormatAsWritten(f: string, o: Subject): (r: Option<string>)
    requires '\0' !in f
  {
    if f == [] then Some([])
    else if f[0] != '%' then
      var rest := FormatAsWritten(f[1..], o);
      if rest.None? then None else Some([f[0]] + rest.value)
    else if |f| == 1 then None
    else
      var rest := FormatAsWritten(f[2..], o);
      if rest.None? then None else Some(Specifier(f[1], o) + rest.value)
  }

  /**
   * `FormatString` with the trailing lone `%` kept as a literal `%`;
   * on every other format it is the code as written.
   */
  function Format(f: string, o: Subject): (r: string)
    requires '\0' !in f
    ensures f == [] ==> r == []
    ensures f != [] && f[0] != '%' ==> |r| > 0 && r[0] == f[0]
  {
    if f == [] then []
    else if f[0] != '%' then [f[0]] + Format(f[1..], o)
    else if |f| == 1 then "%"
    else Specifier(f[1], o) + Format(f[2..], o)
  }

  /** A format the code as written can scan without reading past its end. */
  predicate Complete(f: string, o: Subject)
    requires '\0' !in f
  {
    FormatAsWritten(f, o).Some?
  }

  /** Wherever the code as written stays inside the string, it computes `Format`. */
  lemma {:induction false} AsWrittenAgrees(f: string, o: Subject)
    requires '\0' !in f
    ensures Complete(f, o) ==> FormatAsWritten(f, o) == Some(Format(f, o))
  {
    if f == [] {
    } else if f[0] != '%' {
      AsWrittenAgrees(f[1..], o);
    } else if |f| > 1 {
      AsWrittenAgrees(f[2..], o);
    }
  }

  /** A complete format followed by a lone `%` makes the code as written read past the end. */
  lemma {:induction false} TrailingPercentOverreads(f: string, o: Subject)
    requires '\0' !in f && Complete(f, o)
    ensures FormatAsWritten(f + "%", o).None?
    ensures Format(f + "%", o) == Format(f, o) + "%"
  {
    if f == [] {
      assert f + "%" == "%";
    } else if f[0] != '%' {
      assert (f + "%")[1..] == f[1..] + "%";
      TrailingPercentOverreads(f[1..], o);
    } else {
      assert (f + "%")[2..] == f[2..] + "%";
      TrailingPercentOverreads(f[2..], o);
    }
  }

  /** The smallest such input: the format `"%"`. */
  lemma {:induction false} LonePercentOverreads(o: Subject)
    ensures FormatAsWritten("%", o).None?
    ensures Format("%", o) == "%"
  {
  }

  /** Formatting distributes over a complete first part. */
  lemma {:induction false} FormatAppend(a: string, b: string, o: Subject)
    requires '\0' !in a && '\0' !in b && Complete(a, o)
    ensures Format(a + b, o) == Format(a, o) + Format(b, o)
  {
    if a == [] {
      assert a + b == b;
    } else if a[0] != '%' {
      assert (a + b)[1..] == a[1..] + b;
      FormatAppend(a[1..], b, o);
    } else {
      assert (a + b)[2..] == a[2..] + b;
      FormatAppend(a[2..], b, o);
    }
  }

  /** Literal text with every `%` doubled, so that formatting gives it back. */
  function Escape(t: string): (r: string)
    ensures |r| >= |t|
    ensures '\0' !in t ==> '\0' !in r
  {
    if t == [] then []
    else (if t[0] == '%' then "%%" else [t[0]]) + Escape(t[1..])
  }

  /** Non-`%` characters are copied unchanged and `%%` is a `%`: escaped text formats to itself. */
  lemma {:induction false} FormatEscape(t: string, o: Subject)
    requires '\0' !in t
    ensures '\0' !in Escape(t) && Complete(Escape(t), o)
    ensures Format(Escape(t), o) == t
  {
    if t != [] {
      var head := if t[0] == '%' then "%%" else [t[0]];
      var e := Escape(t[1..]);
      FormatEscape(t[1..], o);
      assert Escape(t) == head + e;
      if t[0] == '%' {
        assert Escape(t)[2..] == e;
      } else {
        assert Escape(t)[1..] == e;
      }
      AsWrittenAgrees(e, o);
    }
  }

  /** `%N` and `%n` give the object's text; with literal text around it. */
  lemma {:induction false} NameFormat(pre: string, post: string, o: Subject)
    requires '\0' !in pre && '\0' !in post
    ensures Format(Escape(pre) + "%N" + Escape(post), o) == pre + o.text + post
  {
    FormatEscape(pre, o);
    FormatEscape(post, o);
    NameBetween(Escape(pre), Escape(post), pre, post, o);
  }

  /** `%N` between a complete format giving `pre` and a format giving `post`. */
  lemma {:induction false} NameBetween(p: string, e: string, pre: string, post: string, o: Subject)
    requires '\0' !in p && '\0' !in e && Complete(p, o)
    requires Format(p, o) == pre && Format(e, o) == post
    ensures '\0' !in p + "%N" + e
    ensures Format(p + "%N" + e, o) == pre + o.text + post
  {
    var n := "%N";
    assert '\0' !in n;
    FormatName(e, o);
    FormatAfter(p, n, e, o);
    Text.SeqAssoc(pre, o.text, post);
  }

  /** A complete first part formats on its own, in front of the rest. */
  lemma {:induction false} FormatAfter(p: string, m: string, e: string, o: Subject)
    requires '\0' !in p && '\0' !in m && '\0' !in e && Complete(p, o)
    ensures '\0' !in p + m + e && '\0' !in m + e
    ensures Format(p + m + e, o) == Format(p, o) + Format(m + e, o)
  {
    assert p + m + e == p + (m + e);
    FormatAppend(p, m + e, o);
  }

  /** `%N` in front of the rest of a format gives the object's text in front of the rest's output. */
  lemma {:induction false} FormatName(e: string, o: Subject)
    requires '\0' !in e
    ensures Format("%N" + e, o) == o.text + Format(e, o)
  {
    assert ("%N" + e)[2..] == e;
  }

  // ---------------------------------------------------------------------
  // MapClickLocation
  // ---------------------------------------------------------------------

  /** `MAX_CLICK_STRINGS` (map.h). */
  const MaxClickStrings := 16
  /** `MAX_STRING`: the output buffer, one byte of which is the terminator. */
  const MaxString := 2048
  const OutCap := MaxString - 1

  /** The coordinate texts standing in for `xBuf`, `yBuf` and `zBuf`. */
  datatype Coords = Coords(x: string, y: string, z: string)

  function Placeholder(c: char, xyz: Coords): Option<string>
  {
    match c
    case 'x' => Some(xyz.x)
    case 'y' => Some(xyz.y)
    case 'z' => Some(xyz.z)
    case _ => None
  }

  /** The substitution with an unbounded output buffer: the reference meaning. */
  function Expand(cmd: string, xyz: Coords): string
  {
    if cmd == [] then []
    else if cmd[0] == '%' && |cmd| > 1 && Placeholder(cmd[1], xyz).Some? then
      Placeholder(cmd[1], xyz).value + Expand(cmd[2..], xyz)
    else [cmd[0]] + Expand(cmd[1..], xyz)
  }

  /**
   * The substitution loop: stops when the output holds `OutCap` characters;
   * a replacement that would reach the cap is dropped, its placeholder
   * consumed all the same.
   */
  function Substitute(cmd: string, out: string, xyz: Coords): (r: string)
    requires |out| <= OutCap
    ensures |out| <= |r| <= OutCap
    ensures r[..|out|] == out
    decreases |cmd|
  {
    if cmd == [] || |out| >= OutCap then out
    else if cmd[0] == '%' && |cmd| > 1 && Placeholder(cmd[1], xyz).Some? then
      var sub := Placeholder(cmd[1], xyz).value;
      var out1 := if |out| + |sub| < OutCap then out + sub else out;
      var r := Substitute(cmd[2..], out1, xyz);
      assert out1[..|out|] == out;
      r
    else
      var r := Substitute(cmd[1..], out + [cmd[0]], xyz);
      assert (out + [cmd[0]])[..|out|] == out;
      r
  }

  /**
   * `MapClickLocation`: the command that is issued, or `None` when the
   * modifier combination is out of range or its slot is empty.
   */
  function ClickCommand(slots: seq<string>, modKeys: int, xyz: Coords): (r: Option<string>)
    requires |slots| == MaxClickStrings
    requires forall i :: 0 <= i < |slots| ==> '\0' !in slots[i]
    ensures modKeys < 0 || modKeys >= MaxClickStrings ==> r.None?
    ensures 0 <= modKeys < MaxClickStrings ==> (r.None? <==> slots[modKeys] == [])
    ensures r.Some? ==> |r.value| < MaxString
  {
    if modKeys < 0 || modKeys >= MaxClickStrings then None
    else if slots[modKeys] == [] then None
    else Some(Substitute(slots[modKeys], [], xyz))
  }

  /** When nothing reaches the cap, the bounded loop computes the unbounded substitution. */
  lemma {:induction false} SubstituteShort(cmd: string, out: string, xyz: Coords)
    requires |out| + |Expand(cmd, xyz)| < OutCap
    ensures Substitute(cmd, out, xyz) == out + Expand(cmd, xyz)
    decreases |cmd|
  {
    if cmd == [] {
    } else if cmd[0] == '%' && |cmd| > 1 && Placeholder(cmd[1], xyz).Some? {
      var sub := Placeholder(cmd[1], xyz).value;
      SubstituteShort(cmd[2..], out + sub, xyz);
    } else {
      SubstituteShort(cmd[1..], out + [cmd[0]], xyz);
    }
  }

  /** A short click command is issued with every `%x`, `%y`, `%z` replaced. */
  lemma {:induction false} ClickShort(slots: seq<string>, modKeys: int, xyz: Coords)
    requires |slots| == MaxClickStrings
    requires forall i :: 0 <= i < |slots| ==> '\0' !in slots[i]
    requires 0 <= modKeys < MaxClickStrings && slots[modKeys] != []
    requires |Expand(slots[modKeys], xyz)| < OutCap
    ensures ClickCommand(slots, modKeys, xyz) == Some(Expand(slots[modKeys], xyz))
  {
    SubstituteShort(slots[modKeys], [], xyz);
  }

  /** A replacement that does not fit is dropped but its placeholder still consumed. */
  lemma {:induction false} DroppedReplacement(c: char, rest: string, out: string, xyz: Coords)
    requires |out| < OutCap && Placeholder(c, xyz).Some?
    requires |out| + |Placeholder(c, xyz).value| >= OutCap
    ensures Substitute(['%', c] + rest, out, xyz) == Substitute(rest, out, xyz)
  {
    assert (['%', c] + rest)[2..] == rest;
  }
}
