/**
 * The game's reference-counted string representation (`CStrRep`, the
 * body of a `CXStr`) as both labels.cpp and target_info.cpp lay it out,
 * and the two ways the mods produce one: overwriting a label's string
 * (`OverwriteCXStr`) and allocating a fresh one (`AllocGameStr`).
 *
 * Whether the heap allocation succeeds is a parameter.
 */
module GameString {
  import opened Opt
  import opened CInt

  /** `CStrRep` without its encoding and free-list fields; `text` is the `utf8` buffer's string. */
  datatype Rep = Rep(refCount: int32, alloc: uint32, length: uint32, text: string)

  /** A representation whose recorded length is its text's and whose buffer holds text plus terminator. */
  predicate Sound(r: Rep)
  {
    r.length == |r.text| && r.length < r.alloc
  }

  /** What `OverwriteCXStr` leaves: the representation the string now uses, and the one it used before. */
  datatype Overwritten = Overwritten(current: Rep, previous: Rep, inPlace: bool)

  /**
   * `OverwriteCXStr` on a non-null string: in place when the caller is the
   * only owner and the buffer has room for the text and its terminator;
   * otherwise a new representation with 64 spare bytes replaces it and
   * the old one loses a reference (never going below zero). A failed
   * allocation changes nothing.
   */
  function OverwriteRep(rep: Rep, text: string, heapOk: bool): (r: Overwritten)
    ensures r.inPlace <==> rep.refCount == 1 && rep.alloc > U32(|text|)
    ensures r.inPlace ==> r.current == r.previous == rep.(length := U32(|text|), text := text)
    ensures !r.inPlace && heapOk ==> r.current.refCount == 1 && r.current.text == text
    ensures !r.inPlace && heapOk ==> r.previous == rep.(refCount := if rep.refCount > 0 then rep.refCount - 1 else rep.refCount)
    ensures !r.inPlace && !heapOk ==> r.current == r.previous == rep
    ensures r.previous.refCount >= 0 || r.previous.refCount == rep.refCount
  {
    var newLen := U32(|text|);
    if rep.refCount == 1 && rep.alloc > newLen then
      var written := rep.(length := newLen, text := text);
      Overwritten(written, written, true)
    else if heapOk then
      var newRep := Rep(1, U32(newLen + 64), newLen, text);
      var prev := rep.(refCount := if rep.refCount > 0 then rep.refCount - 1 else rep.refCount);
      Overwritten(newRep, prev, false)
    else Overwritten(rep, rep, false)
  }

  /** The text reads back, and the result is sound, whenever the text's length fits `uint32` with room to spare. */
  lemma {:induction false} OverwriteSound(rep: Rep, text: string, heapOk: bool)
    requires |text| + 64 < TWO32
    ensures var r := OverwriteRep(rep, text, heapOk);
      (r.inPlace || heapOk) ==> Sound(r.current) && r.current.text == text
  {
  }

  /** `OverwriteCXStr(cxstr, text)`: a null string, text or representation is a no-op (`None`). */
  function OverwriteCXStr(cxstr: Option<Option<Rep>>, text: Option<string>, heapOk: bool): (r: Option<Overwritten>)
    ensures r.Some? <==> cxstr.Some? && cxstr.value.Some? && text.Some?
    ensures r.Some? ==> r.value == OverwriteRep(cxstr.value.value, text.value, heapOk)
  {
    if cxstr.None? || text.None? || cxstr.value.None? then None
    else Some(OverwriteRep(cxstr.value.value, text.value, heapOk))
  }

  /**
   * `AllocGameStr`: needs the game's allocator and free lists; null text
   * counts as "". The new string has one reference and 16 spare bytes.
   */
  function AllocGameStr(allocatorReady: bool, heapOk: bool, text: Option<string>): (r: Option<Rep>)
    ensures r.Some? <==> allocatorReady && heapOk
    ensures r.Some? ==> r.value.refCount == 1 && r.value.text == text.GetOr("")
    ensures r.Some? ==> r.value.length == U32(|text.GetOr("")|) && r.value.alloc == U32(r.value.length + 16)
  {
    if !allocatorReady || !heapOk then None
    else
      var t := text.GetOr("");
      var len := U32(|t|);
      Some(Rep(1, U32(len + 16), len, t))
  }

  /** A fresh game string is sound and reads back its text. */
  lemma {:induction false} AllocSound(text: Option<string>)
    requires |text.GetOr("")| + 16 < TWO32
    ensures Sound(AllocGameStr(true, true, text).value)
  {
  }

  /** `ReadCXStr`: the text of a string, "" when the object or its representation is null. */
  function ReadCXStr(cxstr: Option<Option<Rep>>): (r: string)
    ensures cxstr.None? || cxstr.value.None? ==> r == ""
  {
    if cxstr.None? || cxstr.value.None? then "" else cxstr.value.value.text
  }

  /** Allocating and reading back gives the text, null reading as "". */
  lemma {:induction false} AllocRead(text: Option<string>)
    ensures ReadCXStr(Some(AllocGameStr(true, true, text))) == text.GetOr("")
  {
  }
}
