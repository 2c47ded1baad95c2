/**
 * The intrusive doubly-linked lists of map_object.cpp (labels, lines and
 * map objects) and the attach/detach splice of map_api.cpp that puts our
 * labels and lines in front of the game's own lists for one draw.
 *
 * Nodes are names; the `next`/`prev` fields of all nodes are two maps,
 * and a list is valid for an abstract order when following the links
 * from the head visits exactly that order.
 */
module MapLists {
  import opened Opt

  type Node = nat
  type Ptr = Option<Node>

  /** Head pointer plus the `pNext`/`pPrev` fields of the nodes. */
  datatype Links = Links(head: Ptr, next: map<Node, Ptr>, prev: map<Node, Ptr>)

  /** A list that also tracks its last node (`gpLabelListTail`, `gpLineListTail`). */
  datatype TList = TList(links: Links, tail: Ptr)

  predicate Distinct(order: seq<Node>)
  {
    forall i, j :: 0 <= i < j < |order| ==> order[i] != order[j]
  }

  /** Following `next` from the head visits `order` and then reaches `end`. */
  predicate Chain(l: Links, order: seq<Node>, end: Ptr)
  {
    Distinct(order)
    && l.head == (if order == [] then end else Some(order[0]))
    && (forall i :: 0 <= i < |order| ==> order[i] in l.next && order[i] in l.prev)
    && (forall i :: 0 <= i < |order| ==>
          l.next[order[i]] == (if i + 1 < |order| then Some(order[i + 1]) else end))
    && (forall i :: 0 <= i < |order| ==>
          l.prev[order[i]] == (if i > 0 then Some(order[i - 1]) else None))
  }

  /** The links of the `i`-th node of a chain. */
  lemma {:induction false} ChainAt(l: Links, order: seq<Node>, end: Ptr, i: nat)
    requires Chain(l, order, end) && i < |order|
    ensures order[i] in l.next && order[i] in l.prev
    ensures l.next[order[i]] == (if i + 1 < |order| then Some(order[i + 1]) else end)
    ensures l.prev[order[i]] == (if i > 0 then Some(order[i - 1]) else None)
  {
  }

  /** The links of the `i`-th node of a list ending in null. */
  predicate LinkedAt(l: Links, order: seq<Node>, i: nat)
    requires i < |order|
  {
    order[i] in l.next && order[i] in l.prev
    && l.next[order[i]] == (if i + 1 < |order| then Some(order[i + 1]) else None)
    && l.prev[order[i]] == (if i > 0 then Some(order[i - 1]) else None)
  }

  predicate Valid(l: Links, order: seq<Node>)
  {
    Chain(l, order, None)
  }

  predicate ValidT(t: TList, order: seq<Node>)
  {
    Valid(t.links, order) && t.tail == (if order == [] then None else Some(order[|order| - 1]))
  }

  /** A node just allocated: no link field of it exists yet. */
  predicate Fresh(l: Links, n: Node)
  {
    n !in l.next && n !in l.prev
  }

  /** The `MapObject` constructor: the new node goes in front of the head. */
  function PushFront(l: Links, n: Node): (r: Links)
    requires Fresh(l, n)
    ensures n in r.next && n in r.prev
    ensures r.head == Some(n) && r.next[n] == l.head && r.prev[n] == None
  {
    var prev1 := if l.head.Some? then l.prev[l.head.value := Some(n)] else l.prev;
    Links(Some(n), l.next[n := l.head], prev1[n := None])
  }

  /** `InitLabel` / `InitLine`: insert at the head; an empty list gets `n` as its tail too. */
  function InitNode(t: TList, n: Node): (r: TList)
    requires Fresh(t.links, n)
    ensures r.links.head == Some(n)
    ensures t.links.head.None? ==> r.tail == Some(n)
    ensures t.links.head.Some? ==> r.tail == t.tail
  {
    TList(PushFront(t.links, n), if t.links.head.Some? then t.tail else Some(n))
  }

  /** The unlinking part of `DeleteLabel`, `DeleteLine` and `~MapObject`; the node is freed. */
  function Unlink(l: Links, n: Node): (r: Links)
    requires n in l.next && n in l.prev
    ensures n !in r.next && n !in r.prev
  {
    var nx := l.next[n];
    var pv := l.prev[n];
    var prev1 := if nx.Some? then l.prev[nx.value := pv] else l.prev;
    var next1 := if pv.Some? then l.next[pv.value := nx] else l.next;
    var head1 := if pv.Some? then l.head else nx;
    Links(head1, next1 - {n}, prev1 - {n})
  }

  /** `DeleteLabel`: unlink; the tail moves back when the last node goes. */
  function DeleteNode(t: TList, n: Node): (r: TList)
    requires n in t.links.next && n in t.links.prev
    ensures n !in r.links.next
    ensures t.links.next[n].None? ==> r.tail == t.links.prev[n]
    ensures t.links.next[n].Some? ==> r.tail == t.tail
  {
    TList(Unlink(t.links, n), if t.links.next[n].None? then t.links.prev[n] else t.tail)
  }

  /** `DeleteLine`: as `DeleteLabel`, and a null line is a no-op. */
  function DeleteLine(t: TList, n: Ptr): (r: TList)
    requires n.Some? ==> n.value in t.links.next && n.value in t.links.prev
    ensures n.None? ==> r == t
  {
    if n.None? then t else DeleteNode(t, n.value)
  }

  // ---------------------------------------------------------------------
  // Insert and delete keep the list valid
  // ---------------------------------------------------------------------

  lemma {:induction false} PushFrontValid(l: Links, order: seq<Node>, n: Node)
    requires Valid(l, order) && Fresh(l, n)
    ensures n !in order
    ensures Valid(PushFront(l, n), [n] + order)
  {
    var r := PushFront(l, n);
    var o := [n] + order;
    assert Chain(l, order, None);
    forall i | 0 <= i < |o|
      ensures o[i] in r.next && o[i] in r.prev
      ensures r.next[o[i]] == (if i + 1 < |o| then Some(o[i + 1]) else None)
      ensures r.prev[o[i]] == (if i > 0 then Some(o[i - 1]) else None)
    {
      if i > 0 {
        var m := order[i - 1];
        ChainAt(l, order, None, i - 1);
        assert o[i] == m && m != n;
        assert r.next[m] == l.next[m];
        if i == 1 {
          assert l.head == Some(m);
        } else {
          assert m != order[0];
          assert r.prev[m] == l.prev[m];
        }
      }
    }
    forall i, j | 0 <= i < j < |o|
      ensures o[i] != o[j]
    {
      if i > 0 {
        assert o[i] == order[i - 1] && o[j] == order[j - 1];
      } else {
        assert o[j] == order[j - 1];
      }
    }
    assert Chain(r, o, None);
  }

  /** `InitLabel`/`InitLine` put the new node first and keep the rest in order. */
  lemma {:induction false} InitNodeValid(t: TList, order: seq<Node>, n: Node)
    requires ValidT(t, order) && Fresh(t.links, n)
    ensures ValidT(InitNode(t, n), [n] + order)
  {
    PushFrontValid(t.links, order, n);
  }

  /** Inserting into an empty list makes the new node both head and tail. */
  lemma {:induction false} InitIntoEmpty(t: TList, n: Node)
    requires ValidT(t, []) && Fresh(t.links, n)
    ensures InitNode(t, n).links.head == Some(n) && InitNode(t, n).tail == Some(n)
  {
  }

  function Without(order: seq<Node>, k: nat): seq<Node>
    requires k < |order|
  {
    order[..k] + order[k + 1..]
  }

  lemma {:induction false} UnlinkValid(l: Links, order: seq<Node>, k: nat)
    requires Valid(l, order) && k < |order|
    ensures Valid(Unlink(l, order[k]), Without(order, k))
  {
    var r := Unlink(l, order[k]);
    var o := Without(order, k);
    UnlinkLinks(l, order, k);
    WithoutDistinct(order, k);
    ChainAt(l, order, None, k);
    if k == 0 {
      assert r.head == l.next[order[k]];
    } else {
      assert r.head == l.head;
      assert o[0] == order[0];
    }
    LinkedValid(r, o);
  }

  /** Distinct nodes, each linked to its neighbours, from the right head, make a valid list. */
  lemma {:induction false} LinkedValid(l: Links, order: seq<Node>)
    requires Distinct(order) && l.head == (if order == [] then None else Some(order[0]))
    requires forall i :: 0 <= i < |order| ==> LinkedAt(l, order, i)
    ensures Valid(l, order)
  {
    forall i | 0 <= i < |order|
      ensures order[i] in l.next && order[i] in l.prev
    {
      assert LinkedAt(l, order, i);
    }
    forall i | 0 <= i < |order|
      ensures l.next[order[i]] == (if i + 1 < |order| then Some(order[i + 1]) else None)
      ensures l.prev[order[i]] == (if i > 0 then Some(order[i - 1]) else None)
    {
      assert LinkedAt(l, order, i);
    }
  }

  /** After unlinking node `k`, each remaining node links to its neighbours in the shortened order. */
  lemma {:induction false} UnlinkLinks(l: Links, order: seq<Node>, k: nat)
    requires Valid(l, order) && k < |order|
    ensures forall i :: 0 <= i < |order| - 1 ==> LinkedAt(Unlink(l, order[k]), Without(order, k), i)
  {
    var r := Unlink(l, order[k]);
    var o := Without(order, k);
    ChainAt(l, order, None, k);
    assert forall i :: 0 <= i < |o| ==> o[i] == (if i < k then order[i] else order[i + 1]);
    forall i | 0 <= i < |o|
      ensures LinkedAt(r, o, i)
    {
      var j := if i < k then i else i + 1;
      UnlinkKeeps(l, order, k, j);
      ChainAt(l, order, None, j);
      if i + 1 < |o| {
        assert o[i + 1] == order[if i + 1 < k then i + 1 else i + 2];
      }
      if i > 0 {
        assert o[i - 1] == order[if i - 1 < k then i - 1 else i];
      }
    }
  }

  lemma {:induction false} WithoutDistinct(order: seq<Node>, k: nat)
    requires Distinct(order) && k < |order|
    ensures Distinct(Without(order, k))
  {
    var o := Without(order, k);
    forall i, j | 0 <= i < j < |o|
      ensures o[i] != o[j]
    {
      var a := if i < k then i else i + 1;
      var b := if j < k then j else j + 1;
      assert o[i] == order[a] && o[j] == order[b] && a < b;
    }
  }

  /**
   * Unlinking node `k` of a chain rewires only its neighbours: the one
   * before now points on past it, the one after back past it.
   */
  lemma {:induction false} UnlinkKeeps(l: Links, order: seq<Node>, k: nat, j: nat)
    requires Valid(l, order) && k < |order| && j < |order| && j != k
    ensures var r := Unlink(l, order[k]);
      order[j] in r.next && order[j] in r.prev
      && r.next[order[j]] == (if j + 1 == k then l.next[order[k]] else l.next[order[j]])
      && r.prev[order[j]] == (if j == k + 1 then l.prev[order[k]] else l.prev[order[j]])
  {
    ChainAt(l, order, None, k);
    ChainAt(l, order, None, j);
    assert order[j] != order[k];
    if k > 0 && j != k - 1 {
      assert order[j] != order[k - 1];
    }
    if k + 1 < |order| && j != k + 1 {
      assert order[j] != order[k + 1];
    }
  }

  /** Deleting a node leaves the other nodes linked in their old order, with head and tail fixed. */
  lemma {:induction false} DeleteNodeValid(t: TList, order: seq<Node>, k: nat)
    requires ValidT(t, order) && k < |order|
    ensures ValidT(DeleteNode(t, order[k]), Without(order, k))
  {
    UnlinkValid(t.links, order, k);
    assert Chain(t.links, order, None);
    var o := Without(order, k);
    ChainAt(t.links, order, None, k);
    if k + 1 == |order| {
      assert t.links.next[order[k]] == None;
      if k > 0 {
        assert o[|o| - 1] == order[k - 1];
      }
    } else {
      assert o[|o| - 1] == order[|order| - 1];
    }
  }

  /** The `MapObject` destructor unlinks the object and advances the head when it was first. */
  lemma {:induction false} UnlinkObjectValid(l: Links, order: seq<Node>, k: nat)
    requires Valid(l, order) && k < |order|
    ensures Valid(Unlink(l, order[k]), Without(order, k))
    ensures k == 0 ==> Unlink(l, order[k]).head == (if |order| > 1 then Some(order[1]) else None)
  {
    UnlinkValid(l, order, k);
  }

  // ---------------------------------------------------------------------
  // MapAttach / MapDetach
  // ---------------------------------------------------------------------

  /**
   * Our two lists, the game's two list heads, and the splice bookkeeping
   * (`pActualLabelList`, `s_labelsAttached`, `s_linesAttached`).
   */
  datatype Splice = Splice(
    labels: TList,
    lines: TList,
    gameLabels: Ptr,
    gameLines: Ptr,
    savedLabels: Ptr,
    labelsAttached: bool,
    linesAttached: bool)

  /** Sets our tail's `pNext`. */
  function SetTailNext(t: TList, p: Ptr): (r: TList)
    requires t.tail.Some? ==> t.tail.value in t.links.next
    ensures r.tail == t.tail && r.links.head == t.links.head
  {
    if t.tail.None? then t
    else TList(t.links.(next := t.links.next[t.tail.value := p]), t.tail)
  }

  predicate TailLinked(t: TList)
  {
    t.tail.Some? ==> t.tail.value in t.links.next
  }

  /**
   * `MapAttach`: with the game's list heads available, our labels go in
   * front of the game's (chained to them only when `NormalLabels` is on)
   * and our lines in front of the game's lines.
   */
  function MapAttach(s: Splice, headsFound: bool, normalLabels: bool): (r: Splice)
    requires TailLinked(s.labels) && TailLinked(s.lines)
    ensures !headsFound ==> r == s
    ensures headsFound && s.labels.links.head.Some? ==>
      r.gameLabels == s.labels.links.head && r.savedLabels == s.gameLabels && r.labelsAttached
    ensures headsFound && s.lines.links.head.Some? ==>
      r.gameLines == s.lines.links.head && r.linesAttached
  {
    if !headsFound then s
    else
      var s1 :=
        if s.labels.links.head.Some? then
          s.(savedLabels := s.gameLabels, labelsAttached := true,
             labels := if normalLabels then SetTailNext(s.labels, s.gameLabels) else s.labels,
             gameLabels := s.labels.links.head)
        else s;
      if s1.lines.links.head.Some? then
        s1.(linesAttached := true, lines := SetTailNext(s1.lines, s1.gameLines), gameLines := s1.lines.links.head)
      else s1
  }

  /**
   * `MapDetach`: undoes only what was attached, restoring the game's
   * heads and cutting our tails loose again.
   */
  function MapDetach(s: Splice, headsFound: bool): (r: Splice)
    requires TailLinked(s.labels) && TailLinked(s.lines)
    ensures !headsFound || (!s.labelsAttached && !s.linesAttached) ==> r == s
    ensures headsFound && s.labelsAttached && s.labels.links.head.Some? ==>
      r.gameLabels == s.savedLabels && !r.labelsAttached
  {
    if !headsFound then s
    else
      var s1 :=
        if s.labelsAttached && s.labels.links.head.Some? then
          s.(gameLabels := s.savedLabels, labels := SetTailNext(s.labels, None), labelsAttached := false)
        else s;
      if s1.linesAttached && s1.lines.links.head.Some? then
        var restored := if s1.lines.tail.Some? then s1.lines.links.next[s1.lines.tail.value] else None;
        s1.(gameLines := restored, lines := SetTailNext(s1.lines, None), linesAttached := false)
      else s1
  }

  /** Setting a field to the value it already has changes nothing. */
  lemma {:induction false} SetTailNextSame(t: TList, order: seq<Node>)
    requires ValidT(t, order)
    ensures SetTailNext(t, None) == t
  {
    assert Chain(t.links, order, None);
    if t.tail.Some? {
      ChainAt(t.links, order, None, |order| - 1);
      assert t.links.next[order[|order| - 1]] == None;
      assert t.links.next[t.tail.value := None] == t.links.next;
    }
  }

  /** Pointing our tail at `p` makes the list run on into `p`. */
  lemma {:induction false} SetTailNextChain(t: TList, order: seq<Node>, p: Ptr)
    requires ValidT(t, order) && order != []
    ensures Chain(SetTailNext(t, p).links, order, p)
  {
    assert Chain(t.links, order, None);
    var r := SetTailNext(t, p).links;
    var last := |order| - 1;
    forall i | 0 <= i < |order|
      ensures order[i] in r.next && order[i] in r.prev
      ensures r.next[order[i]] == (if i + 1 < |order| then Some(order[i + 1]) else p)
      ensures r.prev[order[i]] == (if i > 0 then Some(order[i - 1]) else None)
    {
      ChainAt(t.links, order, None, i);
      if i < last {
        assert order[i] != order[last];
      }
    }
  }

  /** While attached, the game's line list is our lines followed by its own old list. */
  lemma {:induction false} AttachChainsLines(s: Splice, labelOrder: seq<Node>, lineOrder: seq<Node>, normalLabels: bool)
    requires ValidT(s.labels, labelOrder) && ValidT(s.lines, lineOrder) && lineOrder != []
    ensures MapAttach(s, true, normalLabels).gameLines == Some(lineOrder[0])
    ensures Chain(MapAttach(s, true, normalLabels).lines.links, lineOrder, s.gameLines)
  {
    assert Chain(s.lines.links, lineOrder, None);
    SetTailNextChain(s.lines, lineOrder, s.gameLines);
  }

  /** With `NormalLabels` on, the game's label list is our labels followed by its own. */
  lemma {:induction false} AttachChainsLabels(s: Splice, labelOrder: seq<Node>, lineOrder: seq<Node>)
    requires ValidT(s.labels, labelOrder) && ValidT(s.lines, lineOrder) && labelOrder != []
    ensures MapAttach(s, true, true).gameLabels == Some(labelOrder[0])
    ensures Chain(MapAttach(s, true, true).labels.links, labelOrder, s.gameLabels)
  {
    assert Chain(s.labels.links, labelOrder, None);
    SetTailNextChain(s.labels, labelOrder, s.gameLabels);
  }

  /**
   * Detaching right after attaching restores the game's heads and our
   * lists exactly; only the saved-head register keeps what it recorded.
   */
  lemma {:induction false} DetachUndoesAttach(s: Splice, labelOrder: seq<Node>, lineOrder: seq<Node>, normalLabels: bool)
    requires ValidT(s.labels, labelOrder) && ValidT(s.lines, lineOrder)
    requires !s.labelsAttached && !s.linesAttached
    ensures var r := MapDetach(MapAttach(s, true, normalLabels), true);
      r.(savedLabels := s.savedLabels) == s
  {
    var a := MapAttach(s, true, normalLabels);
    SetTailNextSame(s.labels, labelOrder);
    SetTailNextSame(s.lines, lineOrder);
    if s.labels.tail.Some? {
      var tl := s.labels.tail.value;
      assert s.labels.links.next[tl := s.gameLabels][tl := None] == s.labels.links.next[tl := None];
    }
    if s.lines.tail.Some? {
      var tn := s.lines.tail.value;
      assert s.lines.links.next[tn := s.gameLines][tn := None] == s.lines.links.next[tn := None];
    }
  }
}
