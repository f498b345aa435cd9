/**
 * The widget tree of deps/sxui/sxui.c as an arena: a widget reference is an
 * index into a sequence of nodes, each node holding its parent index and its
 * ordered child indices. Widgets are never freed or re-parented and a child is
 * always created after its parent, so a child's index exceeds its parent's.
 */
module Widgets {
  import opened Wrappers
  import opened Flags
  import opened Layout
  import opened Bindings
  import TextEdit

  /** The callback lists of the element structs (onClick, onMouseEnter, ...). */
  datatype Channel = OnClick | OnMouseEnter | OnMouseLeave | OnFocusChanged | OnTextChanged | OnSubmit
                   | OnValueChanged

  /** What a callback is given besides its element: nothing, a flag, or a text. */
  datatype Arg = NoArg | Flag(on: bool) | Text(text: seq<char>)

  /** One callback invocation, recorded instead of performed. */
  datatype Call = Call(callback: Callback, element: nat, channel: Channel, arg: Arg)

  /** UIType; an input carries its editing state, which is updated in place. */
  datatype Kind = Frame | Button | Label | Input(field: TextEdit.TextInput) | Checkbox | Slider

  /** The UIFrame fields beyond the element (meaningful for frames only). */
  datatype FrameState = FrameState(padding: int, spacing: int, scrollY: int, contentHeight: int,
                                   maxGridCols: int, scrollBarWidth: int)

  /**
   * One element: the UIElement fields, the integer fields of its type, and its
   * callback lists by channel. caption is the text of a button, label or
   * checkbox and the placeholder of an input.
   */
  datatype Node = Node(x: int, y: int, w: int, h: int, targetW: int, targetH: int,
                       kind: Kind, flags: bv32, parent: Option<nat>, children: seq<nat>,
                       hoverPrev: bool, caption: seq<char>, pressed: bool, checked: bool,
                       frame: FrameState, handlers: map<Channel, seq<Binding>>)

  /** The callback lists each type of element owns (sxui.c:996-1053). */
  function ChannelsOf(k: Kind): set<Channel> {
    {OnMouseEnter, OnMouseLeave} +
    match k
    case Button => {OnClick}
    case Input(_) => {OnFocusChanged, OnTextChanged, OnSubmit}
    case Checkbox => {OnValueChanged}
    case Slider => {OnValueChanged}
    case _ => {}
  }

  /** The empty lists init_base and the constructors create. */
  function EmptyHandlers(k: Kind): (m: map<Channel, seq<Binding>>)
    ensures m.Keys == ChannelsOf(k)
    ensures forall ch :: ch in m ==> m[ch] == []
  {
    map ch | ch in ChannelsOf(k) :: []
  }

  predicate Hidden(n: Node) {
    Has(n.flags, HIDDEN)
  }

  predicate Distinct(s: seq<nat>) {
    forall a, b :: 0 <= a < b < |s| ==> s[a] != s[b]
  }

  // ---------------------------------------------------------------------------
  // The shape of the tree
  // ---------------------------------------------------------------------------

  /** Every child comes after its parent in the arena. */
  ghost predicate ChildrenAfter(nodes: seq<Node>) {
    forall i, c :: 0 <= i < |nodes| && c in nodes[i].children ==> i < c < |nodes|
  }

  /** Every parent comes before its child in the arena. */
  ghost predicate ParentsBefore(nodes: seq<Node>) {
    forall i :: 0 <= i < |nodes| && nodes[i].parent.Some? ==> nodes[i].parent.value < i
  }

  /** Every child links back to the element whose list holds it. */
  ghost predicate ChildLinks(nodes: seq<Node>) {
    forall i, c :: 0 <= i < |nodes| && c in nodes[i].children ==> c < |nodes| && nodes[c].parent == Some(i)
  }

  /**
   * The tree invariant: child lists and parent links agree, the top-level
   * list holds exactly the parentless elements, and no list repeats an element.
   */
  ghost predicate Tree(nodes: seq<Node>, root: seq<nat>) {
    && ChildrenAfter(nodes)
    && ParentsBefore(nodes)
    && ChildLinks(nodes)
    && (forall i :: 0 <= i < |nodes| && nodes[i].parent.Some? ==> i in nodes[nodes[i].parent.value].children)
    && (forall r :: r in root ==> r < |nodes| && nodes[r].parent.None?)
    && (forall i :: 0 <= i < |nodes| && nodes[i].parent.None? ==> i in root)
    && Distinct(root)
    && (forall i :: 0 <= i < |nodes| ==> Distinct(nodes[i].children))
  }

  /** Two arenas with the same elements, types and links. */
  ghost predicate SameShape(a: seq<Node>, b: seq<Node>) {
    |a| == |b| &&
    forall i :: 0 <= i < |a| ==> a[i].kind == b[i].kind && a[i].parent == b[i].parent && a[i].children == b[i].children
  }

  /** The tree invariant depends on the shape alone. */
  lemma SameShapeTree(a: seq<Node>, b: seq<Node>, root: seq<nat>)
    requires SameShape(a, b) && Tree(a, root)
    ensures Tree(b, root)
  {
    assert forall i :: 0 <= i < |a| ==> a[i].children == b[i].children && a[i].parent == b[i].parent;
  }

  /** Each element's callback lists are those of its type, and every id was issued (1..lastId). */
  ghost predicate HandlersOk(nodes: seq<Node>, lastId: int) {
    forall i :: 0 <= i < |nodes| ==>
      && nodes[i].handlers.Keys == ChannelsOf(nodes[i].kind)
      && forall ch :: ch in nodes[i].handlers ==>
           forall k :: 0 <= k < |nodes[i].handlers[ch]| ==> 1 <= nodes[i].handlers[ch][k].id <= lastId
  }

  /** Same shape, and every element keeps its callback lists. */
  ghost predicate SameWiring(a: seq<Node>, b: seq<Node>) {
    SameShape(a, b) && forall i :: 0 <= i < |a| ==> a[i].handlers == b[i].handlers
  }

  /** The tree invariant and the handler invariant depend on the wiring alone. */
  lemma SameWiringTree(a: seq<Node>, b: seq<Node>, root: seq<nat>)
    requires SameWiring(a, b) && Tree(a, root)
    ensures Tree(b, root)
    ensures forall lastId :: HandlersOk(a, lastId) ==> HandlersOk(b, lastId)
  {
    SameShapeTree(a, b, root);
  }

  /** a is d or one of d's ancestors. */
  ghost predicate AncestorOrSelf(nodes: seq<Node>, a: nat, d: nat)
    requires ParentsBefore(nodes) && d < |nodes|
    decreases d
  {
    a == d || (nodes[d].parent.Some? && AncestorOrSelf(nodes, a, nodes[d].parent.value))
  }

  /** An ancestor comes no later than its descendant. */
  lemma {:induction false} AncestorBefore(nodes: seq<Node>, a: nat, d: nat)
    requires ParentsBefore(nodes) && d < |nodes| && AncestorOrSelf(nodes, a, d)
    ensures a <= d
    decreases d
  {
    if a != d {
      AncestorBefore(nodes, a, nodes[d].parent.value);
    }
  }

  // ---------------------------------------------------------------------------
  // Hit testing (sxui.c:567-580)
  // ---------------------------------------------------------------------------

  /** The scroll a container applies to its children: scroll_y for a frame, 0 otherwise. */
  function ScrollOf(n: Node): int {
    if n.kind.Frame? then n.frame.scrollY else 0
  }

  /** The element is visible and its rectangle at (px + x, py + y) contains the point, edges included. */
  predicate Catches(n: Node, px: int, py: int, mx: int, my: int) {
    && !Hidden(n)
    && px + n.x <= mx <= px + n.x + n.w
    && py + n.y <= my <= py + n.y + n.h
  }

  /** The elements of l lie in the arena, at index lo or later. */
  ghost predicate InArena(nodes: seq<Node>, l: seq<nat>, lo: nat) {
    forall k :: 0 <= k < |l| ==> lo <= l[k] < |nodes|
  }

  /**
   * _get_hit: search l from its last element down; the first element that
   * catches the point is searched in turn, with its children offset by its
   * position (and its scroll, for a frame); a child found wins over it.
   * Elements are searched only inside the arena at index lo or later, which
   * in a well-formed tree they all are.
   */
  function Hit(nodes: seq<Node>, l: seq<nat>, lo: nat, px: int, py: int, mx: int, my: int): (r: Option<nat>)
    ensures r.Some? ==> lo <= r.value < |nodes| && !Hidden(nodes[r.value])
    decreases |nodes| - lo, |l|
  {
    if l == [] then None
    else
      var e := l[|l| - 1];
      if lo <= e < |nodes| && Catches(nodes[e], px, py, mx, my) then
        var n := nodes[e];
        var c := Hit(nodes, n.children, e + 1, px + n.x, py + n.y - ScrollOf(n), mx, my);
        if c.Some? then c else Some(e)
      else
        Hit(nodes, l[..|l| - 1], lo, px, py, mx, my)
  }

  /** The loop of _get_hit: scan l from its end, and search the children of the first catcher. */
  method GetHit(nodes: seq<Node>, l: seq<nat>, lo: nat, px: int, py: int, mx: int, my: int) returns (r: Option<nat>)
    ensures r == Hit(nodes, l, lo, px, py, mx, my)
    decreases |nodes| - lo, |l|
  {
    var i := |l|;
    assert l[..i] == l;
    while i > 0
      invariant 0 <= i <= |l|
      invariant Hit(nodes, l[..i], lo, px, py, mx, my) == Hit(nodes, l, lo, px, py, mx, my)
    {
      var e := l[i - 1];
      assert l[..i][i - 1] == e && l[..i][..i - 1] == l[..i - 1];
      if lo <= e < |nodes| && Catches(nodes[e], px, py, mx, my) {
        var n := nodes[e];
        var child := GetHit(nodes, n.children, e + 1, px + n.x, py + n.y - ScrollOf(n), mx, my);
        return if child.Some? then child else Some(e);
      }
      i := i - 1;
    }
    assert l[..0] == [];
    return None;
  }

  /** _get_hit returns NULL exactly when no element of l catches the point. */
  lemma {:induction false} HitNone(nodes: seq<Node>, l: seq<nat>, lo: nat, px: int, py: int, mx: int, my: int)
    requires InArena(nodes, l, lo)
    ensures Hit(nodes, l, lo, px, py, mx, my).None? <==> forall k :: 0 <= k < |l| ==> !Catches(nodes[l[k]], px, py, mx, my)
    decreases |l|
  {
    if l != [] && !Catches(nodes[l[|l| - 1]], px, py, mx, my) {
      var rest := l[..|l| - 1];
      assert forall k :: 0 <= k < |rest| ==> rest[k] == l[k];
      HitNone(nodes, rest, lo, px, py, mx, my);
    }
  }

  /** Horizontal screen offset of an element's parent coordinates: the sum of its ancestors' x. */
  function OriginX(nodes: seq<Node>, i: nat): int
    requires ParentsBefore(nodes) && i < |nodes|
    decreases i
  {
    match nodes[i].parent
    case None => 0
    case Some(p) => OriginX(nodes, p) + nodes[p].x
  }

  /** Vertical screen offset: the sum of its ancestors' y, less each ancestor frame's scroll_y. */
  function OriginY(nodes: seq<Node>, i: nat): int
    requires ParentsBefore(nodes) && i < |nodes|
    decreases i
  {
    match nodes[i].parent
    case None => 0
    case Some(p) => OriginY(nodes, p) + nodes[p].y - ScrollOf(nodes[p])
  }

  /** k is the last element of l that catches the point. */
  ghost predicate TopmostCatcher(nodes: seq<Node>, l: seq<nat>, k: int, px: int, py: int, mx: int, my: int)
    requires forall j :: 0 <= j < |l| ==> l[j] < |nodes|
  {
    && 0 <= k < |l| && Catches(nodes[l[k]], px, py, mx, my)
    && forall j :: k < j < |l| ==> !Catches(nodes[l[j]], px, py, mx, my)
  }

  /** The elements of l all sit at the screen offset (px, py). */
  ghost predicate AtOrigin(nodes: seq<Node>, l: seq<nat>, px: int, py: int)
    requires ParentsBefore(nodes) && forall k :: 0 <= k < |l| ==> l[k] < |nodes|
  {
    forall k :: 0 <= k < |l| ==> OriginX(nodes, l[k]) == px && OriginY(nodes, l[k]) == py
  }

  /** The children of e sit at e's screen position, shifted up by e's scroll. */
  lemma ChildrenAtOrigin(nodes: seq<Node>, e: nat)
    requires ChildrenAfter(nodes) && ParentsBefore(nodes) && ChildLinks(nodes) && e < |nodes|
    ensures InArena(nodes, nodes[e].children, e + 1)
    ensures AtOrigin(nodes, nodes[e].children, OriginX(nodes, e) + nodes[e].x,
                     OriginY(nodes, e) + nodes[e].y - ScrollOf(nodes[e]))
  {
    var cs := nodes[e].children;
    forall k | 0 <= k < |cs|
      ensures e + 1 <= cs[k] < |nodes| && nodes[cs[k]].parent == Some(e)
    {
      assert cs[k] in cs;
    }
  }

  /**
   * With its parent's coordinates starting at (ox, oy), element e contains the
   * point and is visible, while none of its children contains it.
   */
  ghost predicate LoneAt(nodes: seq<Node>, e: nat, ox: int, oy: int, mx: int, my: int)
    requires ChildrenAfter(nodes) && e < |nodes|
  {
    var n := nodes[e];
    && Catches(n, ox, oy, mx, my)
    && forall c :: c in n.children ==> !Catches(nodes[c], ox + n.x, oy + n.y - ScrollOf(n), mx, my)
  }

  /** A search result, if any, catches the point on screen and none of its children does. */
  ghost predicate FoundOnScreen(nodes: seq<Node>, r: Option<nat>, mx: int, my: int)
    requires ChildrenAfter(nodes) && ParentsBefore(nodes)
  {
    r.Some? && r.value < |nodes| ==> LoneAt(nodes, r.value, OriginX(nodes, r.value), OriginY(nodes, r.value), mx, my)
  }

  /**
   * What _get_hit returns, stated on screen coordinates: the element found
   * catches the point at its on-screen position, and none of its children
   * does, so a container is returned only when no child of it matches.
   */
  lemma {:induction false} HitOnScreen(nodes: seq<Node>, l: seq<nat>, lo: nat, px: int, py: int, mx: int, my: int)
    requires ChildrenAfter(nodes) && ParentsBefore(nodes) && ChildLinks(nodes)
    requires InArena(nodes, l, lo) && AtOrigin(nodes, l, px, py)
    ensures FoundOnScreen(nodes, Hit(nodes, l, lo, px, py, mx, my), mx, my)
    decreases |nodes| - lo, |l|, 1
  {
    if l != [] {
      var e := l[|l| - 1];
      if Catches(nodes[e], px, py, mx, my) {
        HitOnScreenFound(nodes, l, lo, px, py, mx, my, e);
      } else {
        var rest := l[..|l| - 1];
        assert forall k :: 0 <= k < |rest| ==> rest[k] == l[k];
        HitOnScreen(nodes, rest, lo, px, py, mx, my);
      }
    }
  }

  /** The step of HitOnScreen where the last element e of l catches the point. */
  lemma {:induction false} HitOnScreenFound(nodes: seq<Node>, l: seq<nat>, lo: nat, px: int, py: int, mx: int, my: int, e: nat)
    requires ChildrenAfter(nodes) && ParentsBefore(nodes) && ChildLinks(nodes)
    requires InArena(nodes, l, lo) && AtOrigin(nodes, l, px, py) && l != [] && e == l[|l| - 1]
    requires Catches(nodes[e], px, py, mx, my)
    ensures FoundOnScreen(nodes, Hit(nodes, l, lo, px, py, mx, my), mx, my)
    decreases |nodes| - lo, |l|, 0
  {
    var n := nodes[e];
    var cx, cy := px + n.x, py + n.y - ScrollOf(n);
    ChildrenAtOrigin(nodes, e);
    HitOnScreen(nodes, n.children, e + 1, cx, cy, mx, my);
    var sub := Hit(nodes, n.children, e + 1, cx, cy, mx, my);
    var r := Hit(nodes, l, lo, px, py, mx, my);
    if sub.None? {
      HitNone(nodes, n.children, e + 1, cx, cy, mx, my);
      LoneCatcher(nodes, e, px, py, mx, my);
      FoundAtOrigin(nodes, r, e, px, py, mx, my);
    } else {
      assert r == sub;
    }
  }

  /** The search result e, lone at the screen offset of its parent, satisfies FoundOnScreen. */
  lemma FoundAtOrigin(nodes: seq<Node>, r: Option<nat>, e: nat, px: int, py: int, mx: int, my: int)
    requires ChildrenAfter(nodes) && ParentsBefore(nodes) && e < |nodes| && r == Some(e)
    requires OriginX(nodes, e) == px && OriginY(nodes, e) == py && LoneAt(nodes, e, px, py, mx, my)
    ensures FoundOnScreen(nodes, r, mx, my)
  {
  }

  /** An element that catches the point while none of its children does. */
  lemma LoneCatcher(nodes: seq<Node>, e: nat, px: int, py: int, mx: int, my: int)
    requires ChildrenAfter(nodes) && e < |nodes| && InArena(nodes, nodes[e].children, e + 1)
    requires var n := nodes[e];
      && Catches(n, px, py, mx, my)
      && forall k :: 0 <= k < |n.children| ==> !Catches(nodes[n.children[k]], px + n.x, py + n.y - ScrollOf(n), mx, my)
    ensures LoneAt(nodes, e, px, py, mx, my)
  {
    var n := nodes[e];
    forall c | c in n.children
      ensures !Catches(nodes[c], px + n.x, py + n.y - ScrollOf(n), mx, my)
    {
      var j :| 0 <= j < |n.children| && n.children[j] == c;
    }
  }

  /**
   * The highest-index element of l that catches the point wins: the element
   * found is that element or one of its descendants.
   */
  lemma {:induction false} HitTopmost(nodes: seq<Node>, l: seq<nat>, lo: nat, px: int, py: int, mx: int, my: int)
    requires ChildrenAfter(nodes) && ParentsBefore(nodes) && ChildLinks(nodes)
    requires InArena(nodes, l, lo)
    ensures FoundTopmost(nodes, l, px, py, mx, my, Hit(nodes, l, lo, px, py, mx, my))
    decreases |nodes| - lo, |l|, 1
  {
    if l != [] {
      var e := l[|l| - 1];
      if Catches(nodes[e], px, py, mx, my) {
        HitTopmostFound(nodes, l, lo, px, py, mx, my, e);
      } else {
        var rest := l[..|l| - 1];
        assert forall k :: 0 <= k < |rest| ==> rest[k] == l[k];
        HitTopmost(nodes, rest, lo, px, py, mx, my);
        SkipNonCatcher(nodes, l, lo, px, py, mx, my);
      }
    }
  }

  /** A search result, if any, is the last catching element of l or one of its descendants. */
  ghost predicate FoundTopmost(nodes: seq<Node>, l: seq<nat>, px: int, py: int, mx: int, my: int, r: Option<nat>)
    requires ParentsBefore(nodes) && forall k :: 0 <= k < |l| ==> l[k] < |nodes|
  {
    r.Some? && r.value < |nodes| ==>
      exists k :: TopmostCatcher(nodes, l, k, px, py, mx, my) && AncestorOrSelf(nodes, l[k], r.value)
  }

  /** The step of HitTopmost where the last element e of l catches the point. */
  lemma {:induction false} HitTopmostFound(nodes: seq<Node>, l: seq<nat>, lo: nat, px: int, py: int, mx: int, my: int, e: nat)
    requires ChildrenAfter(nodes) && ParentsBefore(nodes) && ChildLinks(nodes)
    requires InArena(nodes, l, lo) && l != [] && e == l[|l| - 1]
    requires Catches(nodes[e], px, py, mx, my)
    ensures FoundTopmost(nodes, l, px, py, mx, my, Hit(nodes, l, lo, px, py, mx, my))
    decreases |nodes| - lo, |l|, 0
  {
    var n := nodes[e];
    var cx, cy := px + n.x, py + n.y - ScrollOf(n);
    ChildrenAtOrigin(nodes, e);
    HitTopmost(nodes, n.children, e + 1, cx, cy, mx, my);
    var sub := Hit(nodes, n.children, e + 1, cx, cy, mx, my);
    assert TopmostCatcher(nodes, l, |l| - 1, px, py, mx, my);
    if sub.Some? {
      var k :| TopmostCatcher(nodes, n.children, k, cx, cy, mx, my) && AncestorOrSelf(nodes, n.children[k], sub.value);
      assert n.children[k] in n.children;
      AncestorTransitive(nodes, e, n.children[k], sub.value);
    }
  }

  /** The step of HitTopmost where the last element of l does not catch the point. */
  lemma SkipNonCatcher(nodes: seq<Node>, l: seq<nat>, lo: nat, px: int, py: int, mx: int, my: int)
    requires ParentsBefore(nodes) && InArena(nodes, l, lo) && l != []
    requires !Catches(nodes[l[|l| - 1]], px, py, mx, my)
    requires FoundTopmost(nodes, l[..|l| - 1], px, py, mx, my, Hit(nodes, l[..|l| - 1], lo, px, py, mx, my))
    ensures FoundTopmost(nodes, l, px, py, mx, my, Hit(nodes, l, lo, px, py, mx, my))
  {
    var rest := l[..|l| - 1];
    var r := Hit(nodes, rest, lo, px, py, mx, my);
    if r.Some? {
      var k :| TopmostCatcher(nodes, rest, k, px, py, mx, my) && AncestorOrSelf(nodes, rest[k], r.value);
      assert TopmostCatcher(nodes, l, k, px, py, mx, my);
    }
  }

  /** A parent is an ancestor of everything below its child. */
  lemma {:induction false} AncestorTransitive(nodes: seq<Node>, p: nat, c: nat, d: nat)
    requires ParentsBefore(nodes) && c < |nodes| && d < |nodes|
    requires nodes[c].parent == Some(p) && AncestorOrSelf(nodes, c, d)
    ensures AncestorOrSelf(nodes, p, d)
    decreases d
  {
    if c != d {
      AncestorTransitive(nodes, p, c, nodes[d].parent.value);
    }
  }

  // ---------------------------------------------------------------------------
  // Mouse wheel (sxui.c:747-761)
  // ---------------------------------------------------------------------------

  predicate ScrollableFrame(n: Node) {
    n.kind.Frame? && Has(n.flags, SCROLLABLE)
  }

  /** The element the wheel scrolls: the nearest scrollable frame at or above start. */
  function ScrollTarget(nodes: seq<Node>, start: nat): (r: Option<nat>)
    requires ParentsBefore(nodes) && start < |nodes|
    ensures r.Some? ==> r.value < |nodes| && ScrollableFrame(nodes[r.value]) && AncestorOrSelf(nodes, r.value, start)
    ensures r.None? ==> forall a: nat :: AncestorOrSelf(nodes, a, start) ==> !(a < |nodes| && ScrollableFrame(nodes[a]))
    ensures r.Some? ==>
      forall a: nat :: (AncestorOrSelf(nodes, a, start) && a < |nodes| && ScrollableFrame(nodes[a]))
        ==> AncestorOrSelf(nodes, a, r.value)
    decreases start
  {
    if ScrollableFrame(nodes[start]) then Some(start)
    else match nodes[start].parent
      case None => None
      case Some(p) => ScrollTarget(nodes, p)
  }

  /**
   * The new scroll_y after a wheel step of dy notches: 40 pixels per notch,
   * never below 0, and capped at content_height - h only when that limit is
   * positive, so content that fits can still be scrolled down without bound.
   */
  function ScrollBy(scroll: int, dy: int, contentHeight: int, h: int): (r: int)
    ensures r >= 0
    ensures contentHeight - h > 0 ==> r <= contentHeight - h
    ensures 0 <= scroll - dy * 40 && (contentHeight - h <= 0 || scroll - dy * 40 <= contentHeight - h)
            ==> r == scroll - dy * 40
    ensures scroll - dy * 40 < 0 ==> r == 0
    ensures contentHeight - h > 0 && scroll - dy * 40 > contentHeight - h ==> r == contentHeight - h
  {
    var s := scroll - dy * 40;
    var s1 := if s < 0 then 0 else s;
    var limit := contentHeight - h;
    if s1 > limit && limit > 0 then limit else s1
  }

  // ---------------------------------------------------------------------------
  // Hover edges (sxui.c:1069-1073) and callback dispatch
  // ---------------------------------------------------------------------------

  /** The hover callback list to run: enter on a rising edge, leave on a falling one, none otherwise. */
  function HoverEdge(prev: bool, now: bool): (r: Option<Channel>)
    ensures r == Some(OnMouseEnter) <==> now && !prev
    ensures r == Some(OnMouseLeave) <==> !now && prev
    ensures r.None? <==> now == prev
  {
    if now && !prev then Some(OnMouseEnter)
    else if !now && prev then Some(OnMouseLeave)
    else None
  }

  /** The callbacks of one list, run in list order on element e (the trigger_* loops). */
  function Calls(list: seq<Binding>, e: nat, ch: Channel, arg: Arg): (r: seq<Call>)
    ensures |r| == |list|
    ensures forall k :: 0 <= k < |list| ==> r[k] == Call(list[k].callback, e, ch, arg)
  {
    seq(|list|, k requires 0 <= k < |list| => Call(list[k].callback, e, ch, arg))
  }

  /** The list of channel ch of node n; empty for a channel its type does not have. */
  function ListOf(n: Node, ch: Channel): seq<Binding> {
    if ch in n.handlers then n.handlers[ch] else []
  }
}
