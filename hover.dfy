/**
 * sx_render_recursive (deps/sxui/sxui.c:1063-1108) without the drawing: the
 * visible elements of a list are visited in list order, each one's hover
 * state is compared with the one recorded on the previous pass, enter or
 * leave callbacks run on a change, a button's pressed mark is cleared once
 * its click is 100 ms old, and a frame's children are visited right after
 * the frame, offset by its position and shifted up by its scroll.
 */
module Hover {
  import opened Wrappers
  import opened Widgets

  /** The callbacks one element runs when its hover state becomes now (trigger_hover). */
  function EdgeCalls(n: Node, e: nat, now: bool): (r: seq<Call>)
    ensures now == n.hoverPrev ==> r == []
    ensures forall c :: c in r ==> c.element == e && c.arg == Flag(now)
                                   && c.channel == (if now then OnMouseEnter else OnMouseLeave)
  {
    match HoverEdge(n.hoverPrev, now)
    case None => []
    case Some(ch) => Calls(ListOf(n, ch), e, ch, Flag(now))
  }

  /**
   * A button's pressed mark after the pass draws it: kept while the click is
   * recent, cleared once 100 ms have passed. expired holds the buttons whose
   * click is 100 ms old or more, as the clock says when the pass runs.
   */
  function PressedAfter(n: Node, e: nat, expired: set<nat>): (r: bool)
    ensures r ==> n.pressed
    ensures n.kind.Button? ==> (r <==> n.pressed && e !in expired)
    ensures !n.kind.Button? ==> r == n.pressed
  {
    if n.kind.Button? && e in expired then false else n.pressed
  }

  /**
   * The pass over l[i..] with the parent coordinates starting at (px, py):
   * the arena with the new hover marks, and the callbacks run, in order.
   * Hidden elements are skipped, and so are elements outside the arena or
   * before index lo, of which a well-formed tree has none.
   */
  function HoverList(nodes: seq<Node>, l: seq<nat>, i: nat, lo: nat, px: int, py: int, mx: int, my: int, expired: set<nat>)
    : (r: (seq<Node>, seq<Call>))
    requires i <= |l|
    ensures |r.0| == |nodes|
    decreases |nodes| - lo, |l| - i, 1
  {
    if i == |l| then (nodes, [])
    else if !(lo <= l[i] < |nodes|) || Hidden(nodes[l[i]]) then HoverList(nodes, l, i + 1, lo, px, py, mx, my, expired)
    else
      var v := Visit(nodes, l[i], px, py, mx, my, expired);
      var rest := HoverList(v.0, l, i + 1, lo, px, py, mx, my, expired);
      (rest.0, v.1 + rest.1)
  }

  /**
   * One visible element e: its hover mark becomes whether it contains the
   * point, a button whose click has expired is no longer pressed, its edge
   * callbacks run, and a frame's children are visited next.
   */
  function Visit(nodes: seq<Node>, e: nat, px: int, py: int, mx: int, my: int, expired: set<nat>): (r: (seq<Node>, seq<Call>))
    requires e < |nodes|
    ensures |r.0| == |nodes|
    decreases |nodes| - e, 0, 0
  {
    var n := nodes[e];
    var now := Catches(n, px, py, mx, my);
    var marked := nodes[e := n.(hoverPrev := now, pressed := PressedAfter(n, e, expired))];
    if n.kind.Frame? then
      var inner := HoverList(marked, n.children, 0, e + 1, px + n.x, py + n.y - n.frame.scrollY, mx, my, expired);
      (inner.0, EdgeCalls(n, e, now) + inner.1)
    else (marked, EdgeCalls(n, e, now))
  }

  /** sx_render_recursive without the drawing: the loop over l, visiting every visible element in turn. */
  method HoverPass(nodes: seq<Node>, l: seq<nat>, lo: nat, px: int, py: int, mx: int, my: int, expired: set<nat>)
    returns (ns: seq<Node>, calls: seq<Call>)
    ensures (ns, calls) == HoverList(nodes, l, 0, lo, px, py, mx, my, expired)
    decreases |nodes| - lo, 1
  {
    ns, calls := nodes, [];
    var i := 0;
    assert calls + HoverList(ns, l, i, lo, px, py, mx, my, expired).1 == HoverList(ns, l, i, lo, px, py, mx, my, expired).1;
    while i < |l|
      invariant 0 <= i <= |l| && |ns| == |nodes|
      invariant HoverList(nodes, l, 0, lo, px, py, mx, my, expired)
             == (HoverList(ns, l, i, lo, px, py, mx, my, expired).0, calls + HoverList(ns, l, i, lo, px, py, mx, my, expired).1)
    {
      var e := l[i];
      if lo <= e < |ns| && !Hidden(ns[e]) {
        var marked, here := VisitPass(ns, e, px, py, mx, my, expired);
        ghost var rest := HoverList(marked, l, i + 1, lo, px, py, mx, my, expired);
        assert calls + (here + rest.1) == (calls + here) + rest.1;
        ns, calls := marked, calls + here;
      }
      i := i + 1;
    }
    assert calls + HoverList(ns, l, i, lo, px, py, mx, my, expired).1 == calls;
  }

  /** One visible element: its hover edge, its new mark, then a frame's children. */
  method VisitPass(nodes: seq<Node>, e: nat, px: int, py: int, mx: int, my: int, expired: set<nat>)
    returns (ns: seq<Node>, calls: seq<Call>)
    requires e < |nodes| && !Hidden(nodes[e])
    ensures (ns, calls) == Visit(nodes, e, px, py, mx, my, expired)
    decreases |nodes| - e, 0
  {
    var n := nodes[e];
    var wx, wy := px + n.x, py + n.y;
    var hovered := mx >= wx && mx <= wx + n.w && my >= wy && my <= wy + n.h;
    if hovered && !n.hoverPrev {
      calls := Calls(ListOf(n, OnMouseEnter), e, OnMouseEnter, Flag(true));
    } else if !hovered && n.hoverPrev {
      calls := Calls(ListOf(n, OnMouseLeave), e, OnMouseLeave, Flag(false));
    } else {
      calls := [];
    }
    var pressed := n.pressed;
    if n.kind.Button? && !(n.pressed && e !in expired) {
      pressed := false;
    }
    ns := nodes[e := n.(hoverPrev := hovered, pressed := pressed)];
    if n.kind.Frame? {
      var inner, more := HoverPass(ns, n.children, e + 1, wx, wy - n.frame.scrollY, mx, my, expired);
      ns, calls := inner, calls + more;
    }
  }

  /** Only the hover marks and the buttons' pressed marks change. */
  ghost predicate OnlyMarks(a: seq<Node>, b: seq<Node>) {
    |a| == |b| && forall j :: 0 <= j < |a| ==> b[j] == a[j].(hoverPrev := b[j].hoverPrev, pressed := b[j].pressed)
  }

  lemma OnlyMarksTrans(a: seq<Node>, b: seq<Node>, c: seq<Node>)
    requires OnlyMarks(a, b) && OnlyMarks(b, c)
    ensures OnlyMarks(a, c)
  {
  }

  /** Marks alone change, so the tree and its callback lists are as they were. */
  lemma OnlyMarksWiring(a: seq<Node>, b: seq<Node>)
    requires OnlyMarks(a, b)
    ensures SameWiring(a, b)
  {
    assert forall j :: 0 <= j < |a| ==> b[j].kind == a[j].kind && b[j].handlers == a[j].handlers;
  }

  /** An enter callback given 1 or a leave callback given 0. */
  predicate EdgeCall(c: Call) {
    || (c.channel == OnMouseEnter && c.arg == Flag(true))
    || (c.channel == OnMouseLeave && c.arg == Flag(false))
  }

  ghost predicate EdgesOnly(calls: seq<Call>) {
    forall k :: 0 <= k < |calls| ==> EdgeCall(calls[k])
  }

  lemma EdgesOnlyJoin(a: seq<Call>, b: seq<Call>, c: seq<Call>)
    requires EdgesOnly(a) && EdgesOnly(b) && EdgesOnly(c)
    ensures EdgesOnly(a + b + c)
  {
    var s := a + b + c;
    forall k | 0 <= k < |s|
      ensures EdgeCall(s[k])
    {
      if k < |a| {
        assert s[k] == a[k];
      } else if k < |a| + |b| {
        assert s[k] == b[k - |a|];
      } else {
        assert s[k] == c[k - |a| - |b|];
      }
    }
  }

  /** The pass changes nothing but the hover marks and the buttons' pressed marks. */
  lemma {:induction false} HoverMarksOnly(nodes: seq<Node>, l: seq<nat>, i: nat, lo: nat, px: int, py: int, mx: int, my: int, expired: set<nat>)
    requires i <= |l|
    ensures OnlyMarks(nodes, HoverList(nodes, l, i, lo, px, py, mx, my, expired).0)
    decreases |nodes| - lo, |l| - i, 1
  {
    if i < |l| {
      if !(lo <= l[i] < |nodes|) || Hidden(nodes[l[i]]) {
        HoverMarksOnly(nodes, l, i + 1, lo, px, py, mx, my, expired);
      } else {
        var v := Visit(nodes, l[i], px, py, mx, my, expired);
        VisitMarksOnly(nodes, l[i], px, py, mx, my, expired);
        HoverMarksOnly(v.0, l, i + 1, lo, px, py, mx, my, expired);
        OnlyMarksTrans(nodes, v.0, HoverList(v.0, l, i + 1, lo, px, py, mx, my, expired).0);
      }
    }
  }

  lemma {:induction false} VisitMarksOnly(nodes: seq<Node>, e: nat, px: int, py: int, mx: int, my: int, expired: set<nat>)
    requires e < |nodes|
    ensures OnlyMarks(nodes, Visit(nodes, e, px, py, mx, my, expired).0)
    decreases |nodes| - e, 0, 0
  {
    var n := nodes[e];
    var now := Catches(n, px, py, mx, my);
    var marked := nodes[e := n.(hoverPrev := now, pressed := PressedAfter(n, e, expired))];
    MarkOne(nodes, e, now, PressedAfter(n, e, expired));
    if n.kind.Frame? {
      HoverMarksOnly(marked, n.children, 0, e + 1, px + n.x, py + n.y - n.frame.scrollY, mx, my, expired);
      OnlyMarksTrans(nodes, marked, HoverList(marked, n.children, 0, e + 1, px + n.x, py + n.y - n.frame.scrollY, mx, my, expired).0);
    }
  }

  lemma MarkOne(nodes: seq<Node>, e: nat, now: bool, pressed: bool)
    requires e < |nodes|
    ensures OnlyMarks(nodes, nodes[e := nodes[e].(hoverPrev := now, pressed := pressed)])
  {
  }

  /** Every callback the pass runs is an enter callback given 1 or a leave callback given 0. */
  lemma {:induction false} HoverEdgesOnly(nodes: seq<Node>, l: seq<nat>, i: nat, lo: nat, px: int, py: int, mx: int, my: int, expired: set<nat>)
    requires i <= |l|
    ensures EdgesOnly(HoverList(nodes, l, i, lo, px, py, mx, my, expired).1)
    decreases |nodes| - lo, |l| - i, 1
  {
    if i < |l| {
      if !(lo <= l[i] < |nodes|) || Hidden(nodes[l[i]]) {
        HoverEdgesOnly(nodes, l, i + 1, lo, px, py, mx, my, expired);
      } else {
        var v := Visit(nodes, l[i], px, py, mx, my, expired);
        VisitEdgesOnly(nodes, l[i], px, py, mx, my, expired);
        HoverEdgesOnly(v.0, l, i + 1, lo, px, py, mx, my, expired);
        EdgesOnlyJoin(v.1, HoverList(v.0, l, i + 1, lo, px, py, mx, my, expired).1, []);
      }
    }
  }

  lemma {:induction false} VisitEdgesOnly(nodes: seq<Node>, e: nat, px: int, py: int, mx: int, my: int, expired: set<nat>)
    requires e < |nodes|
    ensures EdgesOnly(Visit(nodes, e, px, py, mx, my, expired).1)
    decreases |nodes| - e, 0, 0
  {
    var n := nodes[e];
    var now := Catches(n, px, py, mx, my);
    var marked := nodes[e := n.(hoverPrev := now, pressed := PressedAfter(n, e, expired))];
    var here := EdgeCalls(n, e, now);
    assert EdgesOnly(here) by {
      forall k | 0 <= k < |here|
        ensures EdgeCall(here[k])
      {
        assert here[k] in here;
      }
    }
    if n.kind.Frame? {
      HoverEdgesOnly(marked, n.children, 0, e + 1, px + n.x, py + n.y - n.frame.scrollY, mx, my, expired);
      EdgesOnlyJoin(here, HoverList(marked, n.children, 0, e + 1, px + n.x, py + n.y - n.frame.scrollY, mx, my, expired).1, []);
    }
  }

  /** The pass over a list never touches an element created before lo. */
  lemma {:induction false} ListKeepsBelow(nodes: seq<Node>, l: seq<nat>, i: nat, lo: nat, px: int, py: int, mx: int, my: int,
                                          expired: set<nat>, j: nat)
    requires i <= |l| && j < lo && j < |nodes|
    ensures HoverList(nodes, l, i, lo, px, py, mx, my, expired).0[j] == nodes[j]
    decreases |nodes| - lo, |l| - i, 1
  {
    if i < |l| {
      if !(lo <= l[i] < |nodes|) || Hidden(nodes[l[i]]) {
        ListKeepsBelow(nodes, l, i + 1, lo, px, py, mx, my, expired, j);
      } else {
        var v := Visit(nodes, l[i], px, py, mx, my, expired);
        VisitKeepsBelow(nodes, l[i], px, py, mx, my, expired, j);
        ListKeepsBelow(v.0, l, i + 1, lo, px, py, mx, my, expired, j);
      }
    }
  }

  /** Visiting e never touches an element created before e. */
  lemma {:induction false} VisitKeepsBelow(nodes: seq<Node>, e: nat, px: int, py: int, mx: int, my: int, expired: set<nat>, j: nat)
    requires e < |nodes| && j < e
    ensures Visit(nodes, e, px, py, mx, my, expired).0[j] == nodes[j]
    decreases |nodes| - e, 0, 0
  {
    var n := nodes[e];
    var marked := nodes[e := n.(hoverPrev := Catches(n, px, py, mx, my), pressed := PressedAfter(n, e, expired))];
    if n.kind.Frame? {
      ListKeepsBelow(marked, n.children, 0, e + 1, px + n.x, py + n.y - n.frame.scrollY, mx, my, expired, j);
    }
  }

  /**
   * A visited element records whether it contains the point, a button keeps
   * its pressed mark only while its click is recent, and the element's edge
   * callbacks run before its children's.
   */
  lemma VisitMarks(nodes: seq<Node>, e: nat, px: int, py: int, mx: int, my: int, expired: set<nat>)
    requires e < |nodes|
    ensures var n := nodes[e];
      var now := Catches(n, px, py, mx, my);
      var v := Visit(nodes, e, px, py, mx, my, expired);
      && v.0[e].hoverPrev == now
      && (n.kind.Button? ==> (v.0[e].pressed <==> n.pressed && e !in expired))
      && |EdgeCalls(n, e, now)| <= |v.1| && v.1[..|EdgeCalls(n, e, now)|] == EdgeCalls(n, e, now)
      && (now && !n.hoverPrev ==> EdgeCalls(n, e, now) == Calls(ListOf(n, OnMouseEnter), e, OnMouseEnter, Flag(true)))
      && (!now && n.hoverPrev ==> EdgeCalls(n, e, now) == Calls(ListOf(n, OnMouseLeave), e, OnMouseLeave, Flag(false)))
  {
    var n := nodes[e];
    if n.kind.Frame? {
      var marked := nodes[e := n.(hoverPrev := Catches(n, px, py, mx, my), pressed := PressedAfter(n, e, expired))];
      ListKeepsBelow(marked, n.children, 0, e + 1, px + n.x, py + n.y - n.frame.scrollY, mx, my, expired, e);
    }
  }
}
