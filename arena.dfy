/**
 * sx_update_layout (deps/sxui/sxui.c:524-561) on the widget arena: the pass
 * of Layout.Run over a frame's children, written back into the children's
 * x, y, w and h, with the frame's content_height set from the final pen.
 */
module Arena {
  import opened Wrappers
  import opened Flags
  import opened Layout
  import opened Widgets

  /** What the pass reads of a child. */
  function BoxOf(n: Node): Box {
    Box(n.x, n.y, n.w, n.h, Hidden(n))
  }

  /** A child with the rectangle the pass gave it; nothing else of it changes. */
  function WithBox(n: Node, b: Box): (r: Node)
    ensures BoxOf(r) == b.(hidden := Hidden(n))
    ensures r.(x := n.x, y := n.y, w := n.w, h := n.h) == n
  {
    n.(x := b.x, y := b.y, w := b.w, h := b.h)
  }

  /** What the pass reads of the frame: padding, spacing, width, default child size, column limit, mode. */
  function ConfigOf(n: Node): Config {
    Config(n.frame.padding, n.frame.spacing, n.w, n.targetW, n.targetH, n.frame.maxGridCols, ModeOf(n.flags))
  }

  ghost predicate InRange(nodes: seq<Node>, cs: seq<nat>) {
    forall k :: 0 <= k < |cs| ==> cs[k] < |nodes|
  }

  /** The boxes of the listed elements, in list order. */
  function BoxesOf(nodes: seq<Node>, cs: seq<nat>): (bs: seq<Box>)
    requires InRange(nodes, cs)
    ensures |bs| == |cs|
    ensures forall k :: 0 <= k < |cs| ==> bs[k] == BoxOf(nodes[cs[k]])
  {
    seq(|cs|, k requires 0 <= k < |cs| => BoxOf(nodes[cs[k]]))
  }

  /** Writes box k into element cs[k], in list order. */
  function WriteBack(nodes: seq<Node>, cs: seq<nat>, bs: seq<Box>): (r: seq<Node>)
    requires InRange(nodes, cs) && |bs| == |cs|
    ensures |r| == |nodes|
    decreases |cs|
  {
    if cs == [] then nodes
    else
      var n := |cs| - 1;
      var prev := WriteBack(nodes, cs[..n], bs[..n]);
      prev[cs[n] := WithBox(prev[cs[n]], bs[n])]
  }

  /** Writing back one element more: the last write comes on top of the others. */
  lemma WriteBackStep(nodes: seq<Node>, cs: seq<nat>, bs: seq<Box>, i: nat)
    requires InRange(nodes, cs) && |bs| == |cs| && i < |cs|
    ensures var prev := WriteBack(nodes, cs[..i], bs[..i]);
      WriteBack(nodes, cs[..i + 1], bs[..i + 1]) == prev[cs[i] := WithBox(prev[cs[i]], bs[i])]
  {
    assert cs[..i + 1][..i] == cs[..i] && bs[..i + 1][..i] == bs[..i];
  }

  /** With distinct elements, each gets its own box and every other element is left alone. */
  lemma {:induction false} WriteBackAt(nodes: seq<Node>, cs: seq<nat>, bs: seq<Box>)
    requires InRange(nodes, cs) && |bs| == |cs| && Distinct(cs)
    ensures forall k :: 0 <= k < |cs| ==> WriteBack(nodes, cs, bs)[cs[k]] == WithBox(nodes[cs[k]], bs[k])
    ensures forall j :: 0 <= j < |nodes| && j !in cs ==> WriteBack(nodes, cs, bs)[j] == nodes[j]
    decreases |cs|
  {
    if cs != [] {
      var n := |cs| - 1;
      var ps, pb := cs[..n], bs[..n];
      assert Distinct(ps);
      WriteBackAt(nodes, ps, pb);
      var prev := WriteBack(nodes, ps, pb);
      var r := WriteBack(nodes, cs, bs);
      assert r == prev[cs[n] := WithBox(prev[cs[n]], bs[n])];
      assert cs[n] !in ps;
      forall k | 0 <= k < |cs|
        ensures r[cs[k]] == WithBox(nodes[cs[k]], bs[k])
      {
        if k < n {
          assert ps[k] == cs[k] && pb[k] == bs[k];
        }
      }
      forall j | 0 <= j < |nodes| && j !in cs
        ensures r[j] == nodes[j]
      {
        assert j !in ps;
      }
    }
  }

  /**
   * sx_update_layout on the arena: every child gets the rectangle of Layout.Run
   * and the frame the content height of the final pen.
   */
  function Relayout(nodes: seq<Node>, f: nat): (r: seq<Node>)
    requires ChildrenAfter(nodes) && f < |nodes|
    ensures |r| == |nodes|
  {
    var cs := nodes[f].children;
    assert InRange(nodes, cs) by {
      assert forall k :: 0 <= k < |cs| ==> cs[k] in cs;
    }
    var cfg := ConfigOf(nodes[f]);
    var out := Run(cfg, BoxesOf(nodes, cs));
    var laid := WriteBack(nodes, cs, out.0);
    laid[f := WithContentHeight(laid[f], out.1.cy + out.1.rowH + cfg.padding)]
  }

  /** A frame with a new content height; nothing else of it changes. */
  function WithContentHeight(n: Node, h: int): (r: Node)
    ensures r.frame.contentHeight == h && r.(frame := n.frame) == n
    ensures r.frame.(contentHeight := n.frame.contentHeight) == n.frame
  {
    n.(frame := n.frame.(contentHeight := h))
  }

  /** The frame's children, in range. */
  lemma ChildrenInRange(nodes: seq<Node>, f: nat)
    requires ChildrenAfter(nodes) && f < |nodes|
    ensures InRange(nodes, nodes[f].children)
    ensures f !in nodes[f].children
  {
    assert forall k :: 0 <= k < |nodes[f].children| ==> nodes[f].children[k] in nodes[f].children;
  }

  /**
   * What a pass changes: child k gets box k of the run, the frame gets the
   * content height, and every other element, and every other field, stays.
   */
  lemma RelayoutEffect(nodes: seq<Node>, root: seq<nat>, f: nat)
    requires Tree(nodes, root) && f < |nodes|
    ensures var cs := nodes[f].children;
      && InRange(nodes, cs)
      && var cfg := ConfigOf(nodes[f]);
         var bs := BoxesOf(nodes, cs);
         var r := Relayout(nodes, f);
         && |Run(cfg, bs).0| == |cs|
         && (forall k :: 0 <= k < |cs| ==> r[cs[k]] == WithBox(nodes[cs[k]], Run(cfg, bs).0[k]))
         && r[f] == WithContentHeight(nodes[f], ContentHeight(cfg, bs))
         && (forall j :: 0 <= j < |nodes| && j != f && j !in cs ==> r[j] == nodes[j])
  {
    var cs := nodes[f].children;
    ChildrenInRange(nodes, f);
    var cfg := ConfigOf(nodes[f]);
    var bs := BoxesOf(nodes, cs);
    if cs != [] {
      RunAt(cfg, bs, 0);
    }
    WriteBackAt(nodes, cs, Run(cfg, bs).0);
  }

  /** A pass changes nothing but positions, sizes and the content height, so the tree stays a tree. */
  lemma RelayoutWiring(nodes: seq<Node>, root: seq<nat>, f: nat)
    requires Tree(nodes, root) && f < |nodes|
    ensures SameWiring(nodes, Relayout(nodes, f))
  {
    RelayoutEffect(nodes, root, f);
    var r := Relayout(nodes, f);
    var cs := nodes[f].children;
    forall j | 0 <= j < |nodes|
      ensures r[j].kind == nodes[j].kind && r[j].parent == nodes[j].parent && r[j].children == nodes[j].children
      ensures r[j].handlers == nodes[j].handlers && r[j].flags == nodes[j].flags
    {
      if j in cs {
        var k :| 0 <= k < |cs| && cs[k] == j;
      }
    }
  }

  /** A pass only moves and resizes: every element but the frame keeps everything except its rectangle. */
  lemma RelayoutMovesOnly(nodes: seq<Node>, root: seq<nat>, f: nat, c: nat)
    requires Tree(nodes, root) && f < |nodes| && c < |nodes| && c != f
    ensures Relayout(nodes, f)[c] == WithBox(nodes[c], BoxOf(Relayout(nodes, f)[c]))
  {
    RelayoutEffect(nodes, root, f);
    var cs := nodes[f].children;
    if c in cs {
      var k :| 0 <= k < |cs| && cs[k] == c;
    }
  }

  /** Run keeps every box's hidden mark. */
  lemma RunKeepsHidden(cfg: Config, bs: seq<Box>, k: int)
    requires 0 <= k < |bs|
    ensures |Run(cfg, bs).0| == |bs| && Run(cfg, bs).0[k].hidden == bs[k].hidden
  {
    RunShape(cfg, bs, k);
  }

  /** After a pass, the children's boxes are the boxes the pass produced. */
  lemma BoxesAfterRelayout(nodes: seq<Node>, root: seq<nat>, f: nat)
    requires Tree(nodes, root) && f < |nodes|
    ensures var cs := nodes[f].children;
      && InRange(nodes, cs)
      && BoxesOf(Relayout(nodes, f), cs) == Run(ConfigOf(nodes[f]), BoxesOf(nodes, cs)).0
  {
    RelayoutEffect(nodes, root, f);
    var cs := nodes[f].children;
    var cfg := ConfigOf(nodes[f]);
    var bs := BoxesOf(nodes, cs);
    var out := Run(cfg, bs).0;
    var r := Relayout(nodes, f);
    forall k | 0 <= k < |cs|
      ensures BoxOf(r[cs[k]]) == out[k]
    {
      RunKeepsHidden(cfg, bs, k);
    }
  }

  /** A second pass with no change in between alters nothing. */
  lemma RelayoutTwice(nodes: seq<Node>, root: seq<nat>, f: nat)
    requires Tree(nodes, root) && f < |nodes|
    ensures Tree(Relayout(nodes, f), root)
    ensures Relayout(Relayout(nodes, f), f) == Relayout(nodes, f)
  {
    var r := Relayout(nodes, f);
    RelayoutWiring(nodes, root, f);
    SameWiringTree(nodes, r, root);
    var rr := Relayout(r, f);
    forall j | 0 <= j < |nodes|
      ensures rr[j] == r[j]
    {
      RelayoutTwiceAt(nodes, root, f, j);
    }
  }

  /** The second pass leaves element j as the first left it. */
  lemma RelayoutTwiceAt(nodes: seq<Node>, root: seq<nat>, f: nat, j: nat)
    requires Tree(nodes, root) && f < |nodes| && j < |nodes|
    ensures Tree(Relayout(nodes, f), root)
    ensures Relayout(Relayout(nodes, f), f)[j] == Relayout(nodes, f)[j]
  {
    var r := Relayout(nodes, f);
    RelayoutWiring(nodes, root, f);
    SameWiringTree(nodes, r, root);
    RelayoutEffect(nodes, root, f);
    RelayoutEffect(r, root, f);
    BoxesAfterRelayout(nodes, root, f);
    var cs := nodes[f].children;
    var cfg := ConfigOf(nodes[f]);
    var bs := BoxesOf(nodes, cs);
    assert ConfigOf(r[f]) == cfg;
    RunIdempotent(cfg, bs);
    if j in cs {
      var k :| 0 <= k < |cs| && cs[k] == j;
      RunKeepsHidden(cfg, bs, k);
      WithOwnBox(r[j], Run(cfg, bs).0[k]);
    }
  }

  /** Giving an element the rectangle it already has changes nothing. */
  lemma WithOwnBox(n: Node, b: Box)
    requires b.x == n.x && b.y == n.y && b.w == n.w && b.h == n.h
    ensures WithBox(n, b) == n
  {
  }

  /**
   * sx_update_layout (sxui.c:524-561): one pass over the frame's children
   * with the pen, writing each visible child's rectangle, then the frame's
   * content height; the result is the arena pass Relayout.
   */
  method LayoutPass(nodes: seq<Node>, f: nat) returns (r: seq<Node>)
    requires ChildrenAfter(nodes) && f < |nodes| && Distinct(nodes[f].children)
    ensures r == Relayout(nodes, f)
  {
    var fr := nodes[f];
    var cs := fr.children;
    ChildrenInRange(nodes, f);
    ghost var cfg := ConfigOf(fr);
    ghost var bs := BoxesOf(nodes, cs);
    var ns := nodes;
    var pen := Pen(fr.frame.padding, fr.frame.padding, 0, 0);
    var i := 0;
    while i < |cs|
      invariant 0 <= i <= |cs|
      invariant ns == WriteBack(nodes, cs[..i], Run(cfg, bs[..i]).0)
      invariant pen == Run(cfg, bs[..i]).1
    {
      var c := cs[i];
      PrefixUntouched(nodes, cs, Run(cfg, bs[..i]).0, i);
      var placed, next := PlaceChild(fr, BoxOf(ns[c]), pen);
      PassStep(nodes, f, i, ns, placed, next);
      ns, pen := ns[c := WithBox(ns[c], placed)], next;
      i := i + 1;
    }
    assert cs[..i] == cs && bs[..i] == bs;
    r := ns[f := WithContentHeight(ns[f], pen.cy + pen.rowH + fr.frame.padding)];
    assert fr.frame.padding == nodes[f].frame.padding;
    assert r == ns[f := WithContentHeight(ns[f], pen.cy + pen.rowH + nodes[f].frame.padding)];
    RelayoutUnfold(nodes, f, ns, pen);
    assert ns[f := WithContentHeight(ns[f], pen.cy + pen.rowH + nodes[f].frame.padding)] == Relayout(nodes, f);
  }

  /**
   * One iteration of the layout loop (sxui.c:530-559) on a child's rectangle
   * b, with the pen (cx, cy, max_row_h, col_count): the rectangle the
   * iteration leaves, and the pen afterwards.
   */
  method PlaceChild(fr: Node, b: Box, pen: Pen) returns (placed: Box, next: Pen)
    ensures (placed, next) == Place(ConfigOf(fr), pen, b)
  {
    ghost var cfg := ConfigOf(fr);
    ghost var p := Place(cfg, pen, b);
    var cx, cy, maxRowH, colCount := pen.cx, pen.cy, pen.rowH, pen.cols;
    placed := b;
    if !b.hidden {
      if placed.w == 0 {
        placed := placed.(w := if fr.targetW > 0 then fr.targetW else 100);
      }
      if placed.h == 0 {
        placed := placed.(h := if fr.targetH > 0 then fr.targetH else 30);
      }
      ghost var w, h := placed.w, placed.h;
      assert w == DefaultW(cfg, b.w) && h == DefaultH(cfg, b.h);
      if Has(fr.flags, LAYOUT_GRID) {
        assert cfg.mode == Grid;
        if cx + placed.w + fr.frame.padding > fr.w || (fr.frame.maxGridCols > 0 && colCount >= fr.frame.maxGridCols) {
          cx := fr.frame.padding;
          cy := cy + maxRowH + fr.frame.spacing;
          maxRowH := 0;
          colCount := 0;
        }
        ghost var q := Pen(cx, cy, maxRowH, colCount);
        assert q == if Wraps(cfg, pen, w) then Pen(cfg.padding, pen.cy + pen.rowH + cfg.spacing, 0, 0) else pen;
        placed := placed.(x := cx, y := cy);
        cx := cx + placed.w + fr.frame.spacing;
        if placed.h > maxRowH {
          maxRowH := placed.h;
        }
        colCount := colCount + 1;
        assert p == (Box(q.cx, q.cy, w, h, false), Pen(q.cx + w + cfg.spacing, q.cy, Max(q.rowH, h), q.cols + 1));
      } else if Has(fr.flags, LAYOUT_HORIZONTAL) {
        assert cfg.mode == Horizontal;
        placed := placed.(x := cx, y := cy);
        cx := cx + placed.w + fr.frame.spacing;
        if placed.h > maxRowH {
          maxRowH := placed.h;
        }
      } else {
        assert cfg.mode == Vertical;
        placed := placed.(x := cx, y := cy);
        cy := cy + placed.h + fr.frame.spacing;
      }
      assert (placed, Pen(cx, cy, maxRowH, colCount)) == p;
    }
    next := Pen(cx, cy, maxRowH, colCount);
  }

  /** The pass on the arena is the loop's written children and final pen, and the frame's content height. */
  lemma RelayoutUnfold(nodes: seq<Node>, f: nat, ns: seq<Node>, pen: Pen)
    requires ChildrenAfter(nodes) && f < |nodes|
    requires var cs := nodes[f].children;
      && InRange(nodes, cs)
      && var out := Run(ConfigOf(nodes[f]), BoxesOf(nodes, cs));
         ns == WriteBack(nodes, cs, out.0) && pen == out.1
    ensures |ns| == |nodes|
    ensures ns[f := WithContentHeight(ns[f], pen.cy + pen.rowH + nodes[f].frame.padding)] == Relayout(nodes, f)
  {
    var cs := nodes[f].children;
    var cfg := ConfigOf(nodes[f]);
    var out := Run(cfg, BoxesOf(nodes, cs));
    var laid := WriteBack(nodes, cs, out.0);
    var r := Relayout(nodes, f);
    assert |r| == |laid|;
    assert r[f] == WithContentHeight(laid[f], out.1.cy + out.1.rowH + cfg.padding);
    assert forall j :: 0 <= j < |r| && j != f ==> r[j] == laid[j];
    var w := ns[f := WithContentHeight(ns[f], pen.cy + pen.rowH + nodes[f].frame.padding)];
    assert laid == ns;
    assert |w| == |r|;
    assert w[f] == r[f];
    assert forall j :: 0 <= j < |r| ==> r[j] == w[j];
  }

  /** The element at position i of a distinct list is not touched by writing back the elements before it. */
  lemma PrefixUntouched(nodes: seq<Node>, cs: seq<nat>, out: seq<Box>, i: nat)
    requires InRange(nodes, cs) && Distinct(cs) && i < |cs| && |out| == i
    ensures WriteBack(nodes, cs[..i], out)[cs[i]] == nodes[cs[i]]
  {
    assert Distinct(cs[..i]);
    assert InRange(nodes, cs[..i]);
    WriteBackAt(nodes, cs[..i], out);
    assert cs[i] !in cs[..i];
  }

  /** The loop invariant of LayoutPass carries over one iteration. */
  lemma PassStep(nodes: seq<Node>, f: nat, i: nat, ns: seq<Node>, placed: Box, next: Pen)
    requires ChildrenAfter(nodes) && f < |nodes| && i < |nodes[f].children|
    requires InRange(nodes, nodes[f].children)
    requires var cs, cfg, bs := nodes[f].children, ConfigOf(nodes[f]), BoxesOf(nodes, nodes[f].children);
      && ns == WriteBack(nodes, cs[..i], Run(cfg, bs[..i]).0)
      && ns[cs[i]] == nodes[cs[i]]
      && (placed, next) == Place(cfg, Run(cfg, bs[..i]).1, BoxOf(ns[cs[i]]))
    ensures var cs, cfg, bs := nodes[f].children, ConfigOf(nodes[f]), BoxesOf(nodes, nodes[f].children);
      && ns[cs[i] := WithBox(ns[cs[i]], placed)] == WriteBack(nodes, cs[..i + 1], Run(cfg, bs[..i + 1]).0)
      && next == Run(cfg, bs[..i + 1]).1
  {
    var cs, cfg, bs := nodes[f].children, ConfigOf(nodes[f]), BoxesOf(nodes, nodes[f].children);
    LayoutStep(nodes, cs, cfg, bs, i);
  }

  /** One iteration of the layout loop extends both the written prefix and the run by one child. */
  lemma LayoutStep(nodes: seq<Node>, cs: seq<nat>, cfg: Config, bs: seq<Box>, i: nat)
    requires InRange(nodes, cs) && |bs| == |cs| && i < |cs|
    ensures var prev := Run(cfg, bs[..i]);
      var placed := Place(cfg, prev.1, bs[i]);
      var before := WriteBack(nodes, cs[..i], prev.0);
      && Run(cfg, bs[..i + 1]) == (prev.0 + [placed.0], placed.1)
      && WriteBack(nodes, cs[..i + 1], Run(cfg, bs[..i + 1]).0) == before[cs[i] := WithBox(before[cs[i]], placed.0)]
  {
    assert bs[..i + 1][..i] == bs[..i];
    var out := Run(cfg, bs[..i + 1]).0;
    assert cs[..i + 1][..i] == cs[..i] && out[..i] == Run(cfg, bs[..i]).0;
  }
}
