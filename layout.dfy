/**
 * The layout engine sx_update_layout (deps/sxui/sxui.c:524-561) as a
 * specification: one pass over a frame's children with a pen (cx, cy,
 * max_row_h, col_count) that places every visible child. The engine's
 * in-place pass over the widget arena is proved against Run.
 */
module Layout {

  /** The three arrangements a frame can use. */
  datatype Mode = Vertical | Horizontal | Grid

  /** What the pass reads from the frame: padding, spacing, el.w, target_w/h, max_grid_cols, the layout flags. */
  datatype Config = Config(padding: int, spacing: int, width: int, targetW: int, targetH: int,
                           maxCols: int, mode: Mode)

  /** What the pass reads and writes of one child: its rectangle, and whether it is hidden. */
  datatype Box = Box(x: int, y: int, w: int, h: int, hidden: bool)

  /** The loop variables: cx, cy, max_row_h and col_count. */
  datatype Pen = Pen(cx: int, cy: int, rowH: int, cols: int)

  function Start(cfg: Config): Pen {
    Pen(cfg.padding, cfg.padding, 0, 0)
  }

  /** A zero width becomes the frame's target width, or 100 when there is none. */
  function DefaultW(cfg: Config, w: int): (r: int)
    ensures r != 0
    ensures w != 0 ==> r == w
  {
    if w == 0 then (if cfg.targetW > 0 then cfg.targetW else 100) else w
  }

  /** A zero height becomes the frame's target height, or 30 when there is none. */
  function DefaultH(cfg: Config, h: int): (r: int)
    ensures r != 0
    ensures h != 0 ==> r == h
  {
    if h == 0 then (if cfg.targetH > 0 then cfg.targetH else 30) else h
  }

  function Max(a: int, b: int): int { if a < b then b else a }

  /** The grid starts a new row when the child would cross the right padding or the row is full. */
  predicate Wraps(cfg: Config, pen: Pen, w: int) {
    pen.cx + w + cfg.padding > cfg.width || (cfg.maxCols > 0 && pen.cols >= cfg.maxCols)
  }

  /** One iteration of the loop: where the child goes, and the pen afterwards. */
  function Place(cfg: Config, pen: Pen, b: Box): (r: (Box, Pen))
    ensures b.hidden ==> r == (b, pen)
    ensures !b.hidden ==> !r.0.hidden && r.0.w == DefaultW(cfg, b.w) && r.0.h == DefaultH(cfg, b.h)
    ensures !b.hidden && cfg.mode != Grid ==> r.0.x == pen.cx && r.0.y == pen.cy
    ensures !b.hidden && cfg.mode == Vertical ==> r.1.cx == pen.cx && r.1.cy == r.0.y + r.0.h + cfg.spacing
    ensures !b.hidden && cfg.mode != Vertical ==> r.1.cx == r.0.x + r.0.w + cfg.spacing && r.1.cy == r.0.y
  {
    if b.hidden then (b, pen)
    else
      var w, h := DefaultW(cfg, b.w), DefaultH(cfg, b.h);
      match cfg.mode
      case Grid =>
        var p := if Wraps(cfg, pen, w) then Pen(cfg.padding, pen.cy + pen.rowH + cfg.spacing, 0, 0) else pen;
        (Box(p.cx, p.cy, w, h, false), Pen(p.cx + w + cfg.spacing, p.cy, Max(p.rowH, h), p.cols + 1))
      case Horizontal =>
        (Box(pen.cx, pen.cy, w, h, false), Pen(pen.cx + w + cfg.spacing, pen.cy, Max(pen.rowH, h), pen.cols))
      case Vertical =>
        (Box(pen.cx, pen.cy, w, h, false), Pen(pen.cx, pen.cy + h + cfg.spacing, pen.rowH, pen.cols))
  }

  /** The whole pass over the children in list order: the boxes afterwards and the final pen. */
  function Run(cfg: Config, bs: seq<Box>): (r: (seq<Box>, Pen))
    ensures |r.0| == |bs|
    decreases |bs|
  {
    if bs == [] then ([], Start(cfg))
    else
      var prev := Run(cfg, bs[..|bs| - 1]);
      var step := Place(cfg, prev.1, bs[|bs| - 1]);
      (prev.0 + [step.0], step.1)
  }

  /** content_height = cy + max_row_h + padding after the pass. */
  function ContentHeight(cfg: Config, bs: seq<Box>): int {
    var pen := Run(cfg, bs).1;
    pen.cy + pen.rowH + cfg.padding
  }

  // ---------------------------------------------------------------------------
  // Reference quantities for the linear modes
  // ---------------------------------------------------------------------------

  /** Total of (height + spacing) over the visible boxes, heights defaulted. */
  function StackHeight(cfg: Config, bs: seq<Box>): int
    decreases |bs|
  {
    if bs == [] then 0
    else
      var b := bs[|bs| - 1];
      StackHeight(cfg, bs[..|bs| - 1]) + (if b.hidden then 0 else DefaultH(cfg, b.h) + cfg.spacing)
  }

  /** Total of (width + spacing) over the visible boxes, widths defaulted. */
  function RowWidth(cfg: Config, bs: seq<Box>): int
    decreases |bs|
  {
    if bs == [] then 0
    else
      var b := bs[|bs| - 1];
      RowWidth(cfg, bs[..|bs| - 1]) + (if b.hidden then 0 else DefaultW(cfg, b.w) + cfg.spacing)
  }

  /** The tallest visible box, heights defaulted, or 0. */
  function TallestOf(cfg: Config, bs: seq<Box>): int
    decreases |bs|
  {
    if bs == [] then 0
    else
      var b := bs[|bs| - 1];
      var rest := TallestOf(cfg, bs[..|bs| - 1]);
      if b.hidden then rest else Max(rest, DefaultH(cfg, b.h))
  }

  // ---------------------------------------------------------------------------
  // Properties of the pass
  // ---------------------------------------------------------------------------

  /** Box k is placed with the pen the first k boxes leave behind. */
  lemma {:induction false} RunAt(cfg: Config, bs: seq<Box>, k: int)
    requires 0 <= k < |bs|
    ensures |Run(cfg, bs).0| == |bs|
    ensures Run(cfg, bs).0[k] == Place(cfg, Run(cfg, bs[..k]).1, bs[k]).0
    decreases |bs|
  {
    var n := |bs| - 1;
    assert bs[..n][..n] == bs[..n];
    if k < n {
      RunAt(cfg, bs[..n], k);
      assert bs[..n][..k] == bs[..k];
    } else {
      if n > 0 {
        RunAt(cfg, bs[..n], n - 1);
      }
    }
  }

  /**
   * Hidden children are left as they are; every visible child keeps its
   * non-zero sizes and gets the default for a zero one.
   */
  lemma RunShape(cfg: Config, bs: seq<Box>, k: int)
    requires 0 <= k < |bs|
    ensures |Run(cfg, bs).0| == |bs|
    ensures var out := Run(cfg, bs).0[k];
      if bs[k].hidden then out == bs[k]
      else !out.hidden && out.w == DefaultW(cfg, bs[k].w) && out.h == DefaultH(cfg, bs[k].h)
  {
    RunAt(cfg, bs, k);
  }

  /** In vertical mode the pen stays at x = padding and moves down by height + spacing per visible child. */
  lemma {:induction false} VerticalPen(cfg: Config, bs: seq<Box>)
    requires cfg.mode == Vertical
    ensures Run(cfg, bs).1 == Pen(cfg.padding, cfg.padding + StackHeight(cfg, bs), 0, 0)
    decreases |bs|
  {
    if bs != [] {
      VerticalPen(cfg, bs[..|bs| - 1]);
    }
  }

  /** Vertical mode: every visible child at x = padding, below the visible children before it. */
  lemma VerticalPositions(cfg: Config, bs: seq<Box>, k: int)
    requires cfg.mode == Vertical && 0 <= k < |bs| && !bs[k].hidden
    ensures |Run(cfg, bs).0| == |bs|
    ensures Run(cfg, bs).0[k].x == cfg.padding
    ensures Run(cfg, bs).0[k].y == cfg.padding + StackHeight(cfg, bs[..k])
    ensures ContentHeight(cfg, bs) == 2 * cfg.padding + StackHeight(cfg, bs)
  {
    RunAt(cfg, bs, k);
    VerticalPen(cfg, bs[..k]);
    VerticalPen(cfg, bs);
  }

  /** In horizontal mode the pen stays at y = padding and moves right by width + spacing per visible child. */
  lemma {:induction false} HorizontalPen(cfg: Config, bs: seq<Box>)
    requires cfg.mode == Horizontal
    ensures Run(cfg, bs).1 == Pen(cfg.padding + RowWidth(cfg, bs), cfg.padding, TallestOf(cfg, bs), 0)
    decreases |bs|
  {
    if bs != [] {
      HorizontalPen(cfg, bs[..|bs| - 1]);
    }
  }

  /** Horizontal mode: every visible child at y = padding, right of the visible children before it. */
  lemma HorizontalPositions(cfg: Config, bs: seq<Box>, k: int)
    requires cfg.mode == Horizontal && 0 <= k < |bs| && !bs[k].hidden
    ensures |Run(cfg, bs).0| == |bs|
    ensures Run(cfg, bs).0[k].x == cfg.padding + RowWidth(cfg, bs[..k])
    ensures Run(cfg, bs).0[k].y == cfg.padding
    ensures ContentHeight(cfg, bs) == 2 * cfg.padding + TallestOf(cfg, bs)
  {
    RunAt(cfg, bs, k);
    HorizontalPen(cfg, bs[..k]);
    HorizontalPen(cfg, bs);
  }

  /**
   * Grid mode: a visible child that starts a new row goes to x = padding, one
   * spacing below the tallest child of the row before; a child that continues
   * the row goes where the pen stands and ends within the right padding.
   */
  lemma GridFits(cfg: Config, bs: seq<Box>, k: int)
    requires cfg.mode == Grid && 0 <= k < |bs| && !bs[k].hidden
    ensures |Run(cfg, bs).0| == |bs|
    ensures var b, pen := Run(cfg, bs).0[k], Run(cfg, bs[..k]).1;
      if Wraps(cfg, pen, b.w) then b.x == cfg.padding && b.y == pen.cy + pen.rowH + cfg.spacing
      else b.x == pen.cx && b.y == pen.cy && b.x + b.w + cfg.padding <= cfg.width
  {
    RunAt(cfg, bs, k);
  }

  /**
   * Grid mode with a column limit: col_count, the number of children in the
   * current row, never exceeds max_grid_cols.
   */
  lemma {:induction false} GridRowsBounded(cfg: Config, bs: seq<Box>)
    requires cfg.mode == Grid && cfg.maxCols > 0
    ensures 0 <= Run(cfg, bs).1.cols <= cfg.maxCols
    decreases |bs|
  {
    if bs != [] {
      GridRowsBounded(cfg, bs[..|bs| - 1]);
    }
  }

  /**
   * The grid wrap test also runs for the first child: one that does not fit
   * the frame's width is still moved to a "new row" at y = padding + spacing.
   */
  lemma GridFirstChildWraps(cfg: Config, b: Box)
    requires cfg.mode == Grid && !b.hidden
    requires 2 * cfg.padding + DefaultW(cfg, b.w) > cfg.width
    ensures Run(cfg, [b]).0 == [Box(cfg.padding, cfg.padding + cfg.spacing, DefaultW(cfg, b.w), DefaultH(cfg, b.h), false)]
  {
    assert [b][..0] == [];
  }

  /** A grid 300 wide with padding and spacing 10 fits one 200-wide child per row. */
  lemma GridScenario()
    ensures var cfg := Config(10, 10, 300, 0, 0, 0, Grid);
      Run(cfg, [Box(0, 0, 200, 30, false), Box(0, 0, 200, 30, false)]).0
        == [Box(10, 10, 200, 30, false), Box(10, 50, 200, 30, false)]
  {
    var cfg := Config(10, 10, 300, 0, 0, 0, Grid);
    var bs := [Box(0, 0, 200, 30, false), Box(0, 0, 200, 30, false)];
    assert bs[..1] == [bs[0]] && bs[..1][..0] == [];
  }

  /** Placing an already placed box again, with the same pen, changes nothing. */
  lemma PlaceAgain(cfg: Config, pen: Pen, b: Box)
    ensures Place(cfg, pen, Place(cfg, pen, b).0) == Place(cfg, pen, b)
  {
  }

  /** A second pass over the result of a pass alters nothing. */
  lemma {:induction false} RunIdempotent(cfg: Config, bs: seq<Box>)
    ensures Run(cfg, Run(cfg, bs).0) == Run(cfg, bs)
    decreases |bs|
  {
    if bs != [] {
      var n := |bs| - 1;
      var prev := Run(cfg, bs[..n]);
      var out := Run(cfg, bs).0;
      RunAt(cfg, bs, 0);
      assert out == prev.0 + [Place(cfg, prev.1, bs[n]).0];
      assert out[..n] == prev.0;
      RunIdempotent(cfg, bs[..n]);
      PlaceAgain(cfg, prev.1, bs[n]);
    }
  }
}
