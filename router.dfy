/**
 * The input router of sxui_poll_events (deps/sxui/sxui.c:673-773) as
 * functions on values: what one mouse press, release, wheel step or key
 * event does to the arena, to the focus and drag state, and which callbacks
 * it runs. The engine's methods perform these steps in place and are proved
 * against these functions.
 */
module Router {
  import opened Wrappers
  import opened Flags
  import opened Bindings
  import opened Widgets
  import TextEdit

  /** engine.focused only ever holds an input or a slider. */
  ghost predicate FocusOk(nodes: seq<Node>, focused: Option<nat>) {
    focused.Some? ==> focused.value < |nodes| && (nodes[focused.value].kind.Input? || nodes[focused.value].kind.Slider?)
  }

  /** focused, dragging_el, drag_off_x and drag_off_y. */
  datatype Grip = Grip(focused: Option<nat>, dragging: Option<nat>, offX: int, offY: int)

  /** The arena, focus and drag state and callbacks after a step. */
  datatype Outcome = Outcome(nodes: seq<Node>, grip: Grip, calls: seq<Call>)

  /** trigger_focus on element e. */
  function FocusCalls(nodes: seq<Node>, e: nat, on: bool): (r: seq<Call>)
    requires e < |nodes|
    ensures |r| == |ListOf(nodes[e], OnFocusChanged)|
  {
    Calls(ListOf(nodes[e], OnFocusChanged), e, OnFocusChanged, Flag(on))
  }

  // ---------------------------------------------------------------------------
  // Mouse button down (sxui.c:683-736)
  // ---------------------------------------------------------------------------

  /**
   * A press on hit, with the mouse at (mx, my). A focused element other than
   * hit loses focus first, notified if it is an input. A draggable hit starts
   * a drag; a button is pressed and clicked, a checkbox toggled and
   * notified, a slider focused, and an input focused and notified unless it
   * already had focus. (Moving an input's caret to its end is done on the
   * input itself.)
   */
  function Press(nodes: seq<Node>, p: Grip, hit: Option<nat>, mx: int, my: int): (r: Outcome)
    requires hit.Some? ==> hit.value < |nodes|
    requires p.focused.Some? ==> p.focused.value < |nodes|
    ensures |r.nodes| == |nodes|
  {
    var unfocus := p.focused.Some? && p.focused != hit;
    var lost := if unfocus && nodes[p.focused.value].kind.Input? then FocusCalls(nodes, p.focused.value, false) else [];
    var focused := if unfocus then None else p.focused;
    match hit
    case None => Outcome(nodes, p.(focused := focused), lost)
    case Some(h) =>
      var n := nodes[h];
      var grip := if Has(n.flags, DRAGGABLE) then Grip(focused, Some(h), mx - n.x, my - n.y)
                  else p.(focused := focused);
      match n.kind
      case Button => Outcome(nodes[h := n.(pressed := true)], grip, lost + Calls(ListOf(n, OnClick), h, OnClick, NoArg))
      case Checkbox =>
        Outcome(nodes[h := n.(checked := !n.checked)], grip,
                lost + Calls(ListOf(n, OnValueChanged), h, OnValueChanged, Flag(!n.checked)))
      case Slider => Outcome(nodes, grip.(focused := Some(h)), lost)
      case Input(_) =>
        if focused != Some(h) then Outcome(nodes, grip.(focused := Some(h)), lost + FocusCalls(nodes, h, true))
        else Outcome(nodes, grip, lost)
      case _ => Outcome(nodes, grip, lost)
  }

  /**
   * The mouse-down branch as the source runs it: the old focus is dropped
   * (an input told so), a draggable hit starts a drag, then the hit's type
   * decides what it does.
   */
  method PressStep(nodes: seq<Node>, p: Grip, hit: Option<nat>, mx: int, my: int) returns (o: Outcome)
    requires hit.Some? ==> hit.value < |nodes|
    requires p.focused.Some? ==> p.focused.value < |nodes|
    ensures o == Press(nodes, p, hit, mx, my)
  {
    var ns := nodes;
    var foc, drg, ox, oy := p.focused, p.dragging, p.offX, p.offY;
    var calls: seq<Call> := [];
    if foc.Some? && foc != hit {
      if ns[foc.value].kind.Input? {
        calls := FocusCalls(ns, foc.value, false);
      }
      foc := None;
    }
    if hit.Some? {
      var h := hit.value;
      var n := ns[h];
      if Has(n.flags, DRAGGABLE) {
        drg, ox, oy := Some(h), mx - n.x, my - n.y;
      }
      if n.kind.Button? {
        ns := ns[h := n.(pressed := true)];
        calls := calls + Calls(ListOf(n, OnClick), h, OnClick, NoArg);
      } else if n.kind.Checkbox? {
        ns := ns[h := n.(checked := !n.checked)];
        calls := calls + Calls(ListOf(n, OnValueChanged), h, OnValueChanged, Flag(!n.checked));
      } else if n.kind.Slider? {
        foc := Some(h);
      } else if n.kind.Input? {
        if foc != Some(h) {
          foc := Some(h);
          calls := calls + FocusCalls(ns, h, true);
        }
      }
    }
    o := Outcome(ns, Grip(foc, drg, ox, oy), calls);
  }

  /**
   * After a press the focus is exactly the pressed element when that is an
   * input or a slider, and nothing otherwise: a press elsewhere, or on
   * nothing, always clears it.
   */
  lemma PressFocus(nodes: seq<Node>, p: Grip, hit: Option<nat>, mx: int, my: int)
    requires hit.Some? ==> hit.value < |nodes|
    requires FocusOk(nodes, p.focused)
    ensures var k := if hit.Some? then Some(nodes[hit.value].kind) else None;
      Press(nodes, p, hit, mx, my).grip.focused ==
        if k.Some? && (k.value.Input? || k.value.Slider?) then hit else None
  {
  }

  /** The focus ends up valid. */
  lemma PressFocusOk(nodes: seq<Node>, p: Grip, hit: Option<nat>, mx: int, my: int)
    requires hit.Some? ==> hit.value < |nodes|
    requires FocusOk(nodes, p.focused)
    ensures |Press(nodes, p, hit, mx, my).nodes| == |nodes|
    ensures FocusOk(Press(nodes, p, hit, mx, my).nodes, Press(nodes, p, hit, mx, my).grip.focused)
  {
    PressFocus(nodes, p, hit, mx, my);
  }

  /** The callbacks a press runs besides focus ones: a button's click, a checkbox's new value. */
  function ActionCalls(nodes: seq<Node>, hit: Option<nat>): seq<Call>
    requires hit.Some? ==> hit.value < |nodes|
  {
    if hit.None? then []
    else
      var h := hit.value;
      var n := nodes[h];
      if n.kind.Button? then Calls(ListOf(n, OnClick), h, OnClick, NoArg)
      else if n.kind.Checkbox? then Calls(ListOf(n, OnValueChanged), h, OnValueChanged, Flag(!n.checked))
      else []
  }

  /**
   * The callbacks of a press, in order: a focused input other than hit is
   * told it lost focus, then a button's click callbacks or a checkbox's value
   * callbacks run, and an input that gains focus is told so last; a press on
   * the element that already has focus notifies nothing about focus.
   */
  lemma PressFocusCalls(nodes: seq<Node>, p: Grip, hit: Option<nat>, mx: int, my: int)
    requires hit.Some? ==> hit.value < |nodes|
    requires FocusOk(nodes, p.focused)
    ensures var r := Press(nodes, p, hit, mx, my);
      && (p.focused.Some? && p.focused != hit && nodes[p.focused.value].kind.Input? ==>
            var lost := FocusCalls(nodes, p.focused.value, false);
            |lost| <= |r.calls| && r.calls[..|lost|] == lost)
      && (hit.Some? && nodes[hit.value].kind.Input? && p.focused != hit ==>
            var got := FocusCalls(nodes, hit.value, true);
            |got| <= |r.calls| && r.calls[|r.calls| - |got|..] == got)
      && (p.focused == hit ==> r.calls == ActionCalls(nodes, hit))
      && r.calls ==
           (if p.focused.Some? && p.focused != hit && nodes[p.focused.value].kind.Input?
            then FocusCalls(nodes, p.focused.value, false) else [])
           + ActionCalls(nodes, hit)
           + (if hit.Some? && nodes[hit.value].kind.Input? && p.focused != hit
              then FocusCalls(nodes, hit.value, true) else [])
  {
  }

  /**
   * A press changes at most the pressed element, and of it only the pressed
   * mark of a button and the value of a checkbox, whose value toggles (the
   * callbacks that run are stated by PressFocusCalls).
   */
  lemma PressChanges(nodes: seq<Node>, p: Grip, hit: Option<nat>, mx: int, my: int)
    requires hit.Some? ==> hit.value < |nodes|
    requires p.focused.Some? ==> p.focused.value < |nodes|
    ensures var r := Press(nodes, p, hit, mx, my);
      && |r.nodes| == |nodes|
      && (forall j :: 0 <= j < |nodes| && Some(j) != hit ==> r.nodes[j] == nodes[j])
      && (hit.Some? ==>
            var h := hit.value;
            && r.nodes[h] == nodes[h].(pressed := r.nodes[h].pressed, checked := r.nodes[h].checked)
            && (r.nodes[h].checked != nodes[h].checked <==> nodes[h].kind.Checkbox?)
            && (r.nodes[h].pressed != nodes[h].pressed ==> nodes[h].kind.Button?)
            && (nodes[h].kind.Button? ==> r.nodes[h].pressed))
  {
  }

  /**
   * A draggable element starts a drag when pressed, with the offset that keeps
   * it under the same point of the mouse; a press on anything else leaves the
   * drag state as it was.
   */
  lemma PressDrag(nodes: seq<Node>, p: Grip, hit: Option<nat>, mx: int, my: int)
    requires hit.Some? ==> hit.value < |nodes|
    requires p.focused.Some? ==> p.focused.value < |nodes|
    ensures var r := Press(nodes, p, hit, mx, my);
      if hit.Some? && Has(nodes[hit.value].flags, DRAGGABLE) then
        r.grip.dragging == hit && nodes[hit.value].x + r.grip.offX == mx && nodes[hit.value].y + r.grip.offY == my
      else
        r.grip.dragging == p.dragging && r.grip.offX == p.offX && r.grip.offY == p.offY
  {
  }

  // ---------------------------------------------------------------------------
  // Mouse button up (sxui.c:738-745) and the drag move (sxui.c:770-773)
  // ---------------------------------------------------------------------------

  /** A release ends any drag and takes the focus from a slider. */
  function Release(nodes: seq<Node>, p: Grip): (r: Grip)
    requires p.focused.Some? ==> p.focused.value < |nodes|
    ensures r.dragging.None? && r.offX == p.offX && r.offY == p.offY
    ensures r.focused.None? || r.focused == p.focused
    ensures r.focused == p.focused <==> p.focused.None? || !nodes[p.focused.value].kind.Slider?
  {
    var focused := if p.focused.Some? && nodes[p.focused.value].kind.Slider? then None else p.focused;
    Grip(focused, None, p.offX, p.offY)
  }

  /** After a release nothing is dragged and only an input can keep the focus, which it does. */
  lemma ReleaseFocus(nodes: seq<Node>, p: Grip)
    requires FocusOk(nodes, p.focused)
    ensures var r := Release(nodes, p);
      && r.dragging.None?
      && (r.focused.Some? ==> r.focused == p.focused && nodes[r.focused.value].kind.Input?)
      && (p.focused.Some? && nodes[p.focused.value].kind.Input? ==> r.focused == p.focused)
  {
  }

  /** The dragged element moves so that its offset from the mouse stays the same. */
  function DragMove(nodes: seq<Node>, p: Grip, mx: int, my: int): (r: seq<Node>)
    requires p.dragging.Some? ==> p.dragging.value < |nodes|
    ensures |r| == |nodes|
    ensures p.dragging.None? ==> r == nodes
    ensures forall j :: 0 <= j < |nodes| && Some(j) != p.dragging ==> r[j] == nodes[j]
    ensures p.dragging.Some? ==> r[p.dragging.value].x + p.offX == mx && r[p.dragging.value].y + p.offY == my
  {
    match p.dragging
    case None => nodes
    case Some(d) => nodes[d := nodes[d].(x := mx - p.offX, y := my - p.offY)]
  }

  /**
   * Pressing a draggable element at (mx0, my0) and polling with the mouse at
   * (mx, my) moves the element by exactly the mouse's displacement.
   */
  lemma DragFollowsMouse(nodes: seq<Node>, p: Grip, h: nat, mx0: int, my0: int, mx: int, my: int)
    requires h < |nodes| && Has(nodes[h].flags, DRAGGABLE)
    requires FocusOk(nodes, p.focused)
    ensures var r := Press(nodes, p, Some(h), mx0, my0);
      && r.grip.dragging == Some(h) && |r.nodes| == |nodes|
      && DragMove(r.nodes, r.grip, mx, my)[h].x == nodes[h].x + (mx - mx0)
      && DragMove(r.nodes, r.grip, mx, my)[h].y == nodes[h].y + (my - my0)
  {
    PressDrag(nodes, p, Some(h), mx0, my0);
    PressChanges(nodes, p, Some(h), mx0, my0);
  }

  // ---------------------------------------------------------------------------
  // Mouse wheel (sxui.c:747-761)
  // ---------------------------------------------------------------------------

  /** A wheel step of dy notches over hit scrolls the nearest scrollable frame at or above it. */
  function WheelOf(nodes: seq<Node>, hit: Option<nat>, dy: int): (r: seq<Node>)
    requires ParentsBefore(nodes) && (hit.Some? ==> hit.value < |nodes|)
    ensures |r| == |nodes|
  {
    match hit
    case None => nodes
    case Some(h) =>
      match ScrollTarget(nodes, h)
      case None => nodes
      case Some(t) =>
        var f := nodes[t].frame;
        nodes[t := nodes[t].(frame := f.(scrollY := ScrollBy(f.scrollY, dy, f.contentHeight, nodes[t].h)))]
  }

  /**
   * The loop of the wheel branch: walk up from the element under the mouse
   * to the first scrollable frame, move its scroll by 40 pixels a notch,
   * clamp it, and stop.
   */
  method WheelStep(nodes: seq<Node>, hit: Option<nat>, dy: int) returns (r: seq<Node>)
    requires ParentsBefore(nodes) && (hit.Some? ==> hit.value < |nodes|)
    ensures r == WheelOf(nodes, hit, dy)
  {
    var cur: Option<nat> := hit;
    while cur.Some?
      invariant cur.Some? ==> hit.Some? && cur.value < |nodes| && ScrollTarget(nodes, cur.value) == ScrollTarget(nodes, hit.value)
      invariant cur.None? ==> hit.None? || ScrollTarget(nodes, hit.value).None?
      decreases if cur.Some? then cur.value + 1 else 0
    {
      var n := nodes[cur.value];
      if n.kind.Frame? && Has(n.flags, SCROLLABLE) {
        var f := n.frame;
        var s := f.scrollY - dy * 40;
        if s < 0 {
          s := 0;
        }
        var limit := f.contentHeight - n.h;
        if s > limit && limit > 0 {
          s := limit;
        }
        return nodes[cur.value := n.(frame := f.(scrollY := s))];
      }
      cur := n.parent;
    }
    return nodes;
  }

  /**
   * A wheel step changes the scroll of one frame, the nearest scrollable frame
   * at or above the element under the mouse, and nothing else; with no such
   * frame it changes nothing.
   */
  lemma WheelScrollsOne(nodes: seq<Node>, hit: Option<nat>, dy: int)
    requires ParentsBefore(nodes) && (hit.Some? ==> hit.value < |nodes|)
    ensures var r := WheelOf(nodes, hit, dy);
      && |r| == |nodes|
      && (forall j :: 0 <= j < |nodes| ==> r[j] == nodes[j].(frame := nodes[j].frame.(scrollY := r[j].frame.scrollY)))
      && (hit.None? || ScrollTarget(nodes, hit.value).None? ==> r == nodes)
      && (hit.Some? && ScrollTarget(nodes, hit.value).Some? ==>
            var t := ScrollTarget(nodes, hit.value).value;
            && (forall j :: 0 <= j < |nodes| && j != t ==> r[j] == nodes[j])
            && r[t].frame.scrollY >= 0
            && r[t].frame.scrollY == ScrollBy(nodes[t].frame.scrollY, dy, nodes[t].frame.contentHeight, nodes[t].h))
  {
  }

  // ---------------------------------------------------------------------------
  // Key and text events (sxui.c:763-767, 482-486)
  // ---------------------------------------------------------------------------

  /** The callbacks run for what read_input reports, in order, on input e. */
  function FireCalls(n: Node, e: nat, fired: seq<TextEdit.Fire>): (r: seq<Call>)
    ensures forall c :: c in r ==> c.element == e && c.channel in {OnTextChanged, OnSubmit, OnFocusChanged}
    ensures (forall k :: 0 <= k < |fired| ==> fired[k].TextChanged?) ==> forall c :: c in r ==> c.channel == OnTextChanged
    decreases |fired|
  {
    if fired == [] then []
    else
      var f := fired[0];
      var here := match f
        case TextChanged(t) => Calls(ListOf(n, OnTextChanged), e, OnTextChanged, Text(t))
        case Submitted(t) => Calls(ListOf(n, OnSubmit), e, OnSubmit, Text(t))
        case FocusLost => Calls(ListOf(n, OnFocusChanged), e, OnFocusChanged, Flag(false));
      here + FireCalls(n, e, fired[1..])
  }

  /** The callbacks of a list of reports are those of its parts, one after the other. */
  lemma {:induction false} FireCallsJoin(n: Node, e: nat, a: seq<TextEdit.Fire>, b: seq<TextEdit.Fire>)
    ensures FireCalls(n, e, a + b) == FireCalls(n, e, a) + FireCalls(n, e, b)
    decreases |a|
  {
    if a != [] {
      assert (a + b)[0] == a[0] && (a + b)[1..] == a[1..] + b;
      FireCallsJoin(n, e, a[1..], b);
    } else {
      assert a + b == b;
    }
  }

  /**
   * Enter on a focused input runs its submit callbacks with the text, then its
   * focus callbacks with 0.
   */
  lemma EnterCalls(n: Node, e: nat, t: seq<char>)
    ensures FireCalls(n, e, [TextEdit.Submitted(t), TextEdit.FocusLost])
         == Calls(ListOf(n, OnSubmit), e, OnSubmit, Text(t)) + Calls(ListOf(n, OnFocusChanged), e, OnFocusChanged, Flag(false))
  {
    assert [TextEdit.Submitted(t), TextEdit.FocusLost][1..] == [TextEdit.FocusLost];
    assert [TextEdit.FocusLost][1..] == [];
    assert FireCalls(n, e, [TextEdit.FocusLost]) == Calls(ListOf(n, OnFocusChanged), e, OnFocusChanged, Flag(false));
  }
}
