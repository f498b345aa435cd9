/**
 * The engine of deps/sxui/sxui.c: the widget arena, the focus and drag
 * state, the binding id counter and the record of callbacks run, with the
 * public operations that create widgets, change them, bind and unbind
 * callbacks and route input events.
 */
module Sxui {
  import opened Wrappers
  import opened Flags
  import opened Layout
  import opened Bindings
  import opened Widgets
  import opened Arena
  import opened Hover
  import opened Router
  import TextEdit
  import Colors
  import opened Build

  /** An editor with its caret and anchor both at the end of its text. */
  predicate EditorAtEnd(t: TextEdit.TextInput)
    reads t
  {
    t.cursor == |t.text| && t.anchor == |t.text|
  }

  /**
   * UIConnection: the id of a binding and the list it went on, named by the
   * element and the channel; {0, NULL} when nothing was bound.
   */
  datatype Connection = Connection(id: int, list: Option<(nat, Channel)>)

  /** The events the router tells apart; any other SDL event is ignored. */
  datatype Event = QuitEvent | ButtonDown | ButtonUp | WheelMoved(dy: int) | KeyEvent(ev: TextEdit.InputEvent) | OtherEvent

  /** Whether focused names an input: key and text events go to its editor. */
  predicate FocusedInput(nodes: seq<Node>, focused: Option<nat>) {
    focused.Some? && focused.value < |nodes| && nodes[focused.value].kind.Input?
  }

  /** The editor of element el when it is an input. */
  function EditorAt(nodes: seq<Node>, el: Option<nat>): (r: Option<TextEdit.TextInput>)
    ensures r.Some? <==> el.Some? && el.value < |nodes| && nodes[el.value].kind.Input?
  {
    if el.Some? && el.value < |nodes| && nodes[el.value].kind.Input? then Some(nodes[el.value].kind.field) else None
  }

  /**
   * What read_input does to input n's editor for one event (sxui.c:334-517):
   * typed text is inserted, a key is handled as TextEdit.KeyHandled says,
   * and the view scrolls to the caret within the input's width less 10,
   * measuring asterisks for a password input.
   */
  twostate predicate EditorRead(n: Node, ev: TextEdit.InputEvent, clipIn: seq<char>, clip: seq<char>,
                                fired: seq<TextEdit.Fire>, leaveFocus: bool, measure: seq<char> -> nat)
    requires n.kind.Input? && old(n.kind.field.Valid())
    reads n.kind.field
  {
    var t := n.kind.field;
    var password := Has(n.flags, PASSWORD);
    && (ev.TextTyped? ==>
          && t.State() == TextEdit.InsertOf(old(t.State()), ev.chars)
          && fired == TextEdit.InsertFired(old(t.State()), ev.chars) && clip == clipIn && !leaveFocus)
    && (ev.KeyDown? ==>
          TextEdit.KeyHandled(old(t.State()), ev.key, ev.shift, ev.ctrl, clipIn, t.State(), clip, fired, leaveFocus))
    && t.Valid()
    && t.scrollOffset == TextEdit.ScrollAfter(old(t.scrollOffset), TextEdit.CaretX(t.State(), password, measure),
                                              TextEdit.TextWidth(t.State(), password, measure), n.w - 10)
  }

  /** read_input on input n: its editor reads the event with the input's width and password flag. */
  method ReadFocused(n: Node, ev: TextEdit.InputEvent, clipboard: seq<char>, measure: seq<char> -> nat)
    returns (clip: seq<char>, fired: seq<TextEdit.Fire>, leaveFocus: bool)
    requires n.kind.Input? && n.kind.field.Valid()
    modifies n.kind.field
    ensures n.kind.field.Valid() && EditorRead(n, ev, clipboard, clip, fired, leaveFocus, measure)
  {
    clip, fired, leaveFocus := n.kind.field.ReadInput(ev, clipboard, n.w, Has(n.flags, PASSWORD), measure);
  }

  /** The editor of an input is one of the arena's editors. */
  lemma EditorAtIn(nodes: seq<Node>, el: Option<nat>)
    ensures EditorsIn(EditorAt(nodes, el)) <= InputsOf(nodes)
  {
    if EditorAt(nodes, el).Some? {
      assert nodes[el.value].kind.field in InputsOf(nodes);
    }
  }

  /** The editors an optional editor names. */
  function EditorsIn(t: Option<TextEdit.TextInput>): set<TextEdit.TextInput> {
    if t.Some? then {t.value} else {}
  }

  /** Whether el names a frame (the guard of every frame setter). */
  predicate IsFrame(nodes: seq<Node>, el: Option<nat>) {
    el.Some? && el.value < |nodes| && nodes[el.value].kind.Frame?
  }

  /** The engine: SXUI_Engine, the arena of all elements, the id counter, and the callbacks run so far. */
  class Engine {
    var nodes: seq<Node>
    var root: seq<nat>
    var focused: Option<nat>
    var dragging: Option<nat>
    var dragOffX: int
    var dragOffY: int
    var running: bool
    var lastId: int
    var log: seq<Call>
    var theme: Colors.Theme

    /** The arena invariant, and every input owns a well-formed editor. */
    ghost predicate Valid()
      reads this, InputsOf(nodes)
    {
      Sound(nodes, root, lastId, focused, dragging) && EditorsValid(nodes)
    }

    function GripOf(): Grip
      reads this
    {
      Grip(focused, dragging, dragOffX, dragOffY)
    }

    /** sxui_init without the window: no elements, nothing focused or dragged, running, the dark palette of seed. */
    constructor (seed: bv32)
      ensures Valid()
      ensures nodes == [] && root == [] && focused.None? && dragging.None? && running && lastId == 0 && log == []
      ensures theme == Colors.GeneratePalette(seed, Colors.Dark)
    {
      nodes, root := [], [];
      focused, dragging := None, None;
      dragOffX, dragOffY := 0, 0;
      running := true;
      lastId := 0;
      log := [];
      theme := Colors.GeneratePalette(seed, Colors.Dark);
    }

    /** sxui_set_theme. */
    method SetTheme(seed: bv32, mode: Colors.ThemeMode)
      modifies this`theme
      ensures theme == Colors.GeneratePalette(seed, mode)
    {
      theme := Colors.GeneratePalette(seed, mode);
    }

    /** sxui_should_quit. */
    function ShouldQuit(): (r: bool)
      reads this
      ensures r <==> !running
    {
      !running
    }

    /** sx_update_layout on the engine's arena: the pass of LayoutPass, which keeps the engine valid. */
    method UpdateLayout(f: nat)
      requires Valid() && f < |nodes| && nodes[f].kind.Frame?
      modifies this`nodes
      ensures Valid()
      ensures nodes == Relayout(old(nodes), f)
    {
      var laid := LayoutPass(nodes, f);
      RelayoutWiring(nodes, root, f);
      RewiredSound(nodes, laid, root, lastId, focused, dragging);
      Replace(laid);
    }

    /**
     * _add_to_parent (sxui.c:602-610): the element goes at the end of its
     * parent's children, or of the top-level list, and a frame parent is laid
     * out again. The new element's index is returned.
     */
    method AddToParent(parent: Option<nat>, n: Node) returns (id: nat)
      requires Valid() && (parent.Some? ==> parent.value < |nodes|) && Unlinked(n, lastId)
      requires n.kind.Input? ==> n.kind.field !in InputsOf(nodes) && n.kind.field.Valid()
      modifies this`nodes, this`root
      ensures Valid() && id == old(|nodes|)
      ensures (nodes, root) == Added(old(nodes), old(root), parent, n)
    {
      id := |nodes|;
      var l := Linked(nodes, root, parent, n);
      LinkedSound(nodes, root, lastId, focused, dragging, parent, n);
      EditorsJoin(nodes, l.0, n);
      nodes, root := l.0, l.1;
      EditorsKept(l.0);
      if parent.Some? && nodes[parent.value].kind.Frame? {
        UpdateLayout(parent.value);
      }
    }

    // -------------------------------------------------------------------------
    // Widget creation (sxui.c:802-858)
    // -------------------------------------------------------------------------

    /** sxui_frame. */
    method NewFrame(parent: Option<nat>, x: int, y: int, w: int, h: int, flags: bv32) returns (id: nat)
      requires Valid() && (parent.Some? ==> parent.value < |nodes|)
      modifies this`nodes, this`root
      ensures Valid() && id == old(|nodes|)
      ensures (nodes, root) == Added(old(nodes), old(root), parent, FrameNode(x, y, w, h, flags))
    {
      var n := Fresh(Frame, x, y, w, h, NONE, []);
      n := n.(flags := flags, frame := n.frame.(padding := 10, spacing := 8, scrollBarWidth := 6));
      id := AddToParent(parent, n);
    }

    /** sxui_button: the click callback, when given, is bound under a new id before the button is linked. */
    method NewButton(parent: Option<nat>, caption: seq<char>, cb: Option<Callback>) returns (id: nat)
      requires Valid() && (parent.Some? ==> parent.value < |nodes|)
      modifies this`nodes, this`root, this`lastId
      ensures Valid() && id == old(|nodes|)
      ensures lastId == old(lastId) + (if cb.Some? then 1 else 0)
      ensures (nodes, root) == Added(old(nodes), old(root), parent, ButtonNode(caption, cb, lastId))
    {
      if cb.Some? {
        lastId := lastId + 1;
        SoundGrow(nodes, root, lastId - 1, lastId, focused, dragging);
      }
      ButtonUnlinked(caption, cb, lastId);
      id := AddToParent(parent, ButtonNode(caption, cb, lastId));
    }

    /** sxui_label. */
    method NewLabel(parent: Option<nat>, text: seq<char>) returns (id: nat)
      requires Valid() && (parent.Some? ==> parent.value < |nodes|)
      modifies this`nodes, this`root
      ensures Valid() && id == old(|nodes|)
      ensures (nodes, root) == Added(old(nodes), old(root), parent, LabelNode(text))
    {
      id := AddToParent(parent, Fresh(Label, 0, 0, 0, 0, NONE, text));
    }

    /** sxui_input: a new, empty editor of its own. */
    method NewInput(parent: Option<nat>, placeholder: seq<char>, isPass: bool) returns (id: nat)
      requires Valid() && (parent.Some? ==> parent.value < |nodes|)
      modifies this`nodes, this`root
      ensures Valid() && id == old(|nodes|) && id < |nodes| && nodes[id].kind.Input?
      ensures var t := nodes[id].kind.field; fresh(t) && t.text == [] && t.cursor == 0 && t.anchor == 0
      ensures (nodes, root) == Added(old(nodes), old(root), parent, InputNode(placeholder, isPass, nodes[id].kind.field))
    {
      var t := new TextEdit.TextInput();
      var n := Fresh(Input(t), 0, 0, 0, 0, NONE, TextEdit.Truncate(placeholder));
      if isPass {
        n := n.(flags := Set(n.flags, PASSWORD));
      }
      AddedPlacement(nodes, root, parent, n);
      id := AddToParent(parent, n);
    }

    /** sxui_checkbox. */
    method NewCheckbox(parent: Option<nat>, caption: seq<char>) returns (id: nat)
      requires Valid() && (parent.Some? ==> parent.value < |nodes|)
      modifies this`nodes, this`root
      ensures Valid() && id == old(|nodes|)
      ensures (nodes, root) == Added(old(nodes), old(root), parent, CheckboxNode(caption))
    {
      id := AddToParent(parent, Fresh(Checkbox, 0, 0, 0, 0, NONE, caption));
    }

    /** sxui_slider, without its initial value. */
    method NewSlider(parent: Option<nat>) returns (id: nat)
      requires Valid() && (parent.Some? ==> parent.value < |nodes|)
      modifies this`nodes, this`root
      ensures Valid() && id == old(|nodes|)
      ensures (nodes, root) == Added(old(nodes), old(root), parent, SliderNode())
    {
      id := AddToParent(parent, Fresh(Slider, 0, 0, 0, 0, NONE, []));
    }

    /** The arena becomes ns, which keeps the invariant and the same editors. */
    method Replace(ns: seq<Node>)
      requires Valid() && Sound(ns, root, lastId, focused, dragging) && InputsOf(ns) == InputsOf(nodes)
      modifies this`nodes
      ensures Valid() && nodes == ns
    {
      assert EditorsValid(ns);
      nodes := ns;
      EditorsKept(ns);
    }

    /** The arena becomes ns and the last id issued becomes id, keeping the invariant and the editors. */
    method Reissue(ns: seq<Node>, id: int)
      requires Valid() && Sound(ns, root, id, focused, dragging) && InputsOf(ns) == InputsOf(nodes)
      modifies this`nodes, this`lastId
      ensures Valid() && nodes == ns && lastId == id
    {
      assert EditorsValid(ns);
      nodes, lastId := ns, id;
      EditorsKept(ns);
    }

    /** Element e becomes m, which keeps e's type, links and callback lists. */
    method Put(e: nat, m: Node)
      requires Valid() && e < |nodes|
      requires m.kind == nodes[e].kind && m.parent == nodes[e].parent && m.children == nodes[e].children
      requires m.handlers == nodes[e].handlers
      modifies this`nodes
      ensures Valid() && nodes == old(nodes)[e := m]
    {
      RetouchSound(nodes, root, lastId, focused, dragging, e, m);
      Replace(nodes[e := m]);
    }

    // -------------------------------------------------------------------------
    // Element setters (sxui.c:864-919); a missing element is ignored
    // -------------------------------------------------------------------------

    /** sxui_set_position. */
    method SetPosition(el: Option<nat>, x: int, y: int)
      requires Valid() && (el.Some? ==> el.value < |nodes|)
      modifies this`nodes
      ensures Valid()
      ensures nodes == if el.Some? then old(nodes)[el.value := old(nodes)[el.value].(x := x, y := y)] else old(nodes)
    {
      if el.Some? {
        Put(el.value, nodes[el.value].(x := x, y := y));
      }
    }

    /** sxui_set_size. */
    method SetSize(el: Option<nat>, w: int, h: int)
      requires Valid() && (el.Some? ==> el.value < |nodes|)
      modifies this`nodes
      ensures Valid()
      ensures nodes == if el.Some? then old(nodes)[el.value := old(nodes)[el.value].(w := w, h := h)] else old(nodes)
    {
      if el.Some? {
        Put(el.value, nodes[el.value].(w := w, h := h));
      }
    }

    /** sxui_set_visible: the element is hidden exactly when not visible, and its other flags are kept. */
    method SetVisible(el: Option<nat>, visible: bool)
      requires Valid() && (el.Some? ==> el.value < |nodes|)
      modifies this`nodes
      ensures Valid() && |nodes| == old(|nodes|)
      ensures el.None? ==> nodes == old(nodes)
      ensures el.Some? ==>
        && nodes == old(nodes)[el.value := old(nodes)[el.value].(flags := nodes[el.value].flags)]
        && (Hidden(nodes[el.value]) <==> !visible)
        && nodes[el.value].flags & !HIDDEN == old(nodes)[el.value].flags & !HIDDEN
    {
      if el.Some? {
        var n := nodes[el.value];
        Put(el.value, n.(flags := if visible then Clear(n.flags, HIDDEN) else Set(n.flags, HIDDEN)));
      }
    }

    /** sxui_set_draggable: the drag flag follows draggable, and the other flags are kept. */
    method SetDraggable(el: Option<nat>, draggable: bool)
      requires Valid() && (el.Some? ==> el.value < |nodes|)
      modifies this`nodes
      ensures Valid() && |nodes| == old(|nodes|)
      ensures el.None? ==> nodes == old(nodes)
      ensures el.Some? ==>
        && nodes == old(nodes)[el.value := old(nodes)[el.value].(flags := nodes[el.value].flags)]
        && (Has(nodes[el.value].flags, DRAGGABLE) <==> draggable)
        && nodes[el.value].flags & !DRAGGABLE == old(nodes)[el.value].flags & !DRAGGABLE
    {
      if el.Some? {
        var n := nodes[el.value];
        Put(el.value, n.(flags := if draggable then Set(n.flags, DRAGGABLE) else Clear(n.flags, DRAGGABLE)));
      }
    }

    /** sxui_get_flags: 0 for a missing element. */
    function GetFlags(el: Option<nat>): (r: bv32)
      reads this
      requires el.Some? ==> el.value < |nodes|
      ensures el.None? ==> r == 0
      ensures el.Some? ==> r == nodes[el.value].flags
    {
      if el.Some? then nodes[el.value].flags else 0
    }

    /** sxui_set_flags: every flag at once; what get_flags reads back is what was set. */
    method SetFlags(el: Option<nat>, flags: bv32)
      requires Valid() && (el.Some? ==> el.value < |nodes|)
      modifies this`nodes
      ensures Valid()
      ensures nodes == if el.Some? then old(nodes)[el.value := old(nodes)[el.value].(flags := flags)] else old(nodes)
      ensures GetFlags(el) == if el.Some? then flags else 0
    {
      if el.Some? {
        Put(el.value, nodes[el.value].(flags := flags));
      }
    }

    /**
     * sxui_get_text: the label of a button, label or checkbox, an input's own
     * text (not its placeholder), and nothing for a missing element or any
     * other type.
     */
    function GetText(el: Option<nat>): (r: Option<seq<char>>)
      reads this, InputsOf(nodes)
      requires el.Some? ==> el.value < |nodes|
      ensures r.Some? <==> el.Some? && !nodes[el.value].kind.Frame? && !nodes[el.value].kind.Slider?
      ensures r.Some? && nodes[el.value].kind.Input? ==> r.value == nodes[el.value].kind.field.text
      ensures r.Some? && !nodes[el.value].kind.Input? ==> r.value == nodes[el.value].caption
    {
      if el.None? then None
      else
        var n := nodes[el.value];
        match n.kind
        case Input(t) =>
          assert t in InputsOf(nodes);
          Some(t.text)
        case Button => Some(n.caption)
        case Label => Some(n.caption)
        case Checkbox => Some(n.caption)
        case _ => None
    }

    /**
     * sxui_set_text: a button, label or checkbox takes the whole text; an
     * input keeps at most INPUT_MAX - 1 characters with the caret and anchor
     * at the end; a missing element or text, or any other type, changes
     * nothing. get_text then reads back what was kept.
     */
    method SetText(el: Option<nat>, text: Option<seq<char>>)
      requires Valid() && (el.Some? ==> el.value < |nodes|)
      modifies this`nodes, InputsOf(nodes)
      ensures Valid() && |nodes| == old(|nodes|)
      ensures el.Some? && text.Some? && old(GetText(el)).Some? ==>
        GetText(el) == Some(if nodes[el.value].kind.Input? then TextEdit.Truncate(text.value) else text.value)
      ensures !(el.Some? && text.Some?) || old(GetText(el)).None? ==> GetText(el) == old(GetText(el))
      ensures nodes == if el.Some? && text.Some? && old(GetText(el)).Some? && !old(nodes)[el.value].kind.Input?
                       then old(nodes)[el.value := old(nodes)[el.value].(caption := text.value)]
                       else old(nodes)
      ensures el.Some? && text.Some? && old(nodes)[el.value].kind.Input? ==>
        && EditorAtEnd(old(nodes)[el.value].kind.field)
        && old(nodes)[el.value].kind.field.scrollOffset == old(nodes[el.value].kind.field.scrollOffset)
        && unchanged(InputsOf(nodes) - {old(nodes)[el.value].kind.field})
      ensures !(el.Some? && text.Some? && old(nodes)[el.value].kind.Input?) ==> unchanged(InputsOf(nodes))
    {
      if el.Some? && text.Some? {
        var n := nodes[el.value];
        if n.kind.Input? {
          var ed := n.kind.field;
          assert ed in InputsOf(nodes);
          ed.SetText(text.value);
          forall u | u in InputsOf(nodes)
            ensures u.Valid()
          {
            if u != ed {
              assert old(u.Valid());
            }
          }
        } else if n.kind.Button? || n.kind.Label? || n.kind.Checkbox? {
          Put(el.value, n.(caption := text.value));
        }
      }
    }

    // -------------------------------------------------------------------------
    // Frame setters (sxui.c:951-990): on anything but a frame they do nothing
    // -------------------------------------------------------------------------

    /** sxui_frame_set_padding: the padding changes and the frame is laid out again. */
    method FrameSetPadding(frame: Option<nat>, padding: int)
      requires Valid() && (frame.Some? ==> frame.value < |nodes|)
      modifies this`nodes
      ensures Valid()
      ensures !IsFrame(old(nodes), frame) ==> nodes == old(nodes)
      ensures IsFrame(old(nodes), frame) ==>
        var f := frame.value;
        var n := old(nodes)[f];
        nodes == Relayout(old(nodes)[f := n.(frame := n.frame.(padding := padding))], f)
    {
      if frame.Some? && nodes[frame.value].kind.Frame? {
        var f := frame.value;
        Put(f, nodes[f].(frame := nodes[f].frame.(padding := padding)));
        UpdateLayout(f);
      }
    }

    /** sxui_frame_set_spacing: the spacing changes and the frame is laid out again. */
    method FrameSetSpacing(frame: Option<nat>, spacing: int)
      requires Valid() && (frame.Some? ==> frame.value < |nodes|)
      modifies this`nodes
      ensures Valid()
      ensures !IsFrame(old(nodes), frame) ==> nodes == old(nodes)
      ensures IsFrame(old(nodes), frame) ==>
        var f := frame.value;
        var n := old(nodes)[f];
        nodes == Relayout(old(nodes)[f := n.(frame := n.frame.(spacing := spacing))], f)
    {
      if frame.Some? && nodes[frame.value].kind.Frame? {
        var f := frame.value;
        Put(f, nodes[f].(frame := nodes[f].frame.(spacing := spacing)));
        UpdateLayout(f);
      }
    }

    /** sxui_frame_set_default_child_size: the frame's target size changes and it is laid out again. */
    method FrameSetDefaultChildSize(frame: Option<nat>, w: int, h: int)
      requires Valid() && (frame.Some? ==> frame.value < |nodes|)
      modifies this`nodes
      ensures Valid()
      ensures !IsFrame(old(nodes), frame) ==> nodes == old(nodes)
      ensures IsFrame(old(nodes), frame) ==>
        var f := frame.value;
        nodes == Relayout(old(nodes)[f := old(nodes)[f].(targetW := w, targetH := h)], f)
    {
      if frame.Some? && nodes[frame.value].kind.Frame? {
        var f := frame.value;
        Put(f, nodes[f].(targetW := w, targetH := h));
        UpdateLayout(f);
      }
    }

    /** sxui_frame_set_grid_columns: the column limit changes and the frame is laid out again. */
    method FrameSetGridColumns(frame: Option<nat>, maxCols: int)
      requires Valid() && (frame.Some? ==> frame.value < |nodes|)
      modifies this`nodes
      ensures Valid()
      ensures !IsFrame(old(nodes), frame) ==> nodes == old(nodes)
      ensures IsFrame(old(nodes), frame) ==>
        var f := frame.value;
        var n := old(nodes)[f];
        nodes == Relayout(old(nodes)[f := n.(frame := n.frame.(maxGridCols := maxCols))], f)
    {
      if frame.Some? && nodes[frame.value].kind.Frame? {
        var f := frame.value;
        Put(f, nodes[f].(frame := nodes[f].frame.(maxGridCols := maxCols)));
        UpdateLayout(f);
      }
    }

    /** sxui_frame_set_scrollbar_width: only the width changes; there is no layout pass. */
    method FrameSetScrollbarWidth(frame: Option<nat>, width: int)
      requires Valid() && (frame.Some? ==> frame.value < |nodes|)
      modifies this`nodes
      ensures Valid()
      ensures !IsFrame(old(nodes), frame) ==> nodes == old(nodes)
      ensures IsFrame(old(nodes), frame) ==>
        var f := frame.value;
        var n := old(nodes)[f];
        nodes == old(nodes)[f := n.(frame := n.frame.(scrollBarWidth := width))]
    {
      if frame.Some? && nodes[frame.value].kind.Frame? {
        var f := frame.value;
        Put(f, nodes[f].(frame := nodes[f].frame.(scrollBarWidth := width)));
      }
    }

    /** sxui_frame_update_layout. */
    method FrameUpdateLayout(frame: Option<nat>)
      requires Valid() && (frame.Some? ==> frame.value < |nodes|)
      modifies this`nodes
      ensures Valid()
      ensures nodes == if IsFrame(old(nodes), frame) then Relayout(old(nodes), frame.value) else old(nodes)
    {
      if frame.Some? && nodes[frame.value].kind.Frame? {
        UpdateLayout(frame.value);
      }
    }

    // -------------------------------------------------------------------------
    // Connecting and disconnecting callbacks (sxui.c:996-1057, 228-250)
    // -------------------------------------------------------------------------

    /**
     * The sxui_on_* functions: when the element exists, the callback is given
     * and the element's type has the list, the callback is bound at the end of
     * the list under the next id, which the connection carries; otherwise
     * nothing changes and the empty connection is returned.
     */
    method Connect(el: Option<nat>, ch: Channel, cb: Option<Callback>) returns (conn: Connection)
      requires Valid() && (el.Some? ==> el.value < |nodes|)
      modifies this`nodes, this`lastId
      ensures Valid()
      ensures if el.Some? && cb.Some? && ch in ChannelsOf(old(nodes)[el.value].kind) then
          && lastId == old(lastId) + 1 && conn == Connection(lastId, Some((el.value, ch)))
          && ch in old(nodes)[el.value].handlers
          && nodes == Bound(old(nodes), el.value, ch, Binding(lastId, cb.value))
        else conn == Connection(0, None) && lastId == old(lastId) && nodes == old(nodes)
    {
      if el.Some? && cb.Some? && ch in ChannelsOf(nodes[el.value].kind) {
        var e, c, ns0, id := el.value, cb.value, nodes, lastId;
        BoundSound(ns0, root, id, focused, dragging, e, ch, c);
        Reissue(Bound(ns0, e, ch, Binding(id + 1, c)), id + 1);
        conn := Connection(lastId, Some((e, ch)));
      } else {
        conn := Connection(0, None);
      }
    }

    /**
     * sxui_disconnect: the first binding carrying the connection's id leaves
     * its list; an empty connection, or an id no longer on the list, changes
     * nothing. The list must be one of an existing element.
     */
    method Disconnect(conn: Connection)
      requires Valid()
      requires conn.list.Some? ==> conn.list.value.0 < |nodes| && conn.list.value.1 in nodes[conn.list.value.0].handlers
      modifies this`nodes
      ensures Valid()
      ensures nodes == match conn.list
        case None => old(nodes)
        case Some((e, ch)) => Unbound(old(nodes), e, ch, conn.id)
    {
      match conn.list
      case None =>
      case Some((e, ch)) =>
        var rest := RemoveFirst(nodes[e].handlers[ch], conn.id);
        var ns0 := nodes;
        var n := ns0[e];
        UnboundSound(ns0, root, lastId, focused, dragging, e, ch, conn.id);
        assert ns0[e := n.(handlers := n.handlers[ch := rest])] == Unbound(ns0, e, ch, conn.id);
        Replace(Unbound(ns0, e, ch, conn.id));
    }

    // -------------------------------------------------------------------------
    // The input router of sxui_poll_events (sxui.c:673-773) and the hover pass
    // of sx_render_recursive (sxui.c:1063-1086)
    // -------------------------------------------------------------------------

    /** The arena becomes ns and the focus and drag state p, keeping the invariant and the editors. */
    method Route(ns: seq<Node>, p: Grip)
      requires Valid() && Sound(ns, root, lastId, p.focused, p.dragging) && InputsOf(ns) == InputsOf(nodes)
      modifies this`nodes, this`focused, this`dragging, this`dragOffX, this`dragOffY
      ensures Valid() && nodes == ns && GripOf() == p
    {
      assert EditorsValid(ns);
      nodes := ns;
      focused, dragging, dragOffX, dragOffY := p.focused, p.dragging, p.offX, p.offY;
      EditorsKept(ns);
    }

    /**
     * The mouse-down branch (sxui.c:683-736): the press on the element under
     * the mouse, as Press describes it, with its callbacks recorded in order;
     * a pressed input also gets its caret and anchor at the end of its text,
     * and no other editor changes.
     */
    method MouseDown(mx: int, my: int)
      requires Valid()
      modifies this`nodes, this`focused, this`dragging, this`dragOffX, this`dragOffY, this`log
      modifies EditorsIn(EditorAt(nodes, Hit(nodes, root, 0, 0, 0, mx, my)))
      ensures Valid() && InputsOf(nodes) == old(InputsOf(nodes))
      ensures var o := Press(old(nodes), old(GripOf()), Hit(old(nodes), root, 0, 0, 0, mx, my), mx, my);
        nodes == o.nodes && GripOf() == o.grip && log == old(log) + o.calls
      ensures var hit := Hit(old(nodes), root, 0, 0, 0, mx, my);
        hit.Some? && old(nodes)[hit.value].kind.Input? ==>
          var t := old(nodes)[hit.value].kind.field;
          EditorAtEnd(t) && t.text == old(t.text) && t.scrollOffset == old(t.scrollOffset)
    {
      var hit := GetHit(nodes, root, 0, 0, 0, mx, my);
      ghost var ed := EditorAt(nodes, hit);
      PressOn(hit, mx, my);
      if hit.Some? && nodes[hit.value].kind.Input? {
        var t := nodes[hit.value].kind.field;
        assert ed == Some(t);
        ghost var ns1, p1, log1, text1, scroll1 := nodes, GripOf(), log, t.text, t.scrollOffset;
        assert text1 == old(t.text) && scroll1 == old(t.scrollOffset);
        CaretToEnd(hit.value);
        assert nodes == ns1 && GripOf() == p1 && log == log1 && t.text == text1 && t.scrollOffset == scroll1;
      }
    }

    /** The press on hit as Press describes it, with its callbacks recorded; no element changes type. */
    method PressOn(hit: Option<nat>, mx: int, my: int)
      requires Valid() && (hit.Some? ==> hit.value < |nodes|)
      modifies this`nodes, this`focused, this`dragging, this`dragOffX, this`dragOffY, this`log
      ensures Valid() && InputsOf(nodes) == old(InputsOf(nodes))
      ensures var o := Press(old(nodes), old(GripOf()), hit, mx, my);
        nodes == o.nodes && GripOf() == o.grip && log == old(log) + o.calls
      ensures hit.Some? ==> nodes[hit.value].kind == old(nodes)[hit.value].kind
    {
      var o := PressStep(nodes, GripOf(), hit, mx, my);
      PressSound(nodes, root, lastId, GripOf(), hit, mx, my);
      PressChanges(nodes, GripOf(), hit, mx, my);
      Route(o.nodes, o.grip);
      log := log + o.calls;
    }

    /** The caret and anchor of input e go to the end of its text (sxui.c:726-727). */
    method CaretToEnd(e: nat)
      requires Valid() && e < |nodes| && nodes[e].kind.Input?
      modifies nodes[e].kind.field`cursor, nodes[e].kind.field`anchor
      ensures Valid() && EditorAtEnd(nodes[e].kind.field)
    {
      var t := nodes[e].kind.field;
      assert t in InputsOf(nodes);
      t.PlaceCaretAtEnd();
      forall u | u in InputsOf(nodes)
        ensures u.Valid()
      {
        if u != t {
          assert old(u.Valid());
        }
      }
    }

    /** The mouse-up branch (sxui.c:738-745): the drag ends and a slider loses focus. */
    method MouseUp()
      requires Valid()
      modifies this`focused, this`dragging
      ensures Valid() && GripOf() == Release(nodes, old(GripOf()))
    {
      if dragging.Some? {
        dragging := None;
      }
      if focused.Some? && nodes[focused.value].kind.Slider? {
        focused := None;
      }
    }

    /** The wheel branch (sxui.c:747-761): the nearest scrollable frame under the mouse scrolls. */
    method Wheel(mx: int, my: int, dy: int)
      requires Valid()
      modifies this`nodes
      ensures Valid() && nodes == WheelOf(old(nodes), Hit(old(nodes), root, 0, 0, 0, mx, my), dy)
      ensures InputsOf(nodes) == old(InputsOf(nodes))
    {
      var hit := GetHit(nodes, root, 0, 0, 0, mx, my);
      var r := WheelStep(nodes, hit, dy);
      WheelSound(nodes, root, lastId, focused, dragging, hit, dy);
      Replace(r);
    }

    /**
     * A key or text event (sxui.c:763-767): when an input has focus its editor
     * reads the event, with the input's width and password flag, the
     * callbacks it reports are recorded, and Enter takes the focus away. With
     * no focused input nothing changes.
     */
    method Typing(ev: TextEdit.InputEvent, clipboard: seq<char>, measure: seq<char> -> nat)
      returns (clip: seq<char>, fired: seq<TextEdit.Fire>, leaveFocus: bool)
      requires Valid()
      modifies this`focused, this`log, EditorsIn(EditorAt(nodes, focused))
      ensures Valid()
      ensures !FocusedInput(old(nodes), old(focused)) ==>
        focused == old(focused) && log == old(log) && clip == clipboard && fired == [] && !leaveFocus
      ensures FocusedInput(old(nodes), old(focused)) ==>
        var e := old(focused).value;
        && log == old(log) + FireCalls(nodes[e], e, fired)
        && focused == (if leaveFocus then None else old(focused))
        && old(nodes[e].kind.field.Valid())
        && EditorRead(nodes[e], ev, clipboard, clip, fired, leaveFocus, measure)
    {
      clip, fired, leaveFocus := clipboard, [], false;
      if focused.Some? && nodes[focused.value].kind.Input? {
        var e := focused.value;
        clip, fired, leaveFocus := EditFocused(e, ev, clipboard, measure);
        log := log + FireCalls(nodes[e], e, fired);
        if leaveFocus {
          focused := None;
        }
      }
    }

    /** The editor of input e reads the event; every editor stays well formed. */
    method EditFocused(e: nat, ev: TextEdit.InputEvent, clipboard: seq<char>, measure: seq<char> -> nat)
      returns (clip: seq<char>, fired: seq<TextEdit.Fire>, leaveFocus: bool)
      requires Valid() && e < |nodes| && nodes[e].kind.Input?
      modifies nodes[e].kind.field
      ensures Valid() && old(nodes[e].kind.field.Valid())
      ensures EditorRead(nodes[e], ev, clipboard, clip, fired, leaveFocus, measure)
    {
      var t := nodes[e].kind.field;
      assert t in InputsOf(nodes);
      clip, fired, leaveFocus := ReadFocused(nodes[e], ev, clipboard, measure);
      forall u | u in InputsOf(nodes)
        ensures u.Valid()
      {
        if u != t {
          assert old(u.Valid());
        }
      }
    }

    /**
     * sx_render_recursive over the top-level list without the drawing: the
     * hover edges, with their callbacks recorded, and the pressed marks of
     * the buttons in expired (clicked 100 ms ago or more) cleared.
     */
    method HoverRender(mx: int, my: int, expired: set<nat>)
      requires Valid()
      modifies this`nodes, this`log
      ensures Valid()
      ensures var h := HoverList(old(nodes), root, 0, 0, 0, 0, mx, my, expired);
        nodes == h.0 && log == old(log) + h.1
    {
      var ns, calls := HoverPass(nodes, root, 0, 0, 0, mx, my, expired);
      HoverSound(nodes, root, lastId, focused, dragging, mx, my, expired);
      Replace(ns);
      log := log + calls;
    }

    /** The drag move after the event loop (sxui.c:770-773). */
    method DragStep(mx: int, my: int)
      requires Valid()
      modifies this`nodes
      ensures Valid() && nodes == DragMove(old(nodes), GripOf(), mx, my)
      ensures InputsOf(nodes) == old(InputsOf(nodes))
    {
      if dragging.Some? {
        var d, ns0 := dragging.value, nodes;
        var m := ns0[d].(x := mx - dragOffX, y := my - dragOffY);
        assert ns0[d := m] == DragMove(ns0, GripOf(), mx, my);
        Put(d, m);
      }
    }

    /** One queued event routed to its branch (sxui.c:683-767); PollEvents itself handles a quit event. */
    method Dispatch(event: Event, mx: int, my: int, clipboard: seq<char>, measure: seq<char> -> nat)
      returns (clip: seq<char>)
      requires Valid()
      modifies this`nodes, this`focused, this`dragging, this`dragOffX, this`dragOffY, this`log
      modifies InputsOf(nodes)
      ensures Valid() && InputsOf(nodes) == old(InputsOf(nodes)) && |nodes| == old(|nodes|)
      ensures old(log) <= log
    {
      clip := clipboard;
      match event {
        case QuitEvent =>
        case ButtonDown =>
          EditorAtIn(nodes, Hit(nodes, root, 0, 0, 0, mx, my));
          MouseDown(mx, my);
        case ButtonUp => MouseUp();
        case WheelMoved(dy) => Wheel(mx, my, dy);
        case KeyEvent(ev) =>
          EditorAtIn(nodes, focused);
          var fired, leaveFocus;
          clip, fired, leaveFocus := Typing(ev, clipboard, measure);
        case OtherEvent =>
      }
    }

    /**
     * sxui_poll_events without the slider drag: every queued event in order,
     * with the mouse where it was when polling began, then the drag move. A
     * quit event stops the engine; callbacks are only ever added to the record.
     */
    method PollEvents(events: seq<Event>, mx: int, my: int, clipboard: seq<char>, measure: seq<char> -> nat)
      returns (clip: seq<char>)
      requires Valid()
      modifies this`nodes, this`focused, this`dragging, this`dragOffX, this`dragOffY, this`log, this`running
      modifies InputsOf(nodes)
      ensures Valid() && InputsOf(nodes) == old(InputsOf(nodes)) && |nodes| == old(|nodes|)
      ensures running <==> old(running) && QuitEvent !in events
      ensures old(log) <= log
      ensures dragging.Some? ==> nodes[dragging.value].x == mx - dragOffX && nodes[dragging.value].y == my - dragOffY
    {
      clip := clipboard;
      var i := 0;
      while i < |events|
        invariant 0 <= i <= |events|
        invariant Valid() && InputsOf(nodes) == old(InputsOf(nodes)) && |nodes| == old(|nodes|)
        invariant running <==> old(running) && QuitEvent !in events[..i]
        invariant old(log) <= log
      {
        if events[i].QuitEvent? {
          running := false;
        } else {
          clip := Dispatch(events[i], mx, my, clip, measure);
        }
        assert events[..i + 1] == events[..i] + [events[i]];
        i := i + 1;
      }
      assert events[..i] == events;
      DragStep(mx, my);
    }
  }
}
