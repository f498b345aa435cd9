/**
 * Element creation as _add_to_parent and init_base perform it
 * (deps/sxui/sxui.c:586-610): a new element goes at the end of the arena and
 * of its parent's child list, or of the top-level list, and the arena stays a
 * well-formed tree.
 */
module Build {
  import opened Wrappers
  import opened Flags
  import opened Layout
  import opened Bindings
  import opened Widgets
  import opened Arena
  import opened Router
  import opened Hover
  import TextEdit

  /** The text editors of the inputs of an arena. */
  function InputsOf(nodes: seq<Node>): set<TextEdit.TextInput> {
    set i | 0 <= i < |nodes| && nodes[i].kind.Input? :: nodes[i].kind.field
  }

  /** Every input's editor is well formed. */
  ghost predicate EditorsValid(nodes: seq<Node>)
    reads InputsOf(nodes)
  {
    forall t :: t in InputsOf(nodes) ==> t.Valid()
  }

  /** Editors that nothing changed are still well formed. */
  twostate lemma EditorsKept(nodes: seq<Node>)
    requires old(EditorsValid(nodes)) && unchanged(InputsOf(nodes))
    ensures EditorsValid(nodes)
  {
  }

  /** No two inputs share an editor: each input owns its text buffer. */
  ghost predicate OwnEditors(nodes: seq<Node>) {
    forall i, j :: 0 <= i < j < |nodes| && nodes[i].kind.Input? && nodes[j].kind.Input? ==>
      nodes[i].kind.field != nodes[j].kind.field
  }

  /** Arenas with the same types of element have the same editors. */
  lemma SameShapeInputs(a: seq<Node>, b: seq<Node>)
    requires SameShape(a, b)
    ensures InputsOf(a) == InputsOf(b) && (OwnEditors(a) ==> OwnEditors(b))
  {
    assert forall i :: 0 <= i < |a| ==> a[i].kind == b[i].kind;
  }

  /** A new element as init_base leaves it, of kind k with rectangle (x, y, w, h) and the given flags. */
  function Fresh(k: Kind, x: int, y: int, w: int, h: int, flags: bv32, caption: seq<char>): (n: Node)
    ensures n.parent.None? && n.children == [] && n.handlers.Keys == ChannelsOf(k)
    ensures n.kind == k && n.x == x && n.y == y && n.w == w && n.h == h && n.flags == flags && n.caption == caption
    ensures !n.hoverPrev && !n.pressed && !n.checked
    ensures forall ch :: ch in n.handlers ==> n.handlers[ch] == []
  {
    Node(x, y, w, h, 0, 0, k, flags, None, [], false, caption, false, false,
         FrameState(0, 0, 0, 0, 0, 0), EmptyHandlers(k))
  }

  /** What a new element may hold: no links yet, its type's lists, ids already issued. */
  ghost predicate Unlinked(n: Node, lastId: int) {
    && n.parent.None? && n.children == []
    && n.handlers.Keys == ChannelsOf(n.kind)
    && forall ch :: ch in n.handlers ==> forall k :: 0 <= k < |n.handlers[ch]| ==> 1 <= n.handlers[ch][k].id <= lastId
  }

  /**
   * _add_to_parent without the layout pass: the element goes at the end of
   * the arena and at the end of its parent's children, or of the top-level
   * list when it has no parent.
   */
  function Linked(nodes: seq<Node>, root: seq<nat>, parent: Option<nat>, n: Node): (r: (seq<Node>, seq<nat>))
    requires parent.Some? ==> parent.value < |nodes|
    ensures |r.0| == |nodes| + 1
  {
    match parent
    case None => (nodes + [n], root + [|nodes|])
    case Some(p) => (Under(nodes, p, n), root)
  }

  /** The arena with n appended as the last child of p. */
  function Under(nodes: seq<Node>, p: nat, n: Node): (r: seq<Node>)
    requires p < |nodes|
    ensures |r| == |nodes| + 1
  {
    nodes[p := nodes[p].(children := nodes[p].children + [|nodes|])] + [n.(parent := Some(p))]
  }

  /** Adding an element keeps the arena a tree. */
  lemma LinkedTree(nodes: seq<Node>, root: seq<nat>, parent: Option<nat>, n: Node)
    requires Tree(nodes, root) && (parent.Some? ==> parent.value < |nodes|)
    requires n.parent.None? && n.children == []
    ensures Tree(Linked(nodes, root, parent, n).0, Linked(nodes, root, parent, n).1)
  {
    match parent
    case None => LinkedTop(nodes, root, n);
    case Some(p) => LinkedUnder(nodes, root, p, n);
  }

  /** A top-level element joins the end of the top-level list. */
  lemma LinkedTop(nodes: seq<Node>, root: seq<nat>, n: Node)
    requires Tree(nodes, root) && n.parent.None? && n.children == []
    ensures Tree(nodes + [n], root + [|nodes|])
  {
    var ns := nodes + [n];
    assert forall i :: 0 <= i < |nodes| ==> ns[i] == nodes[i];
    assert |nodes| !in root by {
      if |nodes| in root {
        assert false;
      }
    }
  }

  /** A child element joins the end of its parent's list, and links back to the parent. */
  lemma LinkedUnder(nodes: seq<Node>, root: seq<nat>, p: nat, n: Node)
    requires Tree(nodes, root) && p < |nodes| && n.parent.None? && n.children == []
    ensures Tree(Under(nodes, p, n), root)
  {
    UnderChildren(nodes, root, p, n);
    UnderParents(nodes, root, p, n);
    UnderRoot(nodes, root, p, n);
  }

  /** The child lists after linking element |nodes| under p. */
  lemma UnderLists(nodes: seq<Node>, root: seq<nat>, p: nat, n: Node)
    requires Tree(nodes, root) && p < |nodes| && n.children == []
    ensures var ns := Under(nodes, p, n);
      && (forall i :: 0 <= i < |nodes| && i != p ==> ns[i].children == nodes[i].children)
      && ns[p].children == nodes[p].children + [|nodes|] && ns[|nodes|].children == []
      && (forall i :: 0 <= i < |nodes| ==> ns[i].parent == nodes[i].parent)
      && ns[|nodes|].parent == Some(p)
      && |nodes| !in nodes[p].children
  {
    var id := |nodes|;
    assert id !in nodes[p].children by {
      if id in nodes[p].children {
        assert false;
      }
    }
  }

  /** Child lists stay after their owner, distinct, and linked back. */
  lemma UnderChildren(nodes: seq<Node>, root: seq<nat>, p: nat, n: Node)
    requires Tree(nodes, root) && p < |nodes| && n.children == []
    ensures var ns := Under(nodes, p, n);
      ChildrenAfter(ns) && ChildLinks(ns) && forall i :: 0 <= i < |ns| ==> Distinct(ns[i].children)
  {
    var ns := Under(nodes, p, n);
    UnderLists(nodes, root, p, n);
    forall i, c | 0 <= i < |ns| && c in ns[i].children
      ensures i < c < |ns| && ns[c].parent == Some(i)
    {
      if i != p || c != |nodes| {
        assert c in nodes[i].children;
      }
    }
  }

  /** Parents stay before their children, and each child is in its parent's list. */
  lemma UnderParents(nodes: seq<Node>, root: seq<nat>, p: nat, n: Node)
    requires Tree(nodes, root) && p < |nodes| && n.children == []
    ensures var ns := Under(nodes, p, n);
      && ParentsBefore(ns)
      && forall i :: 0 <= i < |ns| && ns[i].parent.Some? ==> i in ns[ns[i].parent.value].children
  {
    var ns := Under(nodes, p, n);
    UnderLists(nodes, root, p, n);
    forall i | 0 <= i < |ns| && ns[i].parent.Some?
      ensures ns[i].parent.value < i && i in ns[ns[i].parent.value].children
    {
      if i < |nodes| {
        var q := nodes[i].parent.value;
        assert i in nodes[q].children;
        assert ns[q].children == nodes[q].children || ns[q].children == nodes[q].children + [|nodes|];
      }
    }
  }

  /** The top-level list is unchanged and still holds exactly the parentless elements. */
  lemma UnderRoot(nodes: seq<Node>, root: seq<nat>, p: nat, n: Node)
    requires Tree(nodes, root) && p < |nodes| && n.children == []
    ensures var ns := Under(nodes, p, n);
      && (forall r :: r in root ==> r < |ns| && ns[r].parent.None?)
      && (forall i :: 0 <= i < |ns| && ns[i].parent.None? ==> i in root)
  {
    UnderLists(nodes, root, p, n);
  }

  /** The handler invariant survives a new element and a larger counter. */
  lemma LinkedHandlers(nodes: seq<Node>, root: seq<nat>, parent: Option<nat>, n: Node, oldId: int, lastId: int)
    requires HandlersOk(nodes, oldId) && oldId <= lastId && Unlinked(n, lastId)
    requires parent.Some? ==> parent.value < |nodes|
    ensures HandlersOk(Linked(nodes, root, parent, n).0, lastId)
  {
    var ns := Linked(nodes, root, parent, n).0;
    forall i | 0 <= i < |ns|
      ensures ns[i].handlers.Keys == ChannelsOf(ns[i].kind)
      ensures forall ch :: ch in ns[i].handlers ==>
                forall k :: 0 <= k < |ns[i].handlers[ch]| ==> 1 <= ns[i].handlers[ch][k].id <= lastId
    {
      if i < |nodes| {
        assert ns[i].handlers == nodes[i].handlers && ns[i].kind == nodes[i].kind;
      } else {
        assert ns[i].handlers == n.handlers && ns[i].kind == n.kind;
      }
    }
  }

  /** _add_to_parent: link the element in, then lay out the parent again if it is a frame. */
  function Added(nodes: seq<Node>, root: seq<nat>, parent: Option<nat>, n: Node): (r: (seq<Node>, seq<nat>))
    requires Tree(nodes, root) && (parent.Some? ==> parent.value < |nodes|)
    requires n.parent.None? && n.children == []
    ensures |r.0| == |nodes| + 1
  {
    var l := Linked(nodes, root, parent, n);
    LinkedTree(nodes, root, parent, n);
    if parent.Some? && nodes[parent.value].kind.Frame? then (Relayout(l.0, parent.value), l.1) else l
  }

  /** The editor a new element brings: an input's own, or none. */
  function EditorOf(n: Node): set<TextEdit.TextInput> {
    if n.kind.Input? then {n.kind.field} else {}
  }

  /**
   * The engine's invariant without the editors' own state: the arena is a
   * tree, callback lists belong to their element's type and hold issued ids,
   * focus and drag name existing elements (focus only an input or a slider),
   * and no two inputs share an editor.
   */
  ghost predicate Sound(nodes: seq<Node>, root: seq<nat>, lastId: int, focused: Option<nat>, dragging: Option<nat>) {
    && Tree(nodes, root)
    && 0 <= lastId && HandlersOk(nodes, lastId)
    && FocusOk(nodes, focused)
    && (dragging.Some? ==> dragging.value < |nodes|)
    && OwnEditors(nodes)
  }

  /** b is a with one element of n's type appended, every other element keeping its type. */
  ghost predicate KindsExtend(a: seq<Node>, b: seq<Node>, n: Node) {
    |b| == |a| + 1 && b[|a|].kind == n.kind && forall i :: 0 <= i < |a| ==> b[i].kind == a[i].kind
  }

  lemma LinkedKinds(nodes: seq<Node>, root: seq<nat>, parent: Option<nat>, n: Node)
    requires parent.Some? ==> parent.value < |nodes|
    ensures KindsExtend(nodes, Linked(nodes, root, parent, n).0, n)
  {
  }

  /** Appending an element whose editor is new keeps editors unshared and adds that editor. */
  lemma ExtendEditors(a: seq<Node>, b: seq<Node>, n: Node)
    requires KindsExtend(a, b, n) && OwnEditors(a) && (n.kind.Input? ==> n.kind.field !in InputsOf(a))
    ensures OwnEditors(b) && InputsOf(b) == InputsOf(a) + EditorOf(n)
  {
    var id := |a|;
    forall i, j | 0 <= i < j < |b| && b[i].kind.Input? && b[j].kind.Input?
      ensures b[i].kind.field != b[j].kind.field
    {
      if j == id {
        assert a[i].kind.field in InputsOf(a);
      }
    }
    forall t | t in InputsOf(b)
      ensures t in InputsOf(a) + EditorOf(n)
    {
      var i :| 0 <= i < |b| && b[i].kind.Input? && b[i].kind.field == t;
      if i < id {
        assert a[i].kind.Input?;
      }
    }
    forall t | t in InputsOf(a) + EditorOf(n)
      ensures t in InputsOf(b)
    {
      if t in InputsOf(a) {
        var i :| 0 <= i < |a| && a[i].kind.Input? && a[i].kind.field == t;
        assert b[i].kind == a[i].kind;
      } else {
        assert b[id].kind.field == t;
      }
    }
  }

  /** Linking a new element, with an editor of its own, keeps the invariant and adds its editor. */
  lemma LinkedSound(nodes: seq<Node>, root: seq<nat>, lastId: int, focused: Option<nat>, dragging: Option<nat>,
                    parent: Option<nat>, n: Node)
    requires Sound(nodes, root, lastId, focused, dragging) && (parent.Some? ==> parent.value < |nodes|)
    requires Unlinked(n, lastId) && (n.kind.Input? ==> n.kind.field !in InputsOf(nodes))
    ensures var l := Linked(nodes, root, parent, n);
      && Sound(l.0, l.1, lastId, focused, dragging)
      && InputsOf(l.0) == InputsOf(nodes) + EditorOf(n)
  {
    var l := Linked(nodes, root, parent, n);
    LinkedTree(nodes, root, parent, n);
    LinkedHandlers(nodes, root, parent, n, lastId, lastId);
    LinkedKinds(nodes, root, parent, n);
    ExtendEditors(nodes, l.0, n);
  }

  /** The arena gains exactly the new editor, which is valid, so every editor is valid. */
  lemma EditorsJoin(before: seq<Node>, after: seq<Node>, n: Node)
    requires EditorsValid(before) && InputsOf(after) == InputsOf(before) + EditorOf(n)
    requires n.kind.Input? ==> n.kind.field.Valid()
    ensures EditorsValid(after)
  {
  }

  /** An arena changed without changing its wiring keeps the invariant and its editors. */
  lemma RewiredSound(a: seq<Node>, b: seq<Node>, root: seq<nat>, lastId: int, focused: Option<nat>, dragging: Option<nat>)
    requires SameWiring(a, b) && Sound(a, root, lastId, focused, dragging)
    ensures Sound(b, root, lastId, focused, dragging) && InputsOf(b) == InputsOf(a)
  {
    SameWiringTree(a, b, root);
    SameShapeInputs(a, b);
  }

  // ---------------------------------------------------------------------------
  // The elements the creation functions build (sxui.c:802-858)
  // ---------------------------------------------------------------------------

  /** sxui_frame: the given rectangle and flags, padding 10, spacing 8, scroll bar width 6. */
  function FrameNode(x: int, y: int, w: int, h: int, flags: bv32): (n: Node)
    ensures n.kind == Frame && n.x == x && n.y == y && n.w == w && n.h == h && n.flags == flags
    ensures n.frame.padding == 10 && n.frame.spacing == 8 && n.frame.scrollBarWidth == 6
    ensures n.frame.scrollY == 0 && n.frame.contentHeight == 0 && n.frame.maxGridCols == 0
    ensures n.handlers.Keys == {OnMouseEnter, OnMouseLeave} && n.handlers[OnMouseEnter] == n.handlers[OnMouseLeave] == []
  {
    Fresh(Frame, x, y, w, h, flags, []).(frame := FrameState(10, 8, 0, 0, 0, 6))
  }

  /** sxui_button: a zero rectangle, the label, and the click callback bound under id when there is one. */
  function ButtonNode(caption: seq<char>, cb: Option<Callback>, id: int): (n: Node)
    ensures n.kind == Button && n.caption == caption && n.flags == NONE && !n.pressed
    ensures n.x == 0 && n.y == 0 && n.w == 0 && n.h == 0
    ensures n.handlers.Keys == {OnClick, OnMouseEnter, OnMouseLeave}
    ensures n.handlers[OnClick] == if cb.Some? then [Binding(id, cb.value)] else []
  {
    var n := Fresh(Button, 0, 0, 0, 0, NONE, caption);
    if cb.Some? then n.(handlers := n.handlers[OnClick := [Binding(id, cb.value)]]) else n
  }

  /** sxui_label. */
  function LabelNode(text: seq<char>): (n: Node)
    ensures n.kind == Label && n.caption == text && n.flags == NONE && n.w == 0 && n.h == 0
  {
    Fresh(Label, 0, 0, 0, 0, NONE, text)
  }

  /** sxui_input: the password flag when asked for, and the placeholder cut to the buffer. */
  function InputNode(placeholder: seq<char>, isPass: bool, t: TextEdit.TextInput): (n: Node)
    ensures n.kind == Input(t) && (Has(n.flags, PASSWORD) <==> isPass) && n.flags & !PASSWORD == NONE
    ensures |n.caption| <= TextEdit.INPUT_MAX - 1 && n.caption <= placeholder
    ensures |placeholder| <= TextEdit.INPUT_MAX - 1 ==> n.caption == placeholder
    ensures |placeholder| > TextEdit.INPUT_MAX - 1 ==> |n.caption| == TextEdit.INPUT_MAX - 1
    ensures n.handlers.Keys == {OnMouseEnter, OnMouseLeave, OnFocusChanged, OnTextChanged, OnSubmit}
  {
    Fresh(Input(t), 0, 0, 0, 0, if isPass then PASSWORD else NONE, TextEdit.Truncate(placeholder))
  }

  /** sxui_checkbox: unchecked. */
  function CheckboxNode(caption: seq<char>): (n: Node)
    ensures n.kind == Checkbox && n.caption == caption && !n.checked
    ensures n.handlers.Keys == {OnMouseEnter, OnMouseLeave, OnValueChanged} && n.handlers[OnValueChanged] == []
  {
    Fresh(Checkbox, 0, 0, 0, 0, NONE, caption)
  }

  /** sxui_slider, without its floating-point value. */
  function SliderNode(): (n: Node)
    ensures n.kind == Slider && n.flags == NONE
    ensures n.handlers.Keys == {OnMouseEnter, OnMouseLeave, OnValueChanged} && n.handlers[OnValueChanged] == []
  {
    Fresh(Slider, 0, 0, 0, 0, NONE, [])
  }

  /**
   * What creation does to the arena: the new element is the last one, linked
   * to its parent and holding everything it was built with except possibly
   * its rectangle, which a frame parent's layout pass sets; it ends the
   * parent's child list, or the top-level list when it has no parent.
   */
  lemma AddedPlacement(nodes: seq<Node>, root: seq<nat>, parent: Option<nat>, n: Node)
    requires Tree(nodes, root) && (parent.Some? ==> parent.value < |nodes|)
    requires n.parent.None? && n.children == []
    ensures var r := Added(nodes, root, parent, n);
      var id := |nodes|;
      && r.0[id] == WithBox(n.(parent := parent), BoxOf(r.0[id]))
      && (parent.None? ==> r.0[id] == n && r.1 == root + [id])
      && (parent.Some? ==> r.1 == root && r.0[parent.value].children == nodes[parent.value].children + [id])
      && Tree(r.0, r.1)
  {
    var l := Linked(nodes, root, parent, n);
    var id := |nodes|;
    LinkedTree(nodes, root, parent, n);
    if parent.Some? {
      var p := parent.value;
      assert l.0[id] == n.(parent := parent);
      if nodes[p].kind.Frame? {
        RelayoutWiring(l.0, l.1, p);
        SameWiringTree(l.0, Relayout(l.0, p), l.1);
        RelayoutMovesOnly(l.0, l.1, p, id);
      }
    }
  }

  /** Changing an element's fields other than its type, links and callback lists keeps the wiring. */
  lemma Retouch(nodes: seq<Node>, e: nat, m: Node)
    requires e < |nodes|
    requires m.kind == nodes[e].kind && m.parent == nodes[e].parent && m.children == nodes[e].children
    requires m.handlers == nodes[e].handlers
    ensures SameWiring(nodes, nodes[e := m])
  {
  }

  /** Changing an element's fields other than its type, links and callback lists keeps the invariant and the editors. */
  lemma RetouchSound(nodes: seq<Node>, root: seq<nat>, lastId: int, focused: Option<nat>, dragging: Option<nat>,
                     e: nat, m: Node)
    requires Sound(nodes, root, lastId, focused, dragging) && e < |nodes|
    requires m.kind == nodes[e].kind && m.parent == nodes[e].parent && m.children == nodes[e].children
    requires m.handlers == nodes[e].handlers
    ensures Sound(nodes[e := m], root, lastId, focused, dragging) && InputsOf(nodes[e := m]) == InputsOf(nodes)
  {
    Retouch(nodes, e, m);
    RewiredSound(nodes, nodes[e := m], root, lastId, focused, dragging);
  }

  /** Changing an element's fields other than its type and links keeps the shape. */
  lemma Reshaped(nodes: seq<Node>, e: nat, m: Node)
    requires e < |nodes|
    requires m.kind == nodes[e].kind && m.parent == nodes[e].parent && m.children == nodes[e].children
    ensures SameShape(nodes, nodes[e := m])
  {
  }

  /** Issuing more ids keeps the invariant: every id already held stays issued. */
  lemma SoundGrow(nodes: seq<Node>, root: seq<nat>, a: int, b: int, focused: Option<nat>, dragging: Option<nat>)
    requires Sound(nodes, root, a, focused, dragging) && a <= b
    ensures Sound(nodes, root, b, focused, dragging)
  {
  }

  /** A new button holds at most the one id just issued. */
  lemma ButtonUnlinked(caption: seq<char>, cb: Option<Callback>, id: int)
    requires cb.Some? ==> 1 <= id
    ensures Unlinked(ButtonNode(caption, cb, id), id)
  {
  }

  // ---------------------------------------------------------------------------
  // Binding and unbinding on an element's list (sxui.c:228-250, 996-1057)
  // ---------------------------------------------------------------------------

  /** bind_event on list ch of element e: the record goes at the end of the list. */
  function Bound(nodes: seq<Node>, e: nat, ch: Channel, b: Binding): (r: seq<Node>)
    requires e < |nodes| && ch in nodes[e].handlers
    ensures |r| == |nodes| && ch in r[e].handlers && r[e].handlers[ch] == nodes[e].handlers[ch] + [b]
  {
    var n := nodes[e];
    nodes[e := n.(handlers := n.handlers[ch := n.handlers[ch] + [b]])]
  }

  /** disconnect_binding on list ch of element e: the first record carrying id leaves the list. */
  function Unbound(nodes: seq<Node>, e: nat, ch: Channel, id: int): (r: seq<Node>)
    requires e < |nodes| && ch in nodes[e].handlers
    ensures |r| == |nodes| && ch in r[e].handlers && r[e].handlers[ch] == WithoutFirst(nodes[e].handlers[ch], id)
  {
    var n := nodes[e];
    nodes[e := n.(handlers := n.handlers[ch := WithoutFirst(n.handlers[ch], id)])]
  }

  /**
   * Disconnecting the connection that binding under the next id returned
   * gives back the arena as it was before the binding.
   */
  lemma BindUnbind(nodes: seq<Node>, lastId: int, e: nat, ch: Channel, cb: Callback)
    requires HandlersOk(nodes, lastId) && e < |nodes| && ch in ChannelsOf(nodes[e].kind)
    ensures ch in Bound(nodes, e, ch, Binding(lastId + 1, cb))[e].handlers
    ensures Unbound(Bound(nodes, e, ch, Binding(lastId + 1, cb)), e, ch, lastId + 1) == nodes
  {
    assert nodes[e].handlers.Keys == ChannelsOf(nodes[e].kind);
    var list := nodes[e].handlers[ch];
    assert forall k :: 0 <= k < |list| ==> list[k].id <= lastId;
    BindThenRemove(list, lastId + 1, cb);
    RestoreList(nodes, e, ch, Binding(lastId + 1, cb));
  }

  /** Putting back the list an append started from restores the arena. */
  lemma RestoreList(nodes: seq<Node>, e: nat, ch: Channel, b: Binding)
    requires e < |nodes| && ch in nodes[e].handlers
    requires WithoutFirst(nodes[e].handlers[ch] + [b], b.id) == nodes[e].handlers[ch]
    ensures Unbound(Bound(nodes, e, ch, b), e, ch, b.id) == nodes
  {
    var n := nodes[e];
    var m := n.(handlers := n.handlers[ch := n.handlers[ch] + [b]]);
    assert Bound(nodes, e, ch, b) == nodes[e := m];
    assert m.handlers[ch := n.handlers[ch]] == n.handlers;
    assert m.(handlers := m.handlers[ch := n.handlers[ch]]) == n;
    assert nodes[e := m][e := n] == nodes;
  }

  /** Binding under the next id keeps the invariant with that id issued. */
  lemma BoundSound(nodes: seq<Node>, root: seq<nat>, lastId: int, focused: Option<nat>, dragging: Option<nat>,
                   e: nat, ch: Channel, cb: Callback)
    requires Sound(nodes, root, lastId, focused, dragging) && e < |nodes| && ch in ChannelsOf(nodes[e].kind)
    ensures ch in nodes[e].handlers
    ensures var r := Bound(nodes, e, ch, Binding(lastId + 1, cb));
      Sound(r, root, lastId + 1, focused, dragging) && InputsOf(r) == InputsOf(nodes)
  {
    var r := Bound(nodes, e, ch, Binding(lastId + 1, cb));
    Reshaped(nodes, e, r[e]);
    SameShapeTree(nodes, r, root);
    SameShapeInputs(nodes, r);
    BoundHandlers(nodes, lastId, e, ch, cb);
  }

  lemma BoundHandlers(nodes: seq<Node>, lastId: int, e: nat, ch: Channel, cb: Callback)
    requires HandlersOk(nodes, lastId) && 0 <= lastId && e < |nodes| && ch in ChannelsOf(nodes[e].kind)
    ensures HandlersOk(Bound(nodes, e, ch, Binding(lastId + 1, cb)), lastId + 1)
  {
    var r := Bound(nodes, e, ch, Binding(lastId + 1, cb));
    forall i | 0 <= i < |r|
      ensures r[i].handlers.Keys == ChannelsOf(r[i].kind)
      ensures forall c :: c in r[i].handlers ==> Issued(r[i].handlers[c], lastId + 1)
    {
      BoundAt(nodes, lastId, e, ch, cb, i);
    }
  }

  /** Every record of the list carries an issued id, one of 1..lastId. */
  ghost predicate Issued(list: seq<Binding>, lastId: int) {
    forall k :: 0 <= k < |list| ==> 1 <= list[k].id <= lastId
  }

  /** One element's lists after binding under the next id. */
  lemma BoundAt(nodes: seq<Node>, lastId: int, e: nat, ch: Channel, cb: Callback, i: nat)
    requires HandlersOk(nodes, lastId) && 0 <= lastId && e < |nodes| && ch in ChannelsOf(nodes[e].kind) && i < |nodes|
    ensures var r := Bound(nodes, e, ch, Binding(lastId + 1, cb));
      && r[i].handlers.Keys == ChannelsOf(r[i].kind)
      && forall c :: c in r[i].handlers ==> Issued(r[i].handlers[c], lastId + 1)
  {
    var r := Bound(nodes, e, ch, Binding(lastId + 1, cb));
    forall c | c in r[i].handlers
      ensures Issued(r[i].handlers[c], lastId + 1)
    {
      var list := nodes[i].handlers[c];
      assert Issued(list, lastId);
      if i == e && c == ch {
        var l := list + [Binding(lastId + 1, cb)];
        assert r[i].handlers[c] == l;
        forall k | 0 <= k < |l|
          ensures 1 <= l[k].id <= lastId + 1
        {
          if k < |list| {
            assert l[k] == list[k];
          }
        }
      } else {
        assert r[i].handlers[c] == list;
      }
    }
  }

  /** Unbinding leaves only issued ids on the list. */
  lemma WithoutFirstIssued(list: seq<Binding>, id: int, lastId: int)
    requires Issued(list, lastId)
    ensures Issued(WithoutFirst(list, id), lastId)
  {
    var f := FirstIndex(list, id);
    if f < |list| {
      var r := WithoutFirst(list, id);
      assert r == list[..f] + list[f + 1..];
      forall k | 0 <= k < |r|
        ensures 1 <= r[k].id <= lastId
      {
        if k < f {
          assert r[k] == list[k];
        } else {
          assert r[k] == list[k + 1];
        }
      }
    }
  }

  /** Unbinding keeps the invariant. */
  lemma UnboundSound(nodes: seq<Node>, root: seq<nat>, lastId: int, focused: Option<nat>, dragging: Option<nat>,
                     e: nat, ch: Channel, id: int)
    requires Sound(nodes, root, lastId, focused, dragging) && e < |nodes| && ch in nodes[e].handlers
    ensures var r := Unbound(nodes, e, ch, id);
      Sound(r, root, lastId, focused, dragging) && InputsOf(r) == InputsOf(nodes)
  {
    var r := Unbound(nodes, e, ch, id);
    Reshaped(nodes, e, r[e]);
    SameShapeTree(nodes, r, root);
    SameShapeInputs(nodes, r);
    UnboundHandlers(nodes, lastId, e, ch, id);
  }

  lemma UnboundHandlers(nodes: seq<Node>, lastId: int, e: nat, ch: Channel, id: int)
    requires HandlersOk(nodes, lastId) && e < |nodes| && ch in nodes[e].handlers
    ensures HandlersOk(Unbound(nodes, e, ch, id), lastId)
  {
    var r := Unbound(nodes, e, ch, id);
    forall i | 0 <= i < |r|
      ensures r[i].handlers.Keys == ChannelsOf(r[i].kind)
      ensures forall c :: c in r[i].handlers ==> Issued(r[i].handlers[c], lastId)
    {
      UnboundAt(nodes, lastId, e, ch, id, i);
    }
  }

  /** One element's lists after an unbinding. */
  lemma UnboundAt(nodes: seq<Node>, lastId: int, e: nat, ch: Channel, id: int, i: nat)
    requires HandlersOk(nodes, lastId) && e < |nodes| && ch in nodes[e].handlers && i < |nodes|
    ensures var r := Unbound(nodes, e, ch, id);
      && r[i].handlers.Keys == ChannelsOf(r[i].kind)
      && forall c :: c in r[i].handlers ==> Issued(r[i].handlers[c], lastId)
  {
    var r := Unbound(nodes, e, ch, id);
    forall c | c in r[i].handlers
      ensures Issued(r[i].handlers[c], lastId)
    {
      var list := nodes[i].handlers[c];
      assert Issued(list, lastId);
      if i == e && c == ch {
        assert r[i].handlers[c] == WithoutFirst(list, id);
        WithoutFirstIssued(list, id, lastId);
      } else {
        assert r[i].handlers[c] == list;
      }
    }
  }

  // ---------------------------------------------------------------------------
  // The input router keeps the invariant (sxui.c:673-773, 1063-1086)
  // ---------------------------------------------------------------------------

  /** A press changes no element's type, links or lists, and leaves focus and drag valid. */
  lemma PressSound(nodes: seq<Node>, root: seq<nat>, lastId: int, p: Grip, hit: Option<nat>, mx: int, my: int)
    requires Sound(nodes, root, lastId, p.focused, p.dragging) && (hit.Some? ==> hit.value < |nodes|)
    ensures var o := Press(nodes, p, hit, mx, my);
      Sound(o.nodes, root, lastId, o.grip.focused, o.grip.dragging) && InputsOf(o.nodes) == InputsOf(nodes)
  {
    var o := Press(nodes, p, hit, mx, my);
    PressChanges(nodes, p, hit, mx, my);
    PressFocusOk(nodes, p, hit, mx, my);
    PressDrag(nodes, p, hit, mx, my);
    assert SameWiring(nodes, o.nodes) by {
      forall j | 0 <= j < |nodes|
        ensures o.nodes[j].kind == nodes[j].kind && o.nodes[j].parent == nodes[j].parent
        ensures o.nodes[j].children == nodes[j].children && o.nodes[j].handlers == nodes[j].handlers
      {
        if Some(j) == hit {
          assert o.nodes[j] == nodes[j].(pressed := o.nodes[j].pressed, checked := o.nodes[j].checked);
        }
      }
    }
    RewiredSound(nodes, o.nodes, root, lastId, p.focused, p.dragging);
  }

  /** A wheel step changes only a scroll position. */
  lemma WheelSound(nodes: seq<Node>, root: seq<nat>, lastId: int, focused: Option<nat>, dragging: Option<nat>,
                   hit: Option<nat>, dy: int)
    requires Sound(nodes, root, lastId, focused, dragging) && (hit.Some? ==> hit.value < |nodes|)
    ensures var r := WheelOf(nodes, hit, dy);
      Sound(r, root, lastId, focused, dragging) && InputsOf(r) == InputsOf(nodes)
  {
    var r := WheelOf(nodes, hit, dy);
    WheelScrollsOne(nodes, hit, dy);
    assert SameWiring(nodes, r) by {
      forall j | 0 <= j < |nodes|
        ensures r[j].kind == nodes[j].kind && r[j].parent == nodes[j].parent
        ensures r[j].children == nodes[j].children && r[j].handlers == nodes[j].handlers
      {
        assert r[j] == nodes[j].(frame := nodes[j].frame.(scrollY := r[j].frame.scrollY));
      }
    }
    RewiredSound(nodes, r, root, lastId, focused, dragging);
  }

  /** The hover pass changes only hover marks. */
  lemma HoverSound(nodes: seq<Node>, root: seq<nat>, lastId: int, focused: Option<nat>, dragging: Option<nat>,
                   mx: int, my: int, expired: set<nat>)
    requires Sound(nodes, root, lastId, focused, dragging)
    ensures var r := HoverList(nodes, root, 0, 0, 0, 0, mx, my, expired).0;
      Sound(r, root, lastId, focused, dragging) && InputsOf(r) == InputsOf(nodes)
  {
    var r := HoverList(nodes, root, 0, 0, 0, 0, mx, my, expired).0;
    HoverMarksOnly(nodes, root, 0, 0, 0, 0, mx, my, expired);
    OnlyMarksWiring(nodes, r);
    RewiredSound(nodes, r, root, lastId, focused, dragging);
  }

  /** Moving the dragged element changes only its position. */
  lemma DragSound(nodes: seq<Node>, root: seq<nat>, lastId: int, p: Grip, mx: int, my: int)
    requires Sound(nodes, root, lastId, p.focused, p.dragging)
    ensures var r := DragMove(nodes, p, mx, my);
      Sound(r, root, lastId, p.focused, p.dragging) && InputsOf(r) == InputsOf(nodes)
  {
    if p.dragging.Some? {
      var d := p.dragging.value;
      var m := nodes[d].(x := mx - p.offX, y := my - p.offY);
      assert DragMove(nodes, p, mx, my) == nodes[d := m];
      RetouchSound(nodes, root, lastId, p.focused, p.dragging, d, m);
    } else {
      assert DragMove(nodes, p, mx, my) == nodes;
    }
  }
}
