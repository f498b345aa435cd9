# SXUI core in Dafny

A verified model of the state-handling half of SXUI (`deps/sxui/sxui.c`), a small
SDL-based retained-mode UI toolkit. SXUI keeps a tree of widgets (frames,
buttons, labels, checkboxes, sliders, text inputs). It lays out each frame's
children, hit-tests the mouse against the tree, routes mouse, wheel and keyboard
events, and edits the text of the focused input. Everything that draws or calls
SDL is outside the model.

Modules, leaves first:

- `Wrappers`: `Option`, standing for an address that may be NULL.
- `Colors`: `rgba_to_uint` / `uint_to_rgba` over `bv8`/`bv32`, and the integer part of `sx_generate_palette`.
- `Flags`: the `UIFlags` bits of `sxui.h`, setting and clearing one bit, and the layout mode the bits select.
- `Bindings`: the `BoundCallback` records of a handler list, and `disconnect_binding`'s removal of the first record with an id.
- `TextEdit`: the input widget's editor. This covers `clamp`, `is_delimiter`, the two word-boundary scans, `delete_selection`, `read_input` and the scroll-offset update. The buffer is a `seq<char>` whose length is the C `len`. The editor itself is the class `TextInput`, whose methods update it in place.
- `Layout`: `sx_update_layout` as a specification (`Run`) over the children's rectangles, with its properties.
- `Widgets`: the widget tree as an arena. A widget is referred to by its index into a `seq<Node>`. Each node holds its parent index and its ordered child list. The module also has `_get_hit`, the wheel's walk up to a scrollable frame, the wheel clamp and hover edges.
- `Arena`: the layout pass written back into the arena, and the method `LayoutPass` that runs it as a loop.
- `Router`: what one mouse press, release, drag move, wheel step or key event does, as functions on values.
- `Hover`: the hover enter/leave detection of `sx_render_recursive` and its clearing of expired button presses, without the drawing.
- `Build`: element creation (`_add_to_parent`), binding into an element's list, and the proof that every step keeps the engine invariant.
- `Sxui`: the class `Engine` (the C `SXUI_Engine` global). It holds the arena, the top-level list, `focused`, `dragging_el` and its offset, the `running` flag, the id counter `GLOBAL_CONN_ID`, and the log of callbacks run. It also has every public operation of the core.

The model never runs a callback. Each `trigger_*` loop becomes one `Call` record per bound callback, in list order, appended to the engine's `log`. The clipboard is passed in and returned as a plain value. Text measurement is a parameter `measure: seq<char> -> nat`, and the empty string measures 0.

## Model

| member | source | states |
|---|---|---|
| `Colors.UnpackPack` | deps/sxui/sxui.c:128-137 | unpacking a packed colour gives back its four channels |
| `Colors.PackUnpack` | deps/sxui/sxui.c:128-137 | packing the channels of any 32-bit colour gives back the colour |
| `Colors.RgbaToUint` | deps/sxui/sxui.c:128-130 | red is bits 24-31, green bits 16-23, blue bits 8-15 and alpha bits 0-7 of the packed word |
| `Colors.UintToRgba` | deps/sxui/sxui.c:132-137 | red, green, blue and alpha are taken from bits 24-31, 16-23, 8-15 and 0-7 |
| `Colors.GeneratePalette` | deps/sxui/sxui.c:150-171 | primary and seed are the seed colour; the other palette colours are opaque in both modes; background and text differ |
| `Flags.Set` | deps/sxui/sxui.c:873-885 | `flags \|= bit` sets the bit and keeps every other bit |
| `Flags.Clear` | deps/sxui/sxui.c:873-885 | `flags &= ~bit` clears the bit and keeps every other bit |
| `Flags.ModeOf` | deps/sxui/sxui.c:536-558 | grid when the grid bit is set; horizontal when only the horizontal bit is; vertical otherwise |
| `Bindings.FirstIndex` | deps/sxui/sxui.c:242-244 | the first record carrying the id, or the list length when none does |
| `Bindings.WithoutFirst` | deps/sxui/sxui.c:240-250 | an absent id leaves the list as it is; otherwise exactly the first record carrying it is removed and the rest keep their order |
| `Bindings.RemoveFirst` | deps/sxui/sxui.c:242-249 | the scan loop of `disconnect_binding` computes `WithoutFirst` |
| `Bindings.BindThenRemove` | deps/sxui/sxui.c:228-250 | removing a record just appended under an id above all others gives back the old list |
| `Bindings.RemovalCount` | deps/sxui/sxui.c:240-250 | removal shortens the list by one exactly when some record carries the id |
| `TextEdit.Clamp` | deps/sxui/sxui.c:308-312 | the result is in [min, max], is val when val is inside, min below and max above |
| `TextEdit.IsDelimiter` | deps/sxui/sxui.c:314-316 | a character is a delimiter exactly when it is not an ASCII letter or digit |
| `TextEdit.IsNextBoundary` | deps/sxui/sxui.c:318-324 | from p at or past the end, the end; otherwise a position after p such that no delimiter follows a word character between p and it, and which is the end or a delimiter right after a word character |
| `TextEdit.IsPrevBoundary` | deps/sxui/sxui.c:326-333 | from p <= 0, 0; otherwise the last delimiter-to-word transition before p, or 0 when there is none |
| `TextEdit.FindNextWordBoundary` | deps/sxui/sxui.c:318-324 | len when p >= len; otherwise a value in (p, len] that ends the first word at or after p, past the delimiters before it |
| `TextEdit.FindPrevWordBoundary` | deps/sxui/sxui.c:326-333 | 0 when p <= 0; otherwise a value in [0, p) that is the last delimiter-to-word transition before p, or 0 |
| `TextEdit.NextBoundaryUnique` | deps/sxui/sxui.c:318-324 | the next-boundary rule determines one position |
| `TextEdit.PrevBoundaryUnique` | deps/sxui/sxui.c:326-333 | the previous-boundary rule determines one position |
| `TextEdit.DeleteSelectionOf` | deps/sxui/sxui.c:335-349 | a no-op when cursor == anchor; otherwise text becomes text[..start] + text[end..], len shrinks by end - start and cursor = anchor = start |
| `TextEdit.InsertOf` | deps/sxui/sxui.c:352-365 | the selection is deleted first; n characters are spliced at the cursor only if len + n < INPUT_MAX - 1, moving cursor = anchor to cursor + n; a rejected insertion leaves the state after the deletion |
| `TextEdit.InsertFired` | deps/sxui/sxui.c:352-365 | typed text or a paste sends only text-changed notifications; none exactly when there is no selection and the text does not fit; when it fits, the last one carries the text after the insertion |
| `TextEdit.ClipboardAfter` | deps/sxui/sxui.c:435-461 | Ctrl+C and Ctrl+X with a non-empty selection put on the clipboard a non-empty string of the selection's length starting at its lower end; every other key, and an empty selection, leaves the clipboard as it was |
| `TextEdit.KeyHandled` | deps/sxui/sxui.c:366-488 | one key press: the focus is left exactly on Return and keypad Enter, the clipboard is `ClipboardAfter`, and each key's effect on text, cursor, anchor and notifications is the matching rule (Backspace, Delete, arrows, Home/End, select-all, copy, cut, paste, Enter, other keys change nothing) |
| `TextEdit.KeyKeepsWellFormed` | deps/sxui/sxui.c:366-488 | every key press keeps 0 <= cursor, anchor <= len <= INPUT_MAX - 1 |
| `TextEdit.CtrlBackspaceScenario` | deps/sxui/sxui.c:372-380 | Ctrl+Backspace at the end of "hello world" leaves "hello " with cursor and anchor at 6 and one text-changed notification |
| `TextEdit.ScrollAfter` | deps/sxui/sxui.c:490-517 | the offset is never negative; it is 0 when the text is narrower than the field, at most total - cw otherwise, brings the caret into view, and keeps an offset that already shows it |
| `TextEdit.Truncate` | deps/sxui/sxui.c:916-917 | at most INPUT_MAX - 1 = 255 characters are kept: a prefix, the whole string when it fits |
| `TextEdit.TextInput.constructor` | deps/sxui/sxui.c:831-833 | a new input's text is empty and its cursor, anchor and scroll offset are 0 |
| `TextEdit.TextInput.DeleteSelection` | deps/sxui/sxui.c:335-349 | the in-place deletion computes `DeleteSelectionOf` and notifies text-changed only when something was deleted |
| `TextEdit.TextInput.Insert` | deps/sxui/sxui.c:352-365 | typed text and paste compute `InsertOf`, with one notification per deletion and per insertion |
| `TextEdit.TextInput.EraseBackward` | deps/sxui/sxui.c:372-390 | Backspace deletes the selection, or else removes text[cursor-1] (Ctrl: text[boundary..cursor]) and moves the cursor there; nothing at position 0 |
| `TextEdit.TextInput.EraseForward` | deps/sxui/sxui.c:391-408 | Delete deletes the selection, or else removes text[cursor] (Ctrl: text[cursor..boundary]) and keeps the cursor; nothing at the end |
| `TextEdit.TextInput.Arrow` | deps/sxui/sxui.c:409-422 | Left/Right move the cursor by one, clamped to [0, len], or (Ctrl) to the word boundary; the anchor follows unless Shift is held |
| `TextEdit.TextInput.JumpKey` | deps/sxui/sxui.c:423-434 | Home/End put the cursor at 0/len, with the anchor too unless Shift is held; Ctrl+A sets anchor = 0 and cursor = len |
| `TextEdit.TextInput.CopyOrCut` | deps/sxui/sxui.c:435-461 | a non-empty selection goes to the clipboard; a cut also deletes it; an empty selection changes nothing |
| `TextEdit.TextInput.ClipboardKey` | deps/sxui/sxui.c:435-481 | Ctrl+C, Ctrl+X and Ctrl+V as `KeyHandled` says; paste only with non-empty clipboard text; without Ctrl the keys do nothing |
| `TextEdit.TextInput.EditingKey` | deps/sxui/sxui.c:372-434 | the editing and moving keys satisfy `KeyHandled`, leave the clipboard alone and keep the focus |
| `TextEdit.TextInput.CommandKey` | deps/sxui/sxui.c:435-487 | the clipboard keys and Enter satisfy `KeyHandled`; Enter notifies submit, then focus lost, and drops the focus |
| `TextEdit.TextInput.HandleKey` | deps/sxui/sxui.c:366-488 | the key-down branch of `read_input` satisfies `KeyHandled` and keeps the editor well formed |
| `TextEdit.TextInput.Rescroll` | deps/sxui/sxui.c:490-517 | the new scroll offset is `ScrollAfter` of the caret pixel, the text width (asterisks for a password) and the width less 10 |
| `TextEdit.TextInput.ReadInput` | deps/sxui/sxui.c:351-518 | a text event is `InsertOf`, a key event `KeyHandled`, and then the scroll update |
| `TextEdit.TextInput.PlaceCaretAtEnd` | deps/sxui/sxui.c:726-727 | cursor = anchor = len |
| `TextEdit.TextInput.SetText` | deps/sxui/sxui.c:914-919 | the text becomes the first 255 characters and cursor = anchor = len |
| `Layout.DefaultW` | deps/sxui/sxui.c:533 | a zero width becomes non-zero (target_w, or 100); a non-zero width is kept |
| `Layout.DefaultH` | deps/sxui/sxui.c:534 | a zero height becomes non-zero (target_h, or 30); a non-zero height is kept |
| `Layout.Place` | deps/sxui/sxui.c:530-558 | a hidden child and the pen stay as they are; a visible one gets its default size, sits at the pen outside grid mode, and the pen then moves below it by spacing in vertical mode or right of it by spacing otherwise, on the same row |
| `Layout.Run` | deps/sxui/sxui.c:529-559 | the pass over the children in list order returns one box per child, each placed with the pen the earlier children left |
| `Layout.RunAt` | deps/sxui/sxui.c:529-559 | child k is placed with the pen that the children before it leave |
| `Layout.RunShape` | deps/sxui/sxui.c:531-534 | hidden children are left untouched; visible ones keep non-zero sizes and get the defaults for zero ones |
| `Layout.VerticalPen` | deps/sxui/sxui.c:554-558 | in vertical mode the pen stays at x = padding and advances by h + spacing per visible child |
| `Layout.VerticalPositions` | deps/sxui/sxui.c:554-560 | vertical mode puts every visible child at x = padding, below the ones before it; content_height = 2 padding + the stacked heights |
| `Layout.HorizontalPen` | deps/sxui/sxui.c:549-553 | in horizontal mode the pen stays at y = padding, advances by w + spacing, and tracks the tallest child |
| `Layout.HorizontalPositions` | deps/sxui/sxui.c:549-560 | horizontal mode keeps y = padding and puts x after the widths before it; content_height = 2 padding + the tallest child |
| `Layout.GridFits` | deps/sxui/sxui.c:536-548 | in grid mode a visible child starts its row at x = padding or satisfies x + w + padding <= frame width |
| `Layout.GridRowsBounded` | deps/sxui/sxui.c:536-548 | with max_grid_cols > 0 the column counter, the size of the current row, never exceeds max_grid_cols |
| `Layout.GridFirstChildWraps` | deps/sxui/sxui.c:537-541 | a first grid child that does not fit is still wrapped, to y = padding + spacing |
| `Layout.GridScenario` | deps/sxui/sxui.c:536-548 | two 200-wide children in a 300-wide grid with padding and spacing 10 go on two rows |
| `Layout.PlaceAgain` | deps/sxui/sxui.c:530-558 | placing an already placed child again with the same pen changes nothing |
| `Layout.RunIdempotent` | deps/sxui/sxui.c:524-561 | a second pass over the result of a pass yields the same rectangles and pen |
| `Arena.WithBox` | deps/sxui/sxui.c:544-545 | writing a rectangle into a child changes its x, y, w and h and nothing else |
| `Arena.WriteBack` | deps/sxui/sxui.c:544-545 | writing the boxes back into the listed children keeps the number of elements |
| `Arena.Relayout` | deps/sxui/sxui.c:524-561 | the pass on the arena keeps the number of elements |
| `Arena.RelayoutEffect` | deps/sxui/sxui.c:524-561 | each child gets its rectangle from `Run`, the frame gets content_height, and every other element is unchanged |
| `Arena.RelayoutWiring` | deps/sxui/sxui.c:524-561 | a pass changes no type, link, child list, flag or callback list |
| `Arena.RelayoutMovesOnly` | deps/sxui/sxui.c:544-545 | every element but the frame changes at most its rectangle |
| `Arena.BoxesAfterRelayout` | deps/sxui/sxui.c:524-561 | after a pass the children's rectangles are those `Run` computed |
| `Arena.RelayoutTwice` | deps/sxui/sxui.c:524-561 | a second pass with no change in between alters nothing |
| `Arena.LayoutPass` | deps/sxui/sxui.c:524-561 | the loop over the children, writing each rectangle in turn, computes `Relayout` |
| `Arena.PlaceChild` | deps/sxui/sxui.c:530-558 | one loop iteration computes `Layout.Place` |
| `Widgets.EmptyHandlers` | deps/sxui/sxui.c:586-600 | a new element owns exactly the callback lists of its type, all empty |
| `Widgets.AncestorBefore` | deps/sxui/sxui.c:602-605 | an ancestor comes before its descendant in creation order |
| `Widgets.Hit` | deps/sxui/sxui.c:567-580 | the result is null or a non-hidden element |
| `Widgets.GetHit` | deps/sxui/sxui.c:567-580 | the reverse loop with recursion into the catching element computes `Hit` |
| `Widgets.HitNone` | deps/sxui/sxui.c:567-580 | null exactly when no element of the list contains the point, edges included |
| `Widgets.HitOnScreen` | deps/sxui/sxui.c:567-580 | the element found contains the point at its screen position (ancestors' positions minus each frame ancestor's scroll_y), and none of its children does |
| `Widgets.HitTopmost` | deps/sxui/sxui.c:567-580 | the element found is the highest-index catching element of the list or one of its descendants |
| `Widgets.ScrollTarget` | deps/sxui/sxui.c:748-760 | the nearest scrollable frame at or above the hit element, or none when no ancestor is one |
| `Widgets.ScrollBy` | deps/sxui/sxui.c:752-755 | scroll_y moves 40 pixels per notch, is floored at 0 and capped at content_height - h only when that limit is positive |
| `Widgets.HoverEdge` | deps/sxui/sxui.c:1071-1072 | enter iff hovered now and not before; leave iff the converse; nothing when unchanged |
| `Widgets.Calls` | deps/sxui/sxui.c:252-302 | a trigger runs every callback of the list, in list order, on the element |
| `Router.FocusCalls` | deps/sxui/sxui.c:259-264 | one focus notification per callback on the input's focus list |
| `Router.Press` | deps/sxui/sxui.c:683-736 | the outcome of a mouse press keeps the number of elements; what it does to focus, drag and the hit element is stated by `PressFocus`, `PressChanges` and `PressDrag`, and the callbacks it runs, in order, by `PressFocusCalls` |
| `Router.Release` | deps/sxui/sxui.c:738-745 | a release ends any drag and keeps the drag offsets; the focus is kept, unless it is a slider, in which case it is cleared |
| `Router.WheelOf` | deps/sxui/sxui.c:747-761 | a wheel step keeps the number of elements; that it scrolls only the nearest scrollable frame is `WheelScrollsOne` |
| `Router.DragMove` | deps/sxui/sxui.c:770-773 | without a drag nothing moves; with one, only the dragged element moves, to the mouse position less the grab offsets |
| `Router.FireCalls` | deps/sxui/sxui.c:274-286 | every callback an edit's notifications run belongs to the edited element and is a text-changed, submit or focus callback; notifications that are all text changes run only text-changed callbacks |
| `Router.PressStep` | deps/sxui/sxui.c:683-736 | the mouse-down branch computes `Press` |
| `Router.PressFocus` | deps/sxui/sxui.c:687-735 | after a press the focus is the hit element if it is an input or slider, and none otherwise |
| `Router.PressFocusOk` | deps/sxui/sxui.c:687-728 | after a press the focus still names an input or a slider |
| `Router.PressFocusCalls` | deps/sxui/sxui.c:687-725 | the callbacks of a press are exactly, in order: the lost-focus notification of a different focused input, then a button's click callbacks or a checkbox's value callbacks with its new value, then the gained-focus notification of an input that was not focused; pressing the focused element sends no focus notification |
| `Router.PressChanges` | deps/sxui/sxui.c:702-712 | a press changes only the hit element: a button is marked pressed, a checkbox is toggled |
| `Router.PressDrag` | deps/sxui/sxui.c:696-700 | a draggable hit starts a drag with offset mouse - position; otherwise the drag state is kept |
| `Router.ReleaseFocus` | deps/sxui/sxui.c:738-745 | a release clears the drag, takes focus from a slider and keeps an input's focus |
| `Router.DragFollowsMouse` | deps/sxui/sxui.c:770-773 | after a press on a draggable element, the drag move shifts it by the mouse's displacement |
| `Router.WheelStep` | deps/sxui/sxui.c:747-761 | the walk up the parents computes `WheelOf` |
| `Router.WheelScrollsOne` | deps/sxui/sxui.c:747-761 | a wheel step changes only the scroll_y of the nearest scrollable frame, by `ScrollBy`, and changes nothing if there is none |
| `Router.FireCallsJoin` | deps/sxui/sxui.c:274-286 | the callbacks of a sequence of notifications are those of its parts in order |
| `Router.EnterCalls` | deps/sxui/sxui.c:482-485 | Enter runs the submit callbacks with the text, then the focus callbacks with 0 |
| `Hover.EdgeCalls` | deps/sxui/sxui.c:1069-1073 | no callback when the hover state is unchanged; otherwise enter callbacks with 1 or leave callbacks with 0 |
| `Hover.HoverList` | deps/sxui/sxui.c:1063-1086 | the pass over a list, skipping hidden elements, keeps the number of elements |
| `Hover.Visit` | deps/sxui/sxui.c:1065-1108 | visiting one element keeps the number of elements; what it marks and calls is `VisitMarks` |
| `Hover.PressedAfter` | deps/sxui/sxui.c:1104-1108 | a button's pressed mark survives the render pass exactly when it was set and its click has not expired; other elements keep theirs |
| `Hover.HoverPass` | deps/sxui/sxui.c:1063-1108 | the loop over a list, skipping hidden elements and descending into frames, computes `HoverList` |
| `Hover.VisitPass` | deps/sxui/sxui.c:1065-1108 | one visible element's edge callbacks and new mark, its pressed mark cleared when it is a button whose click has expired, then a frame's children offset by its scroll |
| `Hover.HoverMarksOnly` | deps/sxui/sxui.c:1063-1108 | the pass changes nothing but the hover marks and the buttons' pressed marks |
| `Hover.HoverEdgesOnly` | deps/sxui/sxui.c:1069-1073 | every callback the pass runs is an enter given 1 or a leave given 0 |
| `Hover.ListKeepsBelow` | deps/sxui/sxui.c:1063-1086 | the pass over a list leaves every element created before the list's owner untouched |
| `Hover.VisitKeepsBelow` | deps/sxui/sxui.c:1065-1085 | visiting an element and its descendants leaves every element created before it untouched, so a frame's own mark survives its children's pass |
| `Hover.VisitMarks` | deps/sxui/sxui.c:1069-1108 | a visited element, a frame included, records whether it contains the point, and its edge callbacks run before its children's; a visited button stays pressed exactly when it was pressed and its click has not expired |
| `Build.Fresh` | deps/sxui/sxui.c:586-600 | a new element has no parent and no children, keeps the type, rectangle, flags and text it was given, is neither hovered, pressed nor checked, and owns its type's callback lists, all empty |
| `Build.FrameNode` | deps/sxui/sxui.c:802-811 | a frame gets the given rectangle and flags, padding 10, spacing 8, a 6-pixel scroll bar, zero scroll, content height and grid columns, and empty enter and leave lists |
| `Build.ButtonNode` | deps/sxui/sxui.c:813-821 | a button gets the label, no flags, a zero rectangle, not pressed, and a click list holding the callback under the given id exactly when there is one |
| `Build.LabelNode` | deps/sxui/sxui.c:823-829 | a label gets the text, no flags and a zero size |
| `Build.InputNode` | deps/sxui/sxui.c:831-841 | an input holds its editor, has the password flag exactly when asked and no other flag, and shows the whole placeholder when it has at most 255 characters, otherwise its first 255 |
| `Build.CheckboxNode` | deps/sxui/sxui.c:843-850 | a checkbox gets the label, starts unchecked, and has an empty value-changed list |
| `Build.SliderNode` | deps/sxui/sxui.c:852-858 | a slider has no flags and an empty value-changed list |
| `Build.Linked` | deps/sxui/sxui.c:602-610 | linking adds exactly one element to the arena |
| `Build.Added` | deps/sxui/sxui.c:602-610 | creating an element adds exactly one element to the arena; where it goes is `AddedPlacement` |
| `Build.LinkedTree` | deps/sxui/sxui.c:602-610 | linking a new element keeps parent links and child lists consistent |
| `Build.AddedPlacement` | deps/sxui/sxui.c:602-610 | the new element ends its parent's child list (or the top-level list) and keeps its fields except the rectangle a frame parent's layout sets |
| `Build.BindUnbind` | deps/sxui/sxui.c:228-250 | disconnecting the connection a binding returned restores the element's lists |
| `Build.BoundSound` | deps/sxui/sxui.c:228-238 | binding under the next id keeps the engine invariant, with that id issued |
| `Build.UnboundSound` | deps/sxui/sxui.c:240-250 | disconnecting keeps the engine invariant |
| `Build.PressSound` | deps/sxui/sxui.c:683-736 | a press keeps the engine invariant and the set of editors |
| `Build.WheelSound` | deps/sxui/sxui.c:747-761 | a wheel step keeps the engine invariant |
| `Build.HoverSound` | deps/sxui/sxui.c:1063-1108 | the hover pass keeps the engine invariant |
| `Build.DragSound` | deps/sxui/sxui.c:770-773 | the drag move keeps the engine invariant |
| `Sxui.EditorAt` | deps/sxui/sxui.c:763-765 | an editor is found exactly when the element is an input |
| `Sxui.ReadFocused` | deps/sxui/sxui.c:490-491 | `read_input` on an input uses its width and its password flag |
| `Sxui.Engine.constructor` | deps/sxui/sxui.c:616-636 | no elements, nothing focused or dragged, running, the dark palette of the seed |
| `Sxui.Engine.ShouldQuit` | deps/sxui/sxui.c:665-667 | true exactly when the engine is no longer running |
| `Sxui.Engine.SetTheme` | deps/sxui/sxui.c:646-648 | the theme is the palette of the seed and mode |
| `Sxui.Engine.UpdateLayout` | deps/sxui/sxui.c:524-561 | the arena becomes `Relayout` of the frame and the invariant holds |
| `Sxui.Engine.AddToParent` | deps/sxui/sxui.c:602-610 | the element is linked and a frame parent is laid out again |
| `Sxui.Engine.NewFrame` | deps/sxui/sxui.c:802-811 | a frame with the given rectangle and flags, padding 10, spacing 8 and scroll bar width 6 is added |
| `Sxui.Engine.NewButton` | deps/sxui/sxui.c:813-821 | a button is added, with its callback bound under the next id when one is given |
| `Sxui.Engine.NewLabel` | deps/sxui/sxui.c:823-829 | a label is added |
| `Sxui.Engine.NewInput` | deps/sxui/sxui.c:831-841 | an input with a fresh empty editor, the password flag if asked, and the placeholder cut to 255 characters is added |
| `Sxui.Engine.NewCheckbox` | deps/sxui/sxui.c:843-850 | an unchecked checkbox is added |
| `Sxui.Engine.NewSlider` | deps/sxui/sxui.c:852-859 | a slider is added |
| `Sxui.Engine.SetPosition` | deps/sxui/sxui.c:865-867 | only x and y of the element change; null changes nothing |
| `Sxui.Engine.SetSize` | deps/sxui/sxui.c:869-871 | only w and h of the element change; null changes nothing |
| `Sxui.Engine.SetVisible` | deps/sxui/sxui.c:873-878 | only the hidden bit changes, and it is set iff not visible |
| `Sxui.Engine.SetDraggable` | deps/sxui/sxui.c:880-885 | only the draggable bit changes, and it is set iff draggable |
| `Sxui.Engine.GetFlags` | deps/sxui/sxui.c:891-893 | the flags of the element, and 0 for null |
| `Sxui.Engine.GetText` | deps/sxui/sxui.c:895-902 | a text exactly for a button, label, input or checkbox: an input's editor text, otherwise its caption; nothing for null, a frame or a slider |
| `Sxui.Engine.SetFlags` | deps/sxui/sxui.c:887-893 | the flags become the argument with no layout pass; get_flags reads them back, and 0 for null |
| `Sxui.Engine.SetText` | deps/sxui/sxui.c:904-925 | a button, label or checkbox takes the whole text; an input keeps 255 characters with the caret at the end; get_text reads back what was kept |
| `Sxui.Engine.FrameSetPadding` | deps/sxui/sxui.c:951-956 | the padding changes and the frame is laid out again; not a frame: nothing |
| `Sxui.Engine.FrameSetSpacing` | deps/sxui/sxui.c:958-963 | the spacing changes and the frame is laid out again |
| `Sxui.Engine.FrameSetDefaultChildSize` | deps/sxui/sxui.c:965-971 | target_w and target_h change and the frame is laid out again |
| `Sxui.Engine.FrameSetGridColumns` | deps/sxui/sxui.c:973-978 | max_grid_cols changes and the frame is laid out again |
| `Sxui.Engine.FrameSetScrollbarWidth` | deps/sxui/sxui.c:980-984 | only the scroll bar width changes, with no layout pass |
| `Sxui.Engine.FrameUpdateLayout` | deps/sxui/sxui.c:986-990 | a frame is laid out again; anything else is left alone |
| `Sxui.Engine.Connect` | deps/sxui/sxui.c:996-1053 | with an element of the right type and a callback, one record under the next id goes at the end of the list and the connection carries it; otherwise {0, NULL} and nothing changes |
| `Sxui.Engine.Disconnect` | deps/sxui/sxui.c:1055-1057 | the first record with the connection's id leaves its list; a null list changes nothing |
| `Sxui.Engine.MouseDown` | deps/sxui/sxui.c:683-736 | the press on the hit element, as `Press` says, with its callbacks logged; a pressed input gets cursor = anchor = len |
| `Sxui.Engine.PressOn` | deps/sxui/sxui.c:687-725 | the press on a given element as `Press` says, with its callbacks logged |
| `Sxui.Engine.CaretToEnd` | deps/sxui/sxui.c:726-727 | the pressed input's cursor and anchor go to len |
| `Sxui.Engine.MouseUp` | deps/sxui/sxui.c:738-745 | the focus and drag state becomes `Release` of the old one |
| `Sxui.Engine.Wheel` | deps/sxui/sxui.c:747-761 | the arena becomes `WheelOf` of the element under the mouse |
| `Sxui.Engine.Typing` | deps/sxui/sxui.c:763-767 | key and text events reach `read_input` only when an input has focus; its notifications are logged and Enter clears the focus |
| `Sxui.Engine.EditFocused` | deps/sxui/sxui.c:765 | the focused input's editor reads the event and every other editor stays well formed |
| `Sxui.Engine.HoverRender` | deps/sxui/sxui.c:1063-1108 | the hover pass over the top-level list, with its callbacks logged and the pressed marks of expired buttons cleared |
| `Sxui.Engine.DragStep` | deps/sxui/sxui.c:770-773 | the dragged element moves to mouse - offset |
| `Sxui.Engine.Dispatch` | deps/sxui/sxui.c:683-767 | one event keeps the engine invariant, the editors and the number of elements, and only appends to the log |
| `Sxui.Engine.PollEvents` | deps/sxui/sxui.c:673-773 | every queued event in order, then the drag move; a quit event clears `running` |

## Left out

- Drawing, windowing and fonts: `_draw_rect`, `_draw_text`, the drawing parts of `sx_render_recursive`, `sxui_render`, `sxui_init`'s window and renderer, `sxui_cleanup` and `sxui_load_font` are calls into SDL and SDL_ttf.
- `_measure_text` and `_measure_text_len` call the font library. The model takes a width function `measure` as a parameter instead, and the empty string measures 0.
- Floating point is not modelled. This leaves out the slider value and its drag update with the 0.001 epsilon (sxui.c:775-795), `sxui_set_value` / `sxui_get_value`, `shift_color` and the secondary palette colour, and the scroll bar fade alpha.
- `SDL_GetTicks` timestamps (a button's last press time, a frame's last scroll time) come from the environment and are not recorded; the render pass instead takes the set of buttons whose click is 100 ms old or more (`expired`).
- `SDL_StartTextInput` / `SDL_StopTextInput` are backend side effects and are not modelled.
- Clipboard access is not modelled as calls. The clipboard is a value passed in and returned, and `SDL_HasClipboardText` is taken to mean non-empty clipboard text.
- Callbacks are never invoked. Each dispatch is recorded as `Call` entries in the engine's log. So a callback that binds or unbinds during dispatch is not modelled.
- Widgets are never freed or re-parented in the source, so removal is not modelled.
- The source can never reach the branches at sxui.c:719-721 and 731-735: the check at 687-693 has already cleared any other focus. The model produces the same effects without writing those branches out.
- `deps/sxui/showcase.c`, `deps/sxui/example.c` and `showcases/simple_login_form/main.c` are demo programs. `dynamic_list.h` is not part of this model; its lists are Dafny sequences.
- Integers are unbounded. C `int` overflow (layout sums, `scroll_y - wheel.y * 40`, the id counter) is not modelled.
- TextEdit.IsDelimiter: `isalnum` is modelled for the C locale on ASCII letters and digits. The undefined behaviour of a negative `char` is not modelled.
- TextEdit.InsertOf: one `char` stands for one byte. A NUL byte inside typed or pasted text is not modelled, because SDL never delivers one.
- TextEdit.Truncate: `strncpy` also stops at an embedded NUL. Strings are modelled without NULs.
- Widgets.Hit: the search only considers elements at an index above the enclosing element. In a well-formed tree this always holds, so the extra condition never changes the result.
- Sxui.Engine.Dispatch: its own contract states only the invariant and a growing log. The branch methods it calls (MouseDown, MouseUp, Wheel, Typing) state what each event does.
- Sxui.Engine.PollEvents: its own contract states only the invariant, the quit flag, a growing log and the drag move. What each event does is stated by the per-branch methods it calls.

## Source behaviour worth noting

- Typed and pasted text is accepted only when `len + n < INPUT_MAX - 1`, so typing stops at 254 characters. `sxui_set_text` keeps 255. An insertion that does not fit is rejected whole, not truncated, and a selection is still deleted first.
- Layout never clamps `scroll_y`. A wheel step caps `scroll_y` at `content_height - h` only when that is positive, so a frame whose content fits can be scrolled down without bound.
- `sxui_set_flags` does not re-run layout. `sxui_frame_set_scrollbar_width` does not either.
- In grid mode, a first child that does not fit the frame's width is still wrapped: its y becomes padding + spacing.
