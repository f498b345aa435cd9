/**
 * The text-editing engine of the input widget (deps/sxui/sxui.c, "TEXT INPUT
 * HELPERS" and read_input). The fixed 256-byte buffer with its length is a
 * character sequence whose length is the C `len`; one character stands for
 * one byte of the buffer.
 */
module TextEdit {

  /** Size of the text buffer, terminator included (INPUT_MAX). */
  const INPUT_MAX: nat := 256

  // ---------------------------------------------------------------------------
  // Helpers: clamp, is_delimiter, word boundaries
  // ---------------------------------------------------------------------------

  /** clamp: the point of [lo, hi] nearest to val. */
  function Clamp(val: int, lo: int, hi: int): (r: int)
    ensures lo <= hi ==> lo <= r <= hi
    ensures lo <= val <= hi ==> r == val
    ensures val < lo ==> r == lo
    ensures lo <= val && hi < val ==> r == hi
  {
    if val < lo then lo else if val > hi then hi else val
  }

  /** isalnum in the C locale. */
  predicate IsAlnum(c: char) {
    ('0' <= c <= '9') || ('a' <= c <= 'z') || ('A' <= c <= 'Z')
  }

  /** is_delimiter: every character that is not a letter or a digit. */
  predicate IsDelimiter(c: char) {
    !IsAlnum(c)
  }

  /**
   * Where Ctrl+Right and Ctrl+Delete stop when starting at p: past the
   * delimiters that follow p and then past the word after them, or at the end.
   */
  ghost predicate IsNextBoundary(t: seq<char>, p: int, r: int) {
    if p >= |t| then r == |t|
    else
      && 0 <= p < r <= |t|
      && (forall i, j :: p <= i < j < r && !IsDelimiter(t[i]) ==> !IsDelimiter(t[j]))
      && (r < |t| ==> IsDelimiter(t[r]) && !IsDelimiter(t[r - 1]))
  }

  /**
   * Where Ctrl+Left and Ctrl+Backspace stop when starting at p: the start of the
   * word at or before p - 1, that is the last delimiter-to-word transition
   * before p, or 0.
   */
  ghost predicate IsPrevBoundary(t: seq<char>, p: int, r: int)
    requires p <= |t|
  {
    if p <= 0 then r == 0
    else
      && 0 <= r < p
      && (0 < r ==> IsDelimiter(t[r - 1]) && !IsDelimiter(t[r]))
      && (forall k :: r < k < p ==> !(IsDelimiter(t[k - 1]) && !IsDelimiter(t[k])))
  }

  /** The next-boundary rule picks exactly one position. */
  lemma NextBoundaryUnique(t: seq<char>, p: int, r1: int, r2: int)
    requires IsNextBoundary(t, p, r1) && IsNextBoundary(t, p, r2)
    ensures r1 == r2
  {
  }

  /** The previous-boundary rule picks exactly one position. */
  lemma PrevBoundaryUnique(t: seq<char>, p: int, r1: int, r2: int)
    requires p <= |t|
    requires IsPrevBoundary(t, p, r1) && IsPrevBoundary(t, p, r2)
    ensures r1 == r2
  {
  }

  /** find_next_word_boundary, with len the length of t. */
  method FindNextWordBoundary(t: seq<char>, p: int) returns (r: int)
    requires 0 <= p
    ensures IsNextBoundary(t, p, r)
  {
    var i := p;
    if i >= |t| {
      return |t|;
    }
    while i < |t| && IsDelimiter(t[i])
      invariant p <= i <= |t|
      invariant forall k :: p <= k < i ==> IsDelimiter(t[k])
    {
      i := i + 1;
    }
    ghost var wordStart := i;
    while i < |t| && !IsDelimiter(t[i])
      invariant wordStart <= i <= |t|
      invariant forall k :: wordStart <= k < i ==> !IsDelimiter(t[k])
    {
      i := i + 1;
    }
    r := i;
  }

  /** find_prev_word_boundary; callers pass a cursor position, so p <= |t|. */
  method FindPrevWordBoundary(t: seq<char>, p: int) returns (r: int)
    requires p <= |t|
    ensures IsPrevBoundary(t, p, r)
  {
    var i := p;
    if i <= 0 {
      return 0;
    }
    i := i - 1;
    while i > 0 && IsDelimiter(t[i])
      invariant 0 <= i < p
      invariant forall k :: i < k < p ==> IsDelimiter(t[k])
    {
      i := i - 1;
    }
    ghost var wordEnd := i;
    while i > 0 && !IsDelimiter(t[i - 1])
      invariant 0 <= i <= wordEnd
      invariant wordEnd == 0 ==> i == 0
      invariant 0 < wordEnd ==> forall k :: i <= k <= wordEnd ==> !IsDelimiter(t[k])
    {
      i := i - 1;
    }
    r := i;
  }

  // ---------------------------------------------------------------------------
  // The editing state and what each edit does to it
  // ---------------------------------------------------------------------------

  /** text[..len], cursorPosition and selectionAnchor of one input. */
  datatype EditState = EditState(text: seq<char>, cursor: int, anchor: int)

  /** The input invariant: the text fits the buffer, cursor and anchor lie within it. */
  ghost predicate WellFormed(e: EditState) {
    |e.text| <= INPUT_MAX - 1 && 0 <= e.cursor <= |e.text| && 0 <= e.anchor <= |e.text|
  }

  function Lo(c: int, a: int): int { if c < a then c else a }
  function Hi(c: int, a: int): int { if c > a then c else a }

  /** delete_selection (sxui.c:335-349) on values. */
  function DeleteSelectionOf(e: EditState): (r: EditState)
    requires WellFormed(e)
    ensures WellFormed(r)
    ensures e.cursor == e.anchor ==> r == e
    ensures e.cursor != e.anchor ==>
      var lo, hi := Lo(e.cursor, e.anchor), Hi(e.cursor, e.anchor);
      && |r.text| == |e.text| - (hi - lo)
      && r.text[..lo] == e.text[..lo] && r.text[lo..] == e.text[hi..]
      && r.cursor == lo && r.anchor == lo
  {
    if e.cursor == e.anchor then e
    else
      var lo, hi := Lo(e.cursor, e.anchor), Hi(e.cursor, e.anchor);
      EditState(e.text[..lo] + e.text[hi..], lo, lo)
  }

  /** Whether n more characters are accepted: len + n < INPUT_MAX - 1 (sxui.c:355, 468). */
  predicate Fits(len: int, n: int) {
    len + n < INPUT_MAX - 1
  }

  /**
   * Typed text (sxui.c:352-365) and paste (sxui.c:466-477): the selection is
   * deleted first; the characters are then spliced in at the cursor only if
   * they fit, otherwise the state stays as the deletion left it.
   */
  function InsertOf(e: EditState, s: seq<char>): (r: EditState)
    requires WellFormed(e)
    ensures WellFormed(r)
    ensures var d := DeleteSelectionOf(e);
      if Fits(|d.text|, |s|) then
        && |r.text| == |d.text| + |s| <= INPUT_MAX - 2
        && r.cursor == r.anchor == d.cursor + |s|
        && r.text[..d.cursor] == d.text[..d.cursor]
        && r.text[d.cursor..r.cursor] == s
        && r.text[r.cursor..] == d.text[d.cursor..]
      else r == d
  {
    var d := DeleteSelectionOf(e);
    if Fits(|d.text|, |s|) then
      var c := d.cursor + |s|;
      var t := d.text[..d.cursor] + s + d.text[d.cursor..];
      assert t[..d.cursor] == d.text[..d.cursor] && t[d.cursor..c] == s && t[c..] == d.text[d.cursor..];
      EditState(t, c, c)
    else d
  }

  /** A notification an edit sends to the input's callback lists. */
  datatype Fire = TextChanged(text: seq<char>) | Submitted(text: seq<char>) | FocusLost

  /** The text-changed notifications of typed text or a paste: one per deletion, one per insertion. */
  function InsertFired(e: EditState, s: seq<char>): (r: seq<Fire>)
    requires WellFormed(e)
    ensures forall k :: 0 <= k < |r| ==> r[k].TextChanged?
    ensures r == [] <==> e.cursor == e.anchor && !Fits(|DeleteSelectionOf(e).text|, |s|)
    ensures Fits(|DeleteSelectionOf(e).text|, |s|) ==> r[|r| - 1] == TextChanged(InsertOf(e, s).text)
  {
    var d := DeleteSelectionOf(e);
    (if e.cursor != e.anchor then [TextChanged(d.text)] else [])
    + (if Fits(|d.text|, |s|) then [TextChanged(InsertOf(e, s).text)] else [])
  }

  /** The keys read_input reacts to; every other key is OtherKey. */
  datatype Key = Backspace | Delete | Left | Right | Home | End | KeyA | KeyC | KeyX | KeyV
               | Return | KeypadEnter | OtherKey

  /** The two kinds of event read_input is given. */
  datatype InputEvent = TextTyped(chars: seq<char>) | KeyDown(key: Key, shift: bool, ctrl: bool)

  /** Backspace (sxui.c:372-390): e before, r after. */
  ghost predicate EraseBackwardDone(e: EditState, ctrl: bool, r: EditState, fired: seq<Fire>)
    requires WellFormed(e)
  {
    if e.cursor != e.anchor then r == DeleteSelectionOf(e) && fired == [TextChanged(r.text)]
    else if e.cursor == 0 then r == e && fired == []
    else
      && (if ctrl then IsPrevBoundary(e.text, e.cursor, r.cursor) else r.cursor == e.cursor - 1)
      && 0 <= r.cursor < e.cursor
      && r.text == e.text[..r.cursor] + e.text[e.cursor..] && r.anchor == r.cursor
      && fired == [TextChanged(r.text)]
  }

  /** Delete (sxui.c:391-408): e before, r after; end is where the removed run stops. */
  ghost predicate EraseForwardDone(e: EditState, ctrl: bool, r: EditState, fired: seq<Fire>)
    requires WellFormed(e)
  {
    if e.cursor != e.anchor then r == DeleteSelectionOf(e) && fired == [TextChanged(r.text)]
    else if e.cursor == |e.text| then r == e && fired == []
    else
      var end := e.cursor + (|e.text| - |r.text|);
      && (if ctrl then IsNextBoundary(e.text, e.cursor, end) else end == e.cursor + 1)
      && e.cursor < end <= |e.text|
      && r.text == e.text[..e.cursor] + e.text[end..] && r.cursor == e.cursor && r.anchor == e.cursor
      && fired == [TextChanged(r.text)]
  }

  /** Left or Right (sxui.c:409-422): the text stays, the cursor moves, Shift keeps the anchor. */
  ghost predicate ArrowDone(e: EditState, right: bool, shift: bool, ctrl: bool, r: EditState)
    requires WellFormed(e)
  {
    && r.text == e.text
    && (if right then
          if ctrl then IsNextBoundary(e.text, e.cursor, r.cursor) else r.cursor == Clamp(e.cursor + 1, 0, |e.text|)
        else
          if ctrl then IsPrevBoundary(e.text, e.cursor, r.cursor) else r.cursor == Clamp(e.cursor - 1, 0, |e.text|))
    && r.anchor == (if shift then e.anchor else r.cursor)
  }

  /** The clipboard after a key press: the selection after Ctrl+C or Ctrl+X, else unchanged. */
  function ClipboardAfter(e: EditState, key: Key, ctrl: bool, clipIn: seq<char>): (r: seq<char>)
    requires WellFormed(e)
    ensures !(ctrl && (key == KeyC || key == KeyX)) || e.cursor == e.anchor ==> r == clipIn
    ensures ctrl && (key == KeyC || key == KeyX) && e.cursor != e.anchor ==>
      0 < |r| == Hi(e.cursor, e.anchor) - Lo(e.cursor, e.anchor) && r <= e.text[Lo(e.cursor, e.anchor)..]
  {
    if ctrl && (key == KeyC || key == KeyX) && e.cursor != e.anchor
    then e.text[Lo(e.cursor, e.anchor)..Hi(e.cursor, e.anchor)]
    else clipIn
  }

  /**
   * What one key press does (sxui.c:366-488): e is the state before, r after;
   * clipIn and clipOut are the clipboard before and after; leaveFocus says the
   * engine drops its focus.
   */
  ghost predicate KeyHandled(e: EditState, key: Key, shift: bool, ctrl: bool, clipIn: seq<char>,
                             r: EditState, clipOut: seq<char>, fired: seq<Fire>, leaveFocus: bool)
    requires WellFormed(e)
  {
    && (leaveFocus <==> key == Return || key == KeypadEnter)
    && clipOut == ClipboardAfter(e, key, ctrl, clipIn)
    && match key
       case Backspace => EraseBackwardDone(e, ctrl, r, fired)
       case Delete => EraseForwardDone(e, ctrl, r, fired)
       case Left => ArrowDone(e, false, shift, ctrl, r) && fired == []
       case Right => ArrowDone(e, true, shift, ctrl, r) && fired == []
       case Home => (r, fired) == (e.(cursor := 0, anchor := if shift then e.anchor else 0), [])
       case End => (r, fired) == (e.(cursor := |e.text|, anchor := if shift then e.anchor else |e.text|), [])
       case KeyA => (r, fired) == (if ctrl then e.(cursor := |e.text|, anchor := 0) else e, [])
       case KeyC => (r, fired) == (e, [])
       case KeyX =>
         (r, fired) == if ctrl && e.cursor != e.anchor then (DeleteSelectionOf(e), [TextChanged(DeleteSelectionOf(e).text)])
                       else (e, [])
       case KeyV =>
         (r, fired) == if ctrl && clipIn != [] then (InsertOf(e, clipIn), InsertFired(e, clipIn)) else (e, [])
       case Return => (r, fired) == (e, [Submitted(e.text), FocusLost])
       case KeypadEnter => (r, fired) == (e, [Submitted(e.text), FocusLost])
       case OtherKey => (r, fired) == (e, [])
  }

  /** Every key press keeps cursor and anchor within the text and the text within the buffer. */
  lemma KeyKeepsWellFormed(e: EditState, key: Key, shift: bool, ctrl: bool, clipIn: seq<char>,
                           r: EditState, clipOut: seq<char>, fired: seq<Fire>, leaveFocus: bool)
    requires WellFormed(e)
    requires KeyHandled(e, key, shift, ctrl, clipIn, r, clipOut, fired, leaveFocus)
    ensures WellFormed(r)
  {
  }

  /**
   * Ctrl+Backspace on "hello world" with the cursor at the end removes the
   * last word and leaves "hello " with the cursor at 6.
   */
  lemma CtrlBackspaceScenario(clip: seq<char>, r: EditState, clipOut: seq<char>, fired: seq<Fire>, leave: bool)
    requires KeyHandled(EditState("hello world", 11, 11), Backspace, false, true, clip, r, clipOut, fired, leave)
    ensures r.text == "hello " && r.cursor == 6 && r.anchor == 6
    ensures fired == [TextChanged("hello ")] && !leave && clipOut == clip
  {
    var t := "hello world";
    assert IsPrevBoundary(t, 11, 6) by {
      assert IsDelimiter(t[5]) && !IsDelimiter(t[6]);
      forall k | 6 < k < 11 ensures !(IsDelimiter(t[k - 1]) && !IsDelimiter(t[k])) {
        assert !IsDelimiter(t[k - 1]);
      }
    }
    PrevBoundaryUnique(t, 11, r.cursor, 6);
    assert t[..6] == "hello " && t[11..] == [];
  }

  // ---------------------------------------------------------------------------
  // Horizontal scrolling of the field (sxui.c:490-517)
  // ---------------------------------------------------------------------------

  /** _measure_text: an empty string measures 0; otherwise the font decides. */
  function Measure(measure: seq<char> -> nat, s: seq<char>): nat {
    if s == [] then 0 else measure(s)
  }

  /** Pixel offset of the caret: the width of the text before it, or one '*' per character. */
  function CaretX(e: EditState, password: bool, measure: seq<char> -> nat): int
    requires WellFormed(e)
  {
    if password then e.cursor * Measure(measure, "*") else Measure(measure, e.text[..e.cursor])
  }

  /** Pixel width of the whole text, masked or not. */
  function TextWidth(e: EditState, password: bool, measure: seq<char> -> nat): int {
    if password then |e.text| * Measure(measure, "*") else Measure(measure, e.text)
  }

  /**
   * The new scroll offset given the old one, the caret offset, the text width
   * and the field width cw (the widget width minus 10).
   */
  function ScrollAfter(scroll: int, caret: int, total: int, cw: int): (r: int)
    ensures r >= 0
    ensures total < cw ==> r == 0
    ensures cw <= total ==> r <= total - cw
    // the caret is brought into view whenever the text is at least as wide as the field
    ensures 0 <= cw <= total && 0 <= caret <= total ==> 0 <= caret - r <= cw
    // an offset that already shows the caret is kept
    ensures 0 <= scroll <= total - cw && 0 <= caret - scroll <= cw ==> r == scroll
  {
    var rel := caret - scroll;
    var s1 := if rel < 0 then caret else if rel > cw then caret - cw else scroll;
    var s2 := if total < cw then 0 else if s1 > total - cw then total - cw else s1;
    if s2 < 0 then 0 else s2
  }

  // ---------------------------------------------------------------------------
  // The input widget's editing state, updated in place
  // ---------------------------------------------------------------------------

  /** strncpy into a buffer of INPUT_MAX bytes: the first INPUT_MAX - 1 characters at most. */
  function Truncate(s: seq<char>): (r: seq<char>)
    ensures |r| <= INPUT_MAX - 1 && r <= s
    ensures |s| <= INPUT_MAX - 1 ==> r == s
    ensures |s| > INPUT_MAX - 1 ==> |r| == INPUT_MAX - 1
  {
    if |s| <= INPUT_MAX - 1 then s else s[..INPUT_MAX - 1]
  }

  /** The editing part of a UITextInput. */
  class TextInput {
    var text: seq<char>
    var cursor: int
    var anchor: int
    var scrollOffset: int

    function State(): EditState
      reads this
    {
      EditState(text, cursor, anchor)
    }

    ghost predicate Valid()
      reads this
    {
      WellFormed(State())
    }

    /** A fresh input: empty text, everything zero (calloc in sxui_input). */
    constructor ()
      ensures Valid() && text == [] && cursor == 0 && anchor == 0 && scrollOffset == 0
    {
      text, cursor, anchor, scrollOffset := [], 0, 0, 0;
    }

    /** delete_selection (sxui.c:335-349). */
    method DeleteSelection() returns (fired: seq<Fire>)
      requires Valid()
      modifies this
      ensures Valid() && State() == DeleteSelectionOf(old(State())) && scrollOffset == old(scrollOffset)
      ensures fired == if old(cursor != anchor) then [TextChanged(text)] else []
    {
      if cursor == anchor {
        return [];
      }
      var start := if cursor < anchor then cursor else anchor;
      var end := if cursor > anchor then cursor else anchor;
      text := text[..start] + text[end..];
      cursor, anchor := start, start;
      fired := [TextChanged(text)];
    }

    /** Typed text and paste: delete the selection, then splice s in if it fits. */
    method Insert(s: seq<char>) returns (fired: seq<Fire>)
      requires Valid()
      modifies this
      ensures Valid() && State() == InsertOf(old(State()), s) && scrollOffset == old(scrollOffset)
      ensures fired == InsertFired(old(State()), s)
    {
      fired := DeleteSelection();
      if |text| + |s| < INPUT_MAX - 1 {
        text := text[..cursor] + s + text[cursor..];
        cursor := cursor + |s|;
        anchor := cursor;
        fired := fired + [TextChanged(text)];
      }
    }

    /** Backspace (sxui.c:372-390): the selection, else one character or (Ctrl) one word before the cursor. */
    method EraseBackward(ctrl: bool) returns (fired: seq<Fire>)
      requires Valid()
      modifies this
      ensures Valid() && scrollOffset == old(scrollOffset)
      ensures EraseBackwardDone(old(State()), ctrl, State(), fired)
    {
      fired := [];
      if cursor != anchor {
        fired := DeleteSelection();
      } else if cursor > 0 {
        if ctrl {
          var target := FindPrevWordBoundary(text, cursor);
          anchor := target;
          fired := DeleteSelection();
        } else {
          text := text[..cursor - 1] + text[cursor..];
          cursor := cursor - 1;
          anchor := cursor;
          fired := [TextChanged(text)];
        }
      }
    }

    /** Delete (sxui.c:391-408): the selection, else one character or (Ctrl) one word after the cursor. */
    method EraseForward(ctrl: bool) returns (fired: seq<Fire>)
      requires Valid()
      modifies this
      ensures Valid() && scrollOffset == old(scrollOffset)
      ensures EraseForwardDone(old(State()), ctrl, State(), fired)
    {
      fired := [];
      if cursor != anchor {
        fired := DeleteSelection();
      } else if cursor < |text| {
        if ctrl {
          var target := FindNextWordBoundary(text, cursor);
          anchor := target;
          fired := DeleteSelection();
        } else {
          text := text[..cursor] + text[cursor + 1..];
          anchor := cursor;
          fired := [TextChanged(text)];
        }
      }
    }

    /** Left and Right (sxui.c:409-422): move by one character or (Ctrl) one word; Shift keeps the anchor. */
    method Arrow(right: bool, shift: bool, ctrl: bool)
      requires Valid()
      modifies this`cursor, this`anchor
      ensures Valid()
      ensures ArrowDone(old(State()), right, shift, ctrl, State())
    {
      var target := cursor;
      if right {
        if ctrl {
          target := FindNextWordBoundary(text, target);
        } else {
          target := target + 1;
        }
      } else {
        if ctrl {
          target := FindPrevWordBoundary(text, target);
        } else {
          target := target - 1;
        }
      }
      cursor := Clamp(target, 0, |text|);
      if !shift {
        anchor := cursor;
      }
    }

    /** Ctrl+C and Ctrl+X (sxui.c:435-461): the selected text goes to the clipboard; Ctrl+X also deletes it. */
    method CopyOrCut(cut: bool, clipboard: seq<char>) returns (clip: seq<char>, fired: seq<Fire>)
      requires Valid()
      modifies this
      ensures Valid() && scrollOffset == old(scrollOffset)
      ensures clip == ClipboardAfter(old(State()), if cut then KeyX else KeyC, true, clipboard)
      ensures if cut && old(cursor != anchor) then State() == DeleteSelectionOf(old(State())) && fired == [TextChanged(text)]
              else State() == old(State()) && fired == []
    {
      clip, fired := clipboard, [];
      if cursor != anchor {
        var start := if cursor < anchor then cursor else anchor;
        var end := if cursor > anchor then cursor else anchor;
        clip := text[start..end];
        if cut {
          fired := DeleteSelection();
        }
      }
    }

    /** The SDL_KEYDOWN branch of read_input (sxui.c:366-488). */
    method HandleKey(key: Key, shift: bool, ctrl: bool, clipboard: seq<char>)
      returns (clip: seq<char>, fired: seq<Fire>, leaveFocus: bool)
      requires Valid()
      modifies this
      ensures Valid() && scrollOffset == old(scrollOffset)
      ensures KeyHandled(old(State()), key, shift, ctrl, clipboard, State(), clip, fired, leaveFocus)
    {
      if key.Backspace? || key.Delete? || key.Left? || key.Right? || key.Home? || key.End? || key.KeyA? {
        fired := EditingKey(key, shift, ctrl);
        clip, leaveFocus := clipboard, false;
      } else {
        clip, fired, leaveFocus := CommandKey(key, ctrl, clipboard);
      }
    }

    /** The keys that edit or move within the text (sxui.c:372-434). */
    method EditingKey(key: Key, shift: bool, ctrl: bool) returns (fired: seq<Fire>)
      requires Valid()
      requires key.Backspace? || key.Delete? || key.Left? || key.Right? || key.Home? || key.End? || key.KeyA?
      modifies this
      ensures Valid() && scrollOffset == old(scrollOffset)
      ensures forall clipboard :: KeyHandled(old(State()), key, shift, ctrl, clipboard, State(), clipboard, fired, false)
    {
      fired := [];
      match key {
        case Backspace =>
          fired := EraseBackward(ctrl);
        case Delete =>
          fired := EraseForward(ctrl);
        case Left =>
          Arrow(false, shift, ctrl);
        case Right =>
          Arrow(true, shift, ctrl);
        case Home | End | KeyA =>
          JumpKey(key, shift, ctrl);
      }
    }

    /** The clipboard keys and Enter (sxui.c:435-486); any other key does nothing. */
    method CommandKey(key: Key, ctrl: bool, clipboard: seq<char>) returns (clip: seq<char>, fired: seq<Fire>, leaveFocus: bool)
      requires Valid()
      requires !(key.Backspace? || key.Delete? || key.Left? || key.Right? || key.Home? || key.End? || key.KeyA?)
      modifies this
      ensures Valid() && scrollOffset == old(scrollOffset)
      ensures forall shift: bool :: KeyHandled(old(State()), key, shift, ctrl, clipboard, State(), clip, fired, leaveFocus)
    {
      clip, fired, leaveFocus := clipboard, [], false;
      match key {
        case KeyC | KeyX | KeyV =>
          clip, fired := ClipboardKey(key, ctrl, clipboard);
        case Return | KeypadEnter =>
          fired := [Submitted(text), FocusLost];
          leaveFocus := true;
        case OtherKey =>
      }
    }

    /** Home, End and Ctrl+A (sxui.c:423-434): the caret, and without shift the anchor, jump. */
    method JumpKey(key: Key, shift: bool, ctrl: bool)
      requires Valid() && (key == Home || key == End || key == KeyA)
      modifies this`cursor, this`anchor
      ensures Valid()
      ensures forall clipboard :: KeyHandled(old(State()), key, shift, ctrl, clipboard, State(), clipboard, [], false)
    {
      match key {
        case Home =>
          cursor := 0;
          if !shift {
            anchor := 0;
          }
        case End =>
          cursor := |text|;
          if !shift {
            anchor := |text|;
          }
        case KeyA =>
          if ctrl {
            anchor := 0;
            cursor := |text|;
          }
      }
    }

    /** Ctrl+C, Ctrl+X and Ctrl+V (sxui.c:435-479); without ctrl these keys do nothing. */
    method ClipboardKey(key: Key, ctrl: bool, clipboard: seq<char>) returns (clip: seq<char>, fired: seq<Fire>)
      requires Valid() && (key == KeyC || key == KeyX || key == KeyV)
      modifies this
      ensures Valid() && scrollOffset == old(scrollOffset)
      ensures forall shift: bool :: KeyHandled(old(State()), key, shift, ctrl, clipboard, State(), clip, fired, false)
    {
      clip, fired := clipboard, [];
      match key {
        case KeyC =>
          if ctrl {
            clip, fired := CopyOrCut(false, clipboard);
          }
        case KeyX =>
          if ctrl {
            clip, fired := CopyOrCut(true, clipboard);
          }
        case KeyV =>
          if ctrl && clipboard != [] {
            fired := Insert(clipboard);
          }
      }
    }

    /** The scroll-offset update that ends every read_input call (sxui.c:490-517). */
    method Rescroll(width: int, password: bool, measure: seq<char> -> nat)
      requires Valid()
      modifies this`scrollOffset
      ensures scrollOffset ==
        ScrollAfter(old(scrollOffset), CaretX(State(), password, measure), TextWidth(State(), password, measure), width - 10)
    {
      var cw := width - 10;
      var cx := CaretX(State(), password, measure);
      var total := TextWidth(State(), password, measure);
      scrollOffset := ScrollAfter(scrollOffset, cx, total, cw);
    }

    /** read_input (sxui.c:351-518): one text or key event, then the scroll update. */
    method ReadInput(ev: InputEvent, clipboard: seq<char>, width: int, password: bool,
                     measure: seq<char> -> nat)
      returns (clip: seq<char>, fired: seq<Fire>, leaveFocus: bool)
      requires Valid()
      modifies this
      ensures Valid()
      ensures ev.TextTyped? ==>
        && State() == InsertOf(old(State()), ev.chars) && fired == InsertFired(old(State()), ev.chars)
        && clip == clipboard && !leaveFocus
      ensures ev.KeyDown? ==>
        KeyHandled(old(State()), ev.key, ev.shift, ev.ctrl, clipboard, State(), clip, fired, leaveFocus)
      ensures scrollOffset ==
        ScrollAfter(old(scrollOffset), CaretX(State(), password, measure), TextWidth(State(), password, measure), width - 10)
    {
      match ev {
        case TextTyped(chars) =>
          fired := Insert(chars);
          clip, leaveFocus := clipboard, false;
        case KeyDown(key, shift, ctrl) =>
          clip, fired, leaveFocus := HandleKey(key, shift, ctrl, clipboard);
      }
      Rescroll(width, password, measure);
    }

    /** The input branch of a mouse press (sxui.c:726-727): caret and anchor go to the end. */
    method PlaceCaretAtEnd()
      requires Valid()
      modifies this`cursor, this`anchor
      ensures Valid() && cursor == |text| && anchor == |text|
    {
      cursor := |text|;
      anchor := |text|;
    }

    /**
     * sxui_set_text on an input (sxui.c:914-919): at most INPUT_MAX - 1
     * characters are kept, and caret and anchor go to the end.
     */
    method SetText(s: seq<char>)
      requires Valid()
      modifies this`text, this`cursor, this`anchor
      ensures Valid()
      ensures text == Truncate(s)
      ensures cursor == |text| && anchor == |text|
    {
      text := Truncate(s);
      cursor := |text|;
      anchor := |text|;
    }
  }
}
