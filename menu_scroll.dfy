/**
 * The scroll state machine of rEFInd's menus (refind/menu.c).
 *
 * A menu keeps a SCROLL_STATE record: the selected entry, the previously
 * selected one, the last index, the visible window [FirstVisible,
 * LastVisible] of at most MaxVisible entries, two repaint flags, the scroll
 * mode (a text list or two rows of icons) and, for icon screens, the last
 * entry of row 0 and the first entry of row 1. InitScroll sets it up,
 * IdentifyRows finds the rows, UpdateScroll applies one movement key and
 * AdjustScrollState slides the text window over the selection.
 *
 * The record's fields are signed INTN and are modelled as unbounded `int`;
 * the unsigned-to-signed casts the C code makes are written out with Int64.
 */
module MenuScroll {
  import opened Bytes

  const ROW0_TILESIZE: nat := 144
  const TILE_XSPACING: nat := 8

  datatype ScrollMode = Text | Icons

  /** The movement codes UpdateScroll understands. */
  datatype Movement =
    | LineLeft | LineRight | LineUp | LineDown
    | PageUp | PageDown | First | Last | ScrollNone

  /** A SCROLL_STATE record as a value. */
  datatype Scroll = Scroll(
    currentSelection: int,
    previousSelection: int,
    maxIndex: int,
    firstVisible: int,
    lastVisible: int,
    maxVisible: int,
    paintAll: bool,
    paintSelection: bool,
    mode: ScrollMode,
    finalRow0: int,
    initialRow1: int)

  /** C's signed division of INTN values, which truncates toward zero. */
  function CDiv(a: int, b: int): (q: int)
    requires b > 0
    ensures a >= 0 ==> 0 <= q <= a
    ensures a < 0 ==> a <= q <= 0
  {
    if a >= 0 then DivAtMost(a, b); a / b
    else DivAtMost(-a, b); -((-a) / b)
  }

  lemma DivAtMost(a: nat, b: nat)
    requires b > 0
    ensures 0 <= a / b <= a
  {
    var q := a / b;
    assert a == b * q + a % b;
    MulLe(q, 1, b);
  }

  /** For a nonnegative dividend the truncated quotient is the floor: q * b <= a < q * b + b. */
  lemma CDivNonnegative(a: nat, b: nat)
    requires b > 0
    ensures CDiv(a, b) * b <= a < CDiv(a, b) * b + b
  {
    var q, r := a / b, a % b;
    assert a == b * q + r;
  }

  /**
   * For a negative dividend the quotient is rounded up, toward zero, not
   * down as a floored division would: q * b - b < a <= q * b.
   */
  lemma CDivNegative(a: int, b: nat)
    requires a < 0 && b > 0
    ensures CDiv(a, b) * b - b < a <= CDiv(a, b) * b
  {
    var q, r := (-a) / b, (-a) % b;
    assert -a == b * q + r;
    assert CDiv(a, b) * b == a + r;
  }

  /**
   * The entries InitScroll first allows on screen: the icons that fit across
   * the screen less one in graphics mode, the console height less four in
   * text mode. Both are computed in UINTN and stored in an INTN.
   */
  function ScreenCapacity(graphics: bool, ugaWidth: u64, conHeight: u64): int {
    if graphics then Int64((ugaWidth / (ROW0_TILESIZE + TILE_XSPACING) - 1) % TWO_64)
    else Int64((conHeight - 4) % TWO_64)
  }

  /**
   * MaxVisible after InitScroll. VisibleSpace (UINTN) is compared with the
   * INTN capacity converted to UINTN, so a negative capacity compares as huge.
   */
  function InitialMaxVisible(graphics: bool, ugaWidth: u64, conHeight: u64, visibleSpace: u64): int {
    var capacity := ScreenCapacity(graphics, ugaWidth, conHeight);
    if 0 < visibleSpace && visibleSpace < capacity % TWO_64 then Int64(visibleSpace) else capacity
  }

  /** The record after InitScroll; the mode and the row fields are left as they were. */
  function Initialized(s: Scroll, itemCount: u64, visibleSpace: u64, graphics: bool, ugaWidth: u64, conHeight: u64)
    : Scroll
  {
    var maxVisible := InitialMaxVisible(graphics, ugaWidth, conHeight, visibleSpace);
    s.(currentSelection := 0, previousSelection := 0, maxIndex := Int64(itemCount) - 1,
       firstVisible := 0, maxVisible := maxVisible, paintAll := true, paintSelection := false,
       lastVisible := maxVisible - 1)
  }

  /**
   * The last index below n whose entry is in row 0 (0 when there is none),
   * as IdentifyRows' loop leaves it after looking at the first n entries.
   */
  function LastRow0(rows: seq<nat>, n: nat): (r: nat)
    requires n <= |rows|
    ensures n == 0 ==> r == 0
    ensures n > 0 ==> r < n
  {
    if n == 0 then 0
    else if rows[n - 1] == 0 then n - 1
    else LastRow0(rows, n - 1)
  }

  /**
   * The first index below n whose entry is in row 1, or the initial value
   * init (MaxIndex) when there is none, as IdentifyRows' loop leaves it.
   */
  function FirstRow1(rows: seq<nat>, n: nat, init: nat): (r: nat)
    requires n <= |rows| && n <= init
    ensures r == init || r < n
    decreases n
  {
    if n == 0 then init
    else
      var before := FirstRow1(rows, n - 1, init);
      if rows[n - 1] == 1 && before > n - 1 then n - 1 else before
  }

  /** The record after IdentifyRows, on a menu whose entries lie in the given rows. */
  function Identified(s: Scroll, rows: seq<nat>): Scroll
    requires 0 <= s.maxIndex <= |rows|
  {
    var finalRow0 := LastRow0(rows, s.maxIndex);
    var capped := s.mode == Icons && s.maxVisible > finalRow0 + 1;
    s.(finalRow0 := finalRow0, initialRow1 := FirstRow1(rows, s.maxIndex, s.maxIndex),
       maxVisible := if capped then finalRow0 + 1 else s.maxVisible)
  }

  /** AdjustScrollState: scroll forward, then backward, until the selection is inside the window. */
  function Adjusted(s: Scroll): Scroll {
    var cs := s.currentSelection;
    var forward :=
      if cs > s.lastVisible then
        var first := 1 + cs - s.maxVisible;
        s.(lastVisible := cs, firstVisible := if first < 0 then 0 else first, paintAll := true)
      else s;
    if cs < forward.firstVisible then
      forward.(firstVisible := cs, lastVisible := cs + forward.maxVisible - 1, paintAll := true)
    else forward
  }

  /** The new selection (and PaintAll) after the switch in UpdateScroll. */
  function Moved(s: Scroll, m: Movement): Scroll {
    var cs := s.currentSelection;
    match m
    case LineLeft => if cs > 0 then s.(currentSelection := cs - 1) else s
    case LineRight => if cs < s.maxIndex then s.(currentSelection := cs + 1) else s
    case LineUp =>
      if s.mode == Icons then
        if cs < s.initialRow1 then s
        else if s.maxIndex > s.initialRow1 then
          s.(currentSelection := s.firstVisible + CDiv((s.lastVisible - s.firstVisible) * (cs - s.initialRow1),
                                                       s.maxIndex - s.initialRow1))
        else s.(currentSelection := s.firstVisible)
      else if cs > 0 then s.(currentSelection := cs - 1) else s
    case LineDown =>
      if s.mode == Icons then
        if cs > s.finalRow0 then s
        else if s.lastVisible > s.firstVisible then
          s.(currentSelection := s.initialRow1 + CDiv((s.maxIndex - s.initialRow1) * (cs - s.firstVisible),
                                                      s.lastVisible - s.firstVisible))
        else s.(currentSelection := s.initialRow1)
      else if cs < s.maxIndex then s.(currentSelection := cs + 1) else s
    case PageUp =>
      var c := if cs <= s.finalRow0 then cs - s.maxVisible
               else if cs == s.initialRow1 then s.finalRow0
               else s.initialRow1;
      s.(currentSelection := if c < 0 then 0 else c)
    case First => if cs > 0 then s.(paintAll := true, currentSelection := 0) else s
    case PageDown =>
      var c := if cs < s.finalRow0 then (if cs + s.maxVisible > s.finalRow0 then s.finalRow0 else cs + s.maxVisible)
               else if cs == s.finalRow0 then cs + 1
               else s.maxIndex;
      s.(currentSelection := if c > s.maxIndex then s.maxIndex else c)
    case Last => if cs < s.maxIndex then s.(paintAll := true, currentSelection := s.maxIndex) else s
    case ScrollNone => s
  }

  /**
   * UpdateScroll: remember the selection, move, slide the text window, flag a
   * selection repaint when no full repaint is due, recompute LastVisible.
   */
  function Updated(s: Scroll, m: Movement): Scroll {
    var moved := Moved(s.(previousSelection := s.currentSelection), m);
    var adjusted := if moved.mode == Text then Adjusted(moved) else moved;
    var painted :=
      if !adjusted.paintAll && adjusted.currentSelection != adjusted.previousSelection then
        adjusted.(paintSelection := true)
      else adjusted;
    painted.(lastVisible := painted.firstVisible + painted.maxVisible - 1)
  }

  /**
   * The text-mode window invariant: a window of at least one entry, starting
   * at or after entry 0, holding the selection, with the selection and the
   * row marks within [0, MaxIndex].
   */
  predicate TextWindow(s: Scroll) {
    && s.mode == Text
    && s.maxVisible >= 1
    && 0 <= s.firstVisible <= s.currentSelection <= s.lastVisible
    && s.lastVisible == s.firstVisible + s.maxVisible - 1
    && s.currentSelection <= s.maxIndex
    && 0 <= s.finalRow0 <= s.maxIndex
    && 0 <= s.initialRow1 <= s.maxIndex
  }

  // ----- Properties -----

  /**
   * With a nonnegative capacity (and VisibleSpace within INTN), InitScroll
   * lowers MaxVisible to VisibleSpace exactly when 0 < VisibleSpace <
   * capacity and otherwise keeps the capacity.
   */
  lemma InitialMaxVisibleLowers(graphics: bool, ugaWidth: u64, conHeight: u64, visibleSpace: u64)
    requires ScreenCapacity(graphics, ugaWidth, conHeight) >= 0 && visibleSpace < 0x8000_0000_0000_0000
    ensures var capacity := ScreenCapacity(graphics, ugaWidth, conHeight);
      var mv := InitialMaxVisible(graphics, ugaWidth, conHeight, visibleSpace);
      && (0 < visibleSpace < capacity ==> mv == visibleSpace)
      && (!(0 < visibleSpace < capacity) ==> mv == capacity)
      && mv <= capacity
  {
  }

  /**
   * A console of fewer than four lines (or a screen narrower than one tile
   * plus its spacing, 152 pixels) gives a negative capacity, which the unsigned comparison then replaces
   * by any nonzero VisibleSpace.
   */
  lemma NegativeCapacityTakesVisibleSpace(graphics: bool, ugaWidth: u64, conHeight: u64, visibleSpace: u64)
    requires (if graphics then ugaWidth < ROW0_TILESIZE + TILE_XSPACING else conHeight < 4)
    requires 0 < visibleSpace < 0x8000_0000_0000_0000
    ensures ScreenCapacity(graphics, ugaWidth, conHeight) < 0
    ensures InitialMaxVisible(graphics, ugaWidth, conHeight, visibleSpace) == visibleSpace
  {
  }

  /** LastRow0 is the last index below n in row 0, and 0 when row 0 has no entry below n. */
  lemma {:induction false} LastRow0IsLast(rows: seq<nat>, n: nat)
    requires n <= |rows|
    ensures (exists i :: 0 <= i < n && rows[i] == 0) ==> rows[LastRow0(rows, n)] == 0
    ensures forall j :: LastRow0(rows, n) < j < n ==> rows[j] != 0
    ensures (forall i :: 0 <= i < n ==> rows[i] != 0) ==> LastRow0(rows, n) == 0
  {
    if n > 0 && rows[n - 1] != 0 {
      LastRow0IsLast(rows, n - 1);
      if exists i :: 0 <= i < n && rows[i] == 0 {
        var i :| 0 <= i < n && rows[i] == 0;
        assert i < n - 1;
      }
    }
  }

  /** FirstRow1 is the first index below n in row 1, and init when row 1 has no entry below n. */
  lemma {:induction false} FirstRow1IsFirst(rows: seq<nat>, n: nat, init: nat)
    requires n <= |rows| && n <= init
    ensures var r := FirstRow1(rows, n, init);
      && (r < n ==> rows[r] == 1)
      && (r >= n ==> r == init)
      && (forall j :: 0 <= j < n && j < r ==> rows[j] != 1)
  {
    if n > 0 {
      FirstRow1IsFirst(rows, n - 1, init);
    }
  }

  /**
   * A menu of at least one entry in text mode, set up by InitScroll and
   * IdentifyRows with room for at least one line, satisfies the window
   * invariant.
   */
  lemma SetupGivesTextWindow(s: Scroll, itemCount: u64, visibleSpace: u64, conHeight: u64, ugaWidth: u64, rows: seq<nat>)
    requires s.mode == Text
    requires 1 <= itemCount <= |rows| + 1 && itemCount < 0x8000_0000_0000_0000
    requires InitialMaxVisible(false, ugaWidth, conHeight, visibleSpace) >= 1
    ensures TextWindow(Identified(Initialized(s, itemCount, visibleSpace, false, ugaWidth, conHeight), rows))
  {
    var init := Initialized(s, itemCount, visibleSpace, false, ugaWidth, conHeight);
    assert init.maxIndex == itemCount - 1;
    if init.maxIndex > 0 {
      assert LastRow0(rows, init.maxIndex) < init.maxIndex;
    }
  }

  /** UpdateScroll records the old selection, recomputes LastVisible and leaves the rest of the setup alone. */
  lemma UpdateRecordsPrevious(s: Scroll, m: Movement)
    ensures var u := Updated(s, m);
      && u.previousSelection == s.currentSelection
      && u.lastVisible == u.firstVisible + u.maxVisible - 1
      && u.maxIndex == s.maxIndex && u.maxVisible == s.maxVisible && u.mode == s.mode
      && u.finalRow0 == s.finalRow0 && u.initialRow1 == s.initialRow1
  {
    var p := s.(previousSelection := s.currentSelection);
    MovedOnlySelects(p, m);
    AdjustedOnlyScrolls(Moved(p, m));
  }

  /**
   * LINE_LEFT, LINE_RIGHT and the text-mode LINE_UP and LINE_DOWN move the
   * selection by at most one and keep it within [0, MaxIndex].
   */
  lemma LineMovesByOne(s: Scroll, m: Movement)
    requires m == LineLeft || m == LineRight || (s.mode == Text && (m == LineUp || m == LineDown))
    requires 0 <= s.currentSelection <= s.maxIndex
    ensures var c := Updated(s, m).currentSelection;
      && s.currentSelection - 1 <= c <= s.currentSelection + 1
      && 0 <= c <= s.maxIndex
      && (m == LineLeft || m == LineUp ==> c == if s.currentSelection > 0 then s.currentSelection - 1 else 0)
      && (m == LineRight || m == LineDown ==>
            c == if s.currentSelection < s.maxIndex then s.currentSelection + 1 else s.maxIndex)
  {
  }

  /** PAGE_UP never leaves a negative selection, PAGE_DOWN never one past MaxIndex. */
  lemma PageMovesClamp(s: Scroll)
    ensures Updated(s, PageUp).currentSelection >= 0
    ensures Updated(s, PageDown).currentSelection <= s.maxIndex
  {
  }

  /**
   * SCROLL_FIRST selects entry 0 and SCROLL_LAST entry MaxIndex, and each
   * raises PaintAll when the selection actually moves; in icon mode nothing
   * else raises it.
   */
  lemma FirstAndLast(s: Scroll)
    requires 0 <= s.currentSelection <= s.maxIndex
    ensures Updated(s, First).currentSelection == 0
    ensures Updated(s, Last).currentSelection == s.maxIndex
    ensures s.currentSelection != 0 ==> Updated(s, First).paintAll
    ensures s.currentSelection != s.maxIndex ==> Updated(s, Last).paintAll
    ensures s.mode == Icons ==> Updated(s, First).paintAll == (s.paintAll || s.currentSelection != 0)
    ensures s.mode == Icons ==> Updated(s, Last).paintAll == (s.paintAll || s.currentSelection != s.maxIndex)
  {
  }

  /** A selection repaint is requested only when no full repaint is due and the selection moved. */
  lemma PaintSelectionOnlyOnMove(s: Scroll, m: Movement)
    ensures var u := Updated(s, m);
      u.paintSelection == (s.paintSelection || (!u.paintAll && u.currentSelection != s.currentSelection))
  {
  }

  /** The switch changes only the selection and, for SCROLL_FIRST and SCROLL_LAST, PaintAll. */
  lemma MovedOnlySelects(s: Scroll, m: Movement)
    ensures var t := Moved(s, m);
      && t == s.(currentSelection := t.currentSelection, paintAll := t.paintAll)
      && (t.paintAll != s.paintAll ==> m == First || m == Last)
  {
  }

  /** AdjustScrollState changes only the window and PaintAll. */
  lemma AdjustedOnlyScrolls(s: Scroll)
    ensures var t := Adjusted(s);
      t == s.(firstVisible := t.firstVisible, lastVisible := t.lastVisible, paintAll := t.paintAll)
  {
  }

  /** In text mode, with the old window invariant, the switch keeps the selection within [0, MaxIndex]. */
  lemma TextMoveInRange(s: Scroll, m: Movement)
    requires TextWindow(s)
    ensures 0 <= Moved(s, m).currentSelection <= s.maxIndex
  {
  }

  /**
   * AdjustScrollState on a window of MaxVisible >= 1 entries starting at or
   * after 0, with a selection in [0, MaxIndex], leaves the selection inside
   * the window once LastVisible is recomputed.
   */
  lemma AdjustedHoldsSelection(s: Scroll)
    requires s.maxVisible >= 1 && 0 <= s.firstVisible && s.lastVisible == s.firstVisible + s.maxVisible - 1
    requires 0 <= s.currentSelection
    ensures var t := Adjusted(s);
      0 <= t.firstVisible <= t.currentSelection <= t.firstVisible + t.maxVisible - 1
  {
  }

  /** In text mode every movement keeps the window invariant. */
  lemma UpdatePreservesTextWindow(s: Scroll, m: Movement)
    requires TextWindow(s)
    ensures TextWindow(Updated(s, m))
  {
    var p := s.(previousSelection := s.currentSelection);
    var moved := Moved(p, m);
    MovedOnlySelects(p, m);
    TextMoveInRange(p, m);
    AdjustedOnlyScrolls(moved);
    AdjustedHoldsSelection(moved);
  }

  /** a * b / c lies between 0 and a when 0 <= b <= c. */
  lemma ScaledBelow(a: nat, b: nat, c: nat)
    requires 0 < c && b <= c
    ensures 0 <= CDiv(a * b, c) <= a
  {
    assert a * b <= a * c by { MulLe(a, b, c); }
    var q := CDiv(a * b, c);
    CDivNonnegative(a * b, c);
    if q > a {
      MulLe(c, a + 1, q);
      assert false;
    }
  }

  lemma MulLe(a: nat, b: nat, c: nat)
    requires b <= c
    ensures a * b <= a * c
  {
  }

  /**
   * In icon mode LINE_UP from row 1 lands proportionally inside the visible
   * part of row 0, and LINE_DOWN from the visible part of row 0 lands in row 1.
   */
  lemma IconLineUpLandsInWindow(s: Scroll)
    requires s.mode == Icons
    requires s.initialRow1 <= s.currentSelection <= s.maxIndex && s.firstVisible <= s.lastVisible
    ensures s.firstVisible <= Updated(s, LineUp).currentSelection <= s.lastVisible
  {
    if s.maxIndex > s.initialRow1 {
      ScaledBelow(s.lastVisible - s.firstVisible, s.currentSelection - s.initialRow1, s.maxIndex - s.initialRow1);
    }
  }

  lemma IconLineDownLandsInRow1(s: Scroll)
    requires s.mode == Icons
    requires s.firstVisible <= s.currentSelection <= s.finalRow0 && s.currentSelection <= s.lastVisible
    requires s.initialRow1 <= s.maxIndex
    ensures s.initialRow1 <= Updated(s, LineDown).currentSelection <= s.maxIndex
  {
    if s.lastVisible > s.firstVisible {
      ScaledBelow(s.maxIndex - s.initialRow1, s.currentSelection - s.firstVisible, s.lastVisible - s.firstVisible);
    }
  }

  // ----- The SCROLL_STATE record, updated in place -----

  class ScrollState {
    var currentSelection: int
    var previousSelection: int
    var maxIndex: int
    var firstVisible: int
    var lastVisible: int
    var maxVisible: int
    var paintAll: bool
    var paintSelection: bool
    var mode: ScrollMode
    var finalRow0: int
    var initialRow1: int

    function Snapshot(): Scroll
      reads this
    {
      Scroll(currentSelection, previousSelection, maxIndex, firstVisible, lastVisible, maxVisible,
             paintAll, paintSelection, mode, finalRow0, initialRow1)
    }

    constructor (mode: ScrollMode)
      ensures Snapshot() == Scroll(0, 0, 0, 0, 0, 0, false, false, mode, 0, 0)
    {
      this.mode := mode;
      currentSelection, previousSelection, maxIndex := 0, 0, 0;
      firstVisible, lastVisible, maxVisible := 0, 0, 0;
      paintAll, paintSelection := false, false;
      finalRow0, initialRow1 := 0, 0;
    }

    /** InitScroll, with the globals AllowGraphicsMode, UGAWidth and ConHeight as parameters. */
    method InitScroll(itemCount: u64, visibleSpace: u64, graphics: bool, ugaWidth: u64, conHeight: u64)
      modifies this
      ensures Snapshot() == Initialized(old(Snapshot()), itemCount, visibleSpace, graphics, ugaWidth, conHeight)
    {
      currentSelection := 0;
      previousSelection := currentSelection;
      maxIndex := Int64(itemCount) - 1;
      firstVisible := 0;
      if graphics {
        maxVisible := Int64((ugaWidth / (ROW0_TILESIZE + TILE_XSPACING) - 1) % TWO_64);
      } else {
        maxVisible := Int64((conHeight - 4) % TWO_64);
      }
      if visibleSpace > 0 && visibleSpace < maxVisible % TWO_64 {
        maxVisible := Int64(visibleSpace);
      }
      paintAll := true;
      paintSelection := false;
      lastVisible := firstVisible + maxVisible - 1;
    }

    /** AdjustScrollState. */
    method AdjustScrollState()
      modifies this
      ensures Snapshot() == Adjusted(old(Snapshot()))
    {
      if currentSelection > lastVisible {
        lastVisible := currentSelection;
        firstVisible := 1 + currentSelection - maxVisible;
        if firstVisible < 0 {
          firstVisible := 0;
        }
        paintAll := true;
      }
      if currentSelection < firstVisible {
        firstVisible := currentSelection;
        lastVisible := currentSelection + maxVisible - 1;
        paintAll := true;
      }
    }

    /** The switch of UpdateScroll. */
    method Move(movement: Movement)
      modifies this
      ensures Snapshot() == Moved(old(Snapshot()), movement)
    {
      match movement
      case LineLeft =>
        if currentSelection > 0 {
          currentSelection := currentSelection - 1;
        }
      case LineRight =>
        if currentSelection < maxIndex {
          currentSelection := currentSelection + 1;
        }
      case LineUp =>
        if mode == Icons {
          if currentSelection >= initialRow1 {
            if maxIndex > initialRow1 {
              currentSelection := firstVisible + CDiv((lastVisible - firstVisible) * (currentSelection - initialRow1),
                                                      maxIndex - initialRow1);
            } else {
              currentSelection := firstVisible;
            }
          }
        } else if currentSelection > 0 {
          currentSelection := currentSelection - 1;
        }
      case LineDown =>
        if mode == Icons {
          if currentSelection <= finalRow0 {
            if lastVisible > firstVisible {
              currentSelection := initialRow1 + CDiv((maxIndex - initialRow1) * (currentSelection - firstVisible),
                                                     lastVisible - firstVisible);
            } else {
              currentSelection := initialRow1;
            }
          }
        } else if currentSelection < maxIndex {
          currentSelection := currentSelection + 1;
        }
      case PageUp =>
        if currentSelection <= finalRow0 {
          currentSelection := currentSelection - maxVisible;
        } else if currentSelection == initialRow1 {
          currentSelection := finalRow0;
        } else {
          currentSelection := initialRow1;
        }
        if currentSelection < 0 {
          currentSelection := 0;
        }
      case First =>
        if currentSelection > 0 {
          paintAll := true;
          currentSelection := 0;
        }
      case PageDown =>
        if currentSelection < finalRow0 {
          currentSelection := currentSelection + maxVisible;
          if currentSelection > finalRow0 {
            currentSelection := finalRow0;
          }
        } else if currentSelection == finalRow0 {
          currentSelection := currentSelection + 1;
        } else {
          currentSelection := maxIndex;
        }
        if currentSelection > maxIndex {
          currentSelection := maxIndex;
        }
      case Last =>
        if currentSelection < maxIndex {
          paintAll := true;
          currentSelection := maxIndex;
        }
      case ScrollNone =>
    }

    /** UpdateScroll. */
    method UpdateScroll(movement: Movement)
      modifies this
      ensures Snapshot() == Updated(old(Snapshot()), movement)
    {
      previousSelection := currentSelection;
      Move(movement);
      if mode == Text {
        AdjustScrollState();
      }
      if !paintAll && currentSelection != previousSelection {
        paintSelection := true;
      }
      lastVisible := firstVisible + maxVisible - 1;
    }

    /**
     * IdentifyRows, with rows[i] the Row of entry i. The C loop counter is
     * unsigned, so the loop needs MaxIndex >= 0: an empty menu would run it
     * far past the entry array.
     */
    method IdentifyRows(rows: seq<nat>)
      requires 0 <= maxIndex <= |rows|
      modifies this
      ensures Snapshot() == Identified(old(Snapshot()), rows)
    {
      finalRow0 := 0;
      initialRow1 := maxIndex;
      var i := 0;
      while i < maxIndex
        invariant 0 <= i <= maxIndex <= |rows|
        invariant finalRow0 == LastRow0(rows, i)
        invariant initialRow1 == FirstRow1(rows, i, maxIndex)
        invariant Snapshot().(finalRow0 := 0, initialRow1 := 0) == old(Snapshot()).(finalRow0 := 0, initialRow1 := 0)
      {
        if rows[i] == 0 {
          finalRow0 := i;
        } else if rows[i] == 1 && initialRow1 > i {
          initialRow1 := i;
        }
        i := i + 1;
      }
      if mode == Icons && maxVisible > finalRow0 + 1 {
        maxVisible := finalRow0 + 1;
      }
    }
  }
}
