/**
 * Card placement for the prize draw (useElementPosition in
 * src/hooks/useElement.ts): where the card with a given index goes, as an
 * offset from the centre of the window, when `totalCount` cards are drawn.
 *
 * Cards go in rows of five. Within a row, slot 0 is in the middle and the
 * following slots alternate left and right, one step (card width + 100)
 * further out each time. Rows holding an even number of cards are moved half
 * a step to the right so that they stay centred; each further row sits one
 * card height + 60 higher.
 */
module CardLayout {

  /** Cards per row. */
  const RowLength: nat := 5
  /** Added to the card width to get the distance between neighbouring slots. */
  const ColumnGap: real := 100.0
  /** Added to the card height to get the distance between rows. */
  const RowGap: real := 60.0

  datatype Size = Size(width: real, height: real)

  /** An (xTable, yTable) offset. */
  datatype Offset = Offset(x: real, y: real)

  /** specialPosition: the counts 2, 4, 7 and 9, which have a row of even length. */
  predicate IsSpecialCount(totalCount: int) {
    totalCount == 2 || totalCount == 4 || totalCount == 7 || totalCount == 9
  }

  /** Math.ceil(k / 2). */
  function CeilHalf(k: nat): (r: nat)
    ensures k <= 2 * r <= k + 1
  {
    (k + 1) / 2
  }

  /** useElementPosition: the offset of card `cardIndex` when `totalCount` cards are shown. */
  function Position(totalCount: int, cardIndex: nat, card: Size, window: Size): Offset {
    var centreY := window.height / 2.0 - card.height / 2.0;
    var step := card.width + ColumnGap;
    var y := centreY - (cardIndex / RowLength) as real * (card.height + RowGap);
    var index := cardIndex % RowLength;
    if !IsSpecialCount(totalCount) || (totalCount > 5 && cardIndex < 5) then
      if index == 0 then Offset(0.0, y)
      else if index % 2 == 0 then Offset(CeilHalf(index) as real * step, y)
      else Offset(-(CeilHalf(index) as real) * step, y)
    else
      if index == 0 then Offset(0.0 + step / 2.0, y)
      else if index % 2 == 0 then Offset(CeilHalf(index) as real * step + step / 2.0, y)
      else Offset(-(CeilHalf(index) as real * step) + step / 2.0, y)
  }

  /** The card is laid out half a step to the right. */
  predicate HalfStepShift(totalCount: int, cardIndex: nat) {
    IsSpecialCount(totalCount) && !(totalCount > 5 && cardIndex < 5)
  }

  /**
   * The column of slot `k` relative to the middle one: 0, -1, +1, -2, +2 for
   * slots 0 to 4.
   */
  function SlotColumn(k: nat): (c: int)
    requires k < RowLength
    ensures -2 <= c <= 2
    ensures k == 0 <==> c == 0
    ensures k % 2 == 1 <==> c < 0
  {
    if k % 2 == 0 then k / 2 else -((k + 1) / 2)
  }

  // ---------------------------------------------------------------------------
  // Slot formulas

  /**
   * The vertical offset depends only on the card's row, never on how many
   * cards are drawn.
   */
  lemma RowHeight(totalCount: int, otherCount: int, cardIndex: nat, card: Size, window: Size)
    ensures Position(totalCount, cardIndex, card, window).y
            == window.height / 2.0 - card.height / 2.0 - (cardIndex / 5) as real * (card.height + 60.0)
    ensures Position(otherCount, cardIndex, card, window).y == Position(totalCount, cardIndex, card, window).y
  {
  }

  /**
   * Unshifted, slot k of a row is at 0 for k = 0, at +ceil(k/2) steps for even
   * k and at -ceil(k/2) steps for odd k; shifted, it is half a step further
   * right. The shift applies exactly for the special counts, except in the
   * first row when there are two rows.
   */
  lemma SlotOffsets(totalCount: int, cardIndex: nat, card: Size, window: Size)
    ensures var k := cardIndex % 5;
            var step := card.width + 100.0;
            var unshifted := if k == 0 then 0.0
                             else if k % 2 == 0 then CeilHalf(k) as real * step
                             else -(CeilHalf(k) as real) * step;
            Position(totalCount, cardIndex, card, window).x
            == unshifted + (if HalfStepShift(totalCount, cardIndex) then step / 2.0 else 0.0)
    ensures Position(totalCount, cardIndex, card, window).x
            == SlotColumn(cardIndex % 5) as real * (card.width + 100.0)
               + (if HalfStepShift(totalCount, cardIndex) then (card.width + 100.0) / 2.0 else 0.0)
  {
    var k := cardIndex % 5;
    if k == 1 {
      assert CeilHalf(k) == 1 && SlotColumn(k) == -1;
    } else if k == 2 {
      assert CeilHalf(k) == 1 && SlotColumn(k) == 1;
    } else if k == 3 {
      assert CeilHalf(k) == 2 && SlotColumn(k) == -2;
    } else if k == 4 {
      assert CeilHalf(k) == 2 && SlotColumn(k) == 2;
    }
  }

  /** Slots 1 and 2, and slots 3 and 4, of an unshifted row are mirror images. */
  lemma MirroredSlots(totalCount: int, row: nat, card: Size, window: Size)
    requires !IsSpecialCount(totalCount)
    ensures Position(totalCount, 5 * row + 1, card, window).x == -Position(totalCount, 5 * row + 2, card, window).x
    ensures Position(totalCount, 5 * row + 3, card, window).x == -Position(totalCount, 5 * row + 4, card, window).x
  {
    UnshiftedSlot(totalCount, row, 1, card, window);
    UnshiftedSlot(totalCount, row, 2, card, window);
    UnshiftedSlot(totalCount, row, 3, card, window);
    UnshiftedSlot(totalCount, row, 4, card, window);
  }

  /** Outside the special counts, slot k of any row sits SlotColumn(k) steps from the centre. */
  lemma UnshiftedSlot(totalCount: int, row: nat, k: nat, card: Size, window: Size)
    requires !IsSpecialCount(totalCount) && k < 5
    ensures Position(totalCount, 5 * row + k, card, window).x == SlotColumn(k) as real * (card.width + 100.0)
  {
    assert (5 * row + k) % 5 == k;
    SlotOffsets(totalCount, 5 * row + k, card, window);
  }

  /**
   * With 7 or 9 cards the first five are placed exactly as with 5 cards: only
   * the second row is shifted.
   */
  lemma FirstRowOfTwoUnshifted(totalCount: int, cardIndex: nat, card: Size, window: Size)
    requires totalCount == 7 || totalCount == 9
    requires cardIndex < 5
    ensures Position(totalCount, cardIndex, card, window) == Position(5, cardIndex, card, window)
    ensures !HalfStepShift(totalCount, cardIndex) && HalfStepShift(totalCount, cardIndex + 5)
  {
  }

  // ---------------------------------------------------------------------------
  // Rows are centred strips

  /** How many of `totalCount` cards fall in row `row`. */
  function RowSize(totalCount: nat, row: nat): (m: nat)
    ensures m <= RowLength
    ensures m > 0 <==> 5 * row < totalCount
  {
    if totalCount <= 5 * row then 0
    else if totalCount - 5 * row >= 5 then 5
    else totalCount - 5 * row
  }

  /** Column `j` of a strip of `m` evenly spaced columns, `step` apart and centred on x = 0. */
  function StripX(j: nat, m: nat, step: real): real {
    (j as real - (m as real - 1.0) / 2.0) * step
  }

  /** The strip column, counted from the left, of slot `k` in a row of `m` cards. */
  function StripColumn(k: nat, m: nat): (j: nat)
    requires k < m <= RowLength
    ensures j < m
  {
    m / 2 + SlotColumn(k)
  }

  /** The slot of a row of `m` cards that lands in strip column `j`: the inverse of StripColumn. */
  function SlotAt(j: nat, m: nat): (k: nat)
    requires j < m <= RowLength
    ensures k < m && StripColumn(k, m) == j
  {
    var d := j - m / 2;
    if d >= 0 then 2 * d else -2 * d - 1
  }

  /** For up to ten cards, a card is shifted exactly when its row holds an even number of cards. */
  lemma ShiftIffEvenRow(totalCount: nat, cardIndex: nat)
    requires 1 <= totalCount <= 10 && cardIndex < totalCount
    ensures HalfStepShift(totalCount, cardIndex) <==> RowSize(totalCount, cardIndex / 5) % 2 == 0
  {
  }

  /** Slot `k` of a row of `m` cards, shifted exactly when `m` is even, lands on its strip column. */
  lemma {:induction false} SlotOnStrip(k: nat, m: nat, step: real)
    requires k < m <= RowLength
    ensures SlotColumn(k) as real * step + (if m % 2 == 0 then step / 2.0 else 0.0)
            == StripX(StripColumn(k, m), m, step)
  {
    var c := SlotColumn(k);
    var j := StripColumn(k, m);
    if m % 2 == 0 {
      assert (j as real - (m as real - 1.0) / 2.0) == c as real + 0.5;
    } else {
      assert (j as real - (m as real - 1.0) / 2.0) == c as real;
    }
  }

  /**
   * For 1 to 10 cards, card `cardIndex` sits on strip column
   * StripColumn(cardIndex % 5, m) of its row, where m is the number of cards in
   * that row.
   */
  lemma CardOnStrip(totalCount: nat, cardIndex: nat, card: Size, window: Size)
    requires 1 <= totalCount <= 10 && cardIndex < totalCount
    ensures cardIndex % 5 < RowSize(totalCount, cardIndex / 5)
    ensures Position(totalCount, cardIndex, card, window).x
            == StripX(StripColumn(cardIndex % 5, RowSize(totalCount, cardIndex / 5)),
                      RowSize(totalCount, cardIndex / 5), card.width + 100.0)
  {
    var k, m, step := cardIndex % 5, RowSize(totalCount, cardIndex / 5), card.width + 100.0;
    assert k < m by {
      assert cardIndex == 5 * (cardIndex / 5) + k;
    }
    var shift := HalfStepShift(totalCount, cardIndex);
    SlotOffsets(totalCount, cardIndex, card, window);
    assert Position(totalCount, cardIndex, card, window).x
           == SlotColumn(k) as real * step + (if shift then step / 2.0 else 0.0);
    ShiftIffEvenRow(totalCount, cardIndex);
    assert shift <==> m % 2 == 0;
    SlotOnStrip(k, m, step);
  }

  /** The x-offsets of the cards in row `row` of `totalCount` cards. */
  function RowXs(totalCount: nat, row: nat, card: Size, window: Size): set<real> {
    set i: nat | 5 * row <= i < totalCount && i < 5 * row + 5 :: Position(totalCount, i, card, window).x
  }

  /** The x-offsets of a strip of `m` columns. */
  function Strip(m: nat, step: real): set<real> {
    set j: nat | j < m :: StripX(j, m, step)
  }

  /**
   * For every count from 1 to 10, each row of cards occupies exactly the
   * columns of an evenly spaced strip centred on x = 0: every card is on a
   * column and every column holds a card.
   */
  lemma RowIsStrip(totalCount: nat, row: nat, card: Size, window: Size)
    requires 1 <= totalCount <= 10 && 5 * row < totalCount
    ensures RowXs(totalCount, row, card, window) == Strip(RowSize(totalCount, row), card.width + 100.0)
  {
    var m := RowSize(totalCount, row);
    var step := card.width + 100.0;
    var xs := RowXs(totalCount, row, card, window);
    forall x | x in xs ensures x in Strip(m, step) {
      var i: nat :| 5 * row <= i < totalCount && i < 5 * row + 5 && x == Position(totalCount, i, card, window).x;
      assert i / 5 == row;
      CardOnStrip(totalCount, i, card, window);
    }
    forall x | x in Strip(m, step) ensures x in xs {
      var j: nat :| j < m && x == StripX(j, m, step);
      var i: nat := 5 * row + SlotAt(j, m);
      assert i / 5 == row && i % 5 == SlotAt(j, m);
      CardOnStrip(totalCount, i, card, window);
    }
  }

  /** Column j and column m - 1 - j of a strip are mirror images. */
  lemma StripSymmetric(j: nat, m: nat, step: real)
    requires j < m
    ensures StripX(m - 1 - j, m, step) == -StripX(j, m, step)
  {
    var a := j as real - (m as real - 1.0) / 2.0;
    assert (m - 1 - j) as real - (m as real - 1.0) / 2.0 == -a;
  }

  /** Different columns of a strip are at least one step apart. */
  lemma StripColumnsApart(j: nat, j': nat, m: nat, step: real)
    requires j != j' && step > 0.0
    ensures StripX(j, m, step) - StripX(j', m, step) >= step
            || StripX(j, m, step) - StripX(j', m, step) <= -step
  {
    var d := (j as int - j' as int) as real;
    assert StripX(j, m, step) - StripX(j', m, step) == d * step;
    if j > j' {
      assert d >= 1.0;
      assert d * step >= 1.0 * step;
    } else {
      assert d <= -1.0;
      assert d * step <= -1.0 * step;
    }
  }

  /**
   * For every count from 1 to 10 every row is centred: the set of its
   * x-offsets is symmetric about 0.
   */
  lemma RowsCentred(totalCount: nat, row: nat, card: Size, window: Size)
    requires 1 <= totalCount <= 10 && 5 * row < totalCount
    ensures forall x :: x in RowXs(totalCount, row, card, window) ==> -x in RowXs(totalCount, row, card, window)
  {
    var m := RowSize(totalCount, row);
    var step := card.width + 100.0;
    RowIsStrip(totalCount, row, card, window);
    forall x | x in Strip(m, step) ensures -x in Strip(m, step) {
      var j: nat :| j < m && x == StripX(j, m, step);
      StripSymmetric(j, m, step);
    }
  }

  /**
   * Two different cards of one row never share a column: their centres are a
   * whole number of steps, at least one, apart.
   */
  lemma RowSlotsApart(totalCount: nat, i: nat, i': nat, card: Size, window: Size)
    requires 1 <= totalCount <= 10 && i < totalCount && i' < totalCount
    requires i != i' && i / 5 == i' / 5
    requires card.width + 100.0 > 0.0
    ensures var dx := Position(totalCount, i, card, window).x - Position(totalCount, i', card, window).x;
            dx >= card.width + 100.0 || dx <= -(card.width + 100.0)
  {
    var m := RowSize(totalCount, i / 5);
    CardOnStrip(totalCount, i, card, window);
    CardOnStrip(totalCount, i', card, window);
    assert i % 5 != i' % 5;
    StripColumnsApart(StripColumn(i % 5, m), StripColumn(i' % 5, m), m, card.width + 100.0);
  }
}
