// setColWidth: the shrinkable columns share the width that the others leave, in
// whole pixels, and the last of them takes what rounding leaves over.

module ColumnWidths {
  import opened Wrappers

  /** An entry of colModel. */
  datatype Column = Column(width: real, hidden: bool, fixed: bool)

  predicate Shrinkable(c: Column) {
    !c.hidden && !c.fixed
  }

  function Round(x: real): real {
    (x + 0.5).Floor as real
  }

  /** `parseInt` of a number */
  function Truncated(x: real): real {
    if x >= 0.0 then x.Floor as real else -((-x).Floor as real)
  }

  predicate Whole(x: real) {
    x.Floor as real == x
  }

  /** The widths and spacing of the visible columns. */
  function Occupied(cols: seq<Column>, brd: real): real {
    if cols == [] then 0.0
    else
      var last := cols[|cols| - 1];
      Occupied(cols[..|cols| - 1], brd) + if last.hidden then 0.0 else last.width + brd
  }

  /** The same for the fixed columns alone. */
  function FixedPart(cols: seq<Column>, brd: real): real {
    if cols == [] then 0.0
    else
      var last := cols[|cols| - 1];
      FixedPart(cols[..|cols| - 1], brd) + if !last.hidden && last.fixed then last.width + brd else 0.0
  }

  function ShrinkableCount(cols: seq<Column>): nat {
    if cols == [] then 0
    else ShrinkableCount(cols[..|cols| - 1]) + if Shrinkable(cols[|cols| - 1]) then 1 else 0
  }

  /** The widths of the shrinkable columns. */
  function ShrinkableWidth(cols: seq<Column>): real {
    if cols == [] then 0.0
    else ShrinkableWidth(cols[..|cols| - 1]) + if Shrinkable(cols[|cols| - 1]) then cols[|cols| - 1].width else 0.0
  }

  /** The spacing of `n` columns. */
  function Spacing(brd: real, n: nat): real {
    if n == 0 then 0.0 else Spacing(brd, n - 1) + brd
  }

  lemma {:induction false} SpacingIsProduct(brd: real, n: nat)
    ensures Spacing(brd, n) == brd * n as real
  {
    if n > 0 {
      SpacingIsProduct(brd, n - 1);
      assert brd * (n - 1) as real + brd == brd * n as real;
    }
  }

  lemma {:induction false} Parts(cols: seq<Column>, brd: real)
    ensures Occupied(cols, brd) == FixedPart(cols, brd) + ShrinkableWidth(cols) + Spacing(brd, ShrinkableCount(cols))
  {
    if cols != [] {
      Parts(cols[..|cols| - 1], brd);
    }
  }

  // ----- Sharing the width ------------------------------------------------------

  /** `aw*this.width/total`: a column's part of the available width. */
  function Part(aw: real, w: real, total: real): real
    requires total != 0.0
  {
    aw * w / total
  }

  function Shared(c: Column, aw: real, total: real): Column
    requires total != 0.0
  {
    if Shrinkable(c) then c.(width := Round(Part(aw, c.width, total))) else c
  }

  /** The columns after every shrinkable one got its share; `total` is their old width. */
  function Shares(cols: seq<Column>, aw: real, total: real): (r: seq<Column>)
    requires total != 0.0
    ensures |r| == |cols|
  {
    if cols == [] then [] else Shares(cols[..|cols| - 1], aw, total) + [Shared(cols[|cols| - 1], aw, total)]
  }

  lemma {:induction false} SharesAt(cols: seq<Column>, aw: real, total: real, i: nat)
    requires total != 0.0 && i < |cols|
    ensures Shares(cols, aw, total)[i] == Shared(cols[i], aw, total)
    decreases |cols|
  {
    if i < |cols| - 1 {
      SharesAt(cols[..|cols| - 1], aw, total, i);
    }
  }

  lemma {:induction false} SharesKeep(cols: seq<Column>, aw: real, total: real, brd: real)
    requires total != 0.0
    ensures FixedPart(Shares(cols, aw, total), brd) == FixedPart(cols, brd)
    ensures ShrinkableCount(Shares(cols, aw, total)) == ShrinkableCount(cols)
  {
    if cols != [] {
      var init := cols[..|cols| - 1];
      SharesKeep(init, aw, total, brd);
      assert Shares(cols, aw, total)[..|cols| - 1] == Shares(init, aw, total);
    }
  }

  lemma PartsAdd(aw: real, a: real, b: real, total: real)
    requires total != 0.0
    ensures Part(aw, a + b, total) == Part(aw, a, total) + Part(aw, b, total)
  {
    assert aw * (a + b) == aw * a + aw * b;
  }

  lemma WholePart(aw: real, total: real)
    requires total != 0.0
    ensures Part(aw, total, total) == aw && Part(aw, 0.0, total) == 0.0
  {
  }

  lemma RoundNear(x: real)
    ensures -1.0 <= 2.0 * (Round(x) - x) <= 1.0
  {
  }

  /** The nearest whole number, and of two equally near the greater; and the whole part of a
      number, which never goes further from zero. */
  lemma RoundingMeaning(x: real)
    ensures Whole(Round(x)) && x - 0.5 < Round(x) <= x + 0.5
    ensures Whole(Truncated(x)) && (0.0 <= Truncated(x) <= x < Truncated(x) + 1.0
                                    || Truncated(x) - 1.0 < x <= Truncated(x) <= 0.0)
  {
    WholeIs(Round(x), (x + 0.5).Floor);
    TruncatedIsWhole(x);
  }

  /** Rounding moves the sum by at most half a pixel for each shrinkable column. */
  lemma {:induction false} SharesSum(cols: seq<Column>, aw: real, total: real)
    requires total != 0.0
    ensures var d := ShrinkableWidth(Shares(cols, aw, total)) - Part(aw, ShrinkableWidth(cols), total);
      -(ShrinkableCount(cols) as real) <= 2.0 * d <= ShrinkableCount(cols) as real
  {
    if cols == [] {
      WholePart(aw, total);
    } else {
      var init, last := cols[..|cols| - 1], cols[|cols| - 1];
      SharesSum(init, aw, total);
      assert Shares(cols, aw, total)[..|cols| - 1] == Shares(init, aw, total);
      if Shrinkable(last) {
        PartsAdd(aw, ShrinkableWidth(init), last.width, total);
        RoundNear(Part(aw, last.width, total));
      }
    }
  }

  /** So the shares together miss the available width by no more than that, if the widths are what
      `parseInt` makes of them. */
  lemma SharesFill(cols: seq<Column>, aw: real, total: real)
    requires total != 0.0
    ensures var n := ShrinkableCount(cols) as real;
      ShrinkableWidth(cols) == total ==> -n <= 2.0 * (ShrinkableWidth(Shares(cols, aw, total)) - aw) <= n
  {
    SharesSum(cols, aw, total);
    WholePart(aw, total);
  }

  // ----- Whole widths -------------------------------------------------------------

  /** The columns as the first loop measures them. */
  function Parsed(cols: seq<Column>): (r: seq<Column>)
    ensures |r| == |cols|
  {
    if cols == [] then []
    else
      var last := cols[|cols| - 1];
      Parsed(cols[..|cols| - 1]) + [last.(width := Truncated(last.width))]
  }

  lemma {:induction false} ParsedCount(cols: seq<Column>)
    ensures ShrinkableCount(Parsed(cols)) == ShrinkableCount(cols)
  {
    if cols != [] {
      ParsedCount(cols[..|cols| - 1]);
      assert Parsed(cols)[..|cols| - 1] == Parsed(cols[..|cols| - 1]);
    }
  }

  lemma WholeIs(x: real, k: int)
    requires x == k as real
    ensures Whole(x)
  {
  }

  lemma WholeSum(a: real, b: real)
    requires Whole(a) && Whole(b)
    ensures Whole(a + b) && Whole(a - b)
  {
    WholeIs(a + b, a.Floor + b.Floor);
    WholeIs(a - b, a.Floor - b.Floor);
  }

  lemma TruncatedIsWhole(x: real)
    ensures Whole(Truncated(x))
  {
    if x < 0.0 {
      WholeIs(Truncated(x), -(-x).Floor);
    } else {
      WholeIs(Truncated(x), x.Floor);
    }
  }

  lemma {:induction false} ParsedFixedWhole(cols: seq<Column>, brd: real)
    requires Whole(brd)
    ensures Whole(FixedPart(Parsed(cols), brd))
  {
    if cols != [] {
      var init, last := cols[..|cols| - 1], cols[|cols| - 1];
      ParsedFixedWhole(init, brd);
      assert Parsed(cols)[..|cols| - 1] == Parsed(init);
      TruncatedIsWhole(last.width);
      WholeSum(Truncated(last.width), brd);
      WholeSum(FixedPart(Parsed(init), brd), Truncated(last.width) + brd);
    }
  }

  lemma {:induction false} SharesWhole(cols: seq<Column>, aw: real, total: real)
    requires total != 0.0
    ensures Whole(ShrinkableWidth(Shares(cols, aw, total)))
  {
    if cols != [] {
      var init, last := cols[..|cols| - 1], cols[|cols| - 1];
      SharesWhole(init, aw, total);
      assert Shares(cols, aw, total)[..|cols| - 1] == Shares(init, aw, total);
      WholeIs(Round(Part(aw, last.width, total)), (Part(aw, last.width, total) + 0.5).Floor);
      WholeSum(ShrinkableWidth(Shares(init, aw, total)), Round(Part(aw, last.width, total)));
    }
  }

  lemma {:induction false} SpacingWhole(brd: real, n: nat)
    requires Whole(brd)
    ensures Whole(Spacing(brd, n))
  {
    if n > 0 {
      SpacingWhole(brd, n - 1);
      WholeSum(Spacing(brd, n - 1), brd);
    }
  }

  /** What `parseInt` cuts off the visible fixed columns, whose widths stay as they are. */
  function CutOff(cols: seq<Column>): real {
    if cols == [] then 0.0
    else
      var last := cols[|cols| - 1];
      CutOff(cols[..|cols| - 1]) + if !last.hidden && last.fixed then last.width - Truncated(last.width) else 0.0
  }

  lemma {:induction false} CutOffIs(cols: seq<Column>, brd: real)
    ensures FixedPart(cols, brd) == FixedPart(Parsed(cols), brd) + CutOff(cols)
  {
    if cols != [] {
      CutOffIs(cols[..|cols| - 1], brd);
      assert Parsed(cols)[..|cols| - 1] == Parsed(cols[..|cols| - 1]);
    }
  }

  /** The visible fixed columns have whole widths. */
  predicate FixedWhole(cols: seq<Column>) {
    forall i :: 0 <= i < |cols| && !cols[i].hidden && cols[i].fixed ==> Whole(cols[i].width)
  }

  lemma {:induction false} NothingCutOff(cols: seq<Column>)
    requires FixedWhole(cols)
    ensures CutOff(cols) == 0.0
  {
    if cols != [] {
      NothingCutOff(cols[..|cols| - 1]);
      TruncatedWhole(cols[|cols| - 1].width);
    }
  }

  /** Widening one visible column widens the whole by as much. */
  lemma {:induction false} WidenOne(cols: seq<Column>, i: nat, extra: real, brd: real)
    requires i < |cols| && !cols[i].hidden
    ensures Occupied(cols[i := cols[i].(width := cols[i].width + extra)], brd) == Occupied(cols, brd) + extra
    decreases |cols|
  {
    var more := cols[i := cols[i].(width := cols[i].width + extra)];
    if i == |cols| - 1 {
      assert more[..i] == cols[..i];
    } else {
      WidenOne(cols[..|cols| - 1], i, extra, brd);
      assert more[..|cols| - 1] == cols[..|cols| - 1][i := more[i]];
    }
  }

  lemma MeasureStep(cols: seq<Column>, i: nat, brd: real)
    requires i < |cols|
    ensures var c, cw := cols[i], Truncated(cols[i].width);
      && Occupied(Parsed(cols[..i + 1]), brd) == Occupied(Parsed(cols[..i]), brd) + (if c.hidden then 0.0 else cw + brd)
      && FixedPart(Parsed(cols[..i + 1]), brd)
        == FixedPart(Parsed(cols[..i]), brd) + (if !c.hidden && c.fixed then cw + brd else 0.0)
      && ShrinkableCount(cols[..i + 1]) == ShrinkableCount(cols[..i]) + (if Shrinkable(c) then 1 else 0)
  {
    assert cols[..i + 1][..i] == cols[..i];
    assert Parsed(cols[..i + 1])[..i] == Parsed(cols[..i]);
  }

  // ----- The grid -----------------------------------------------------------------

  class Grid {
    var colModel: seq<Column>
    var width: Option<real>
    var tblwidth: real
    const cellLayout: int
    const scrollOffset: int
    const numericHeight: bool
    const shrinkToFit: bool

    constructor (colModel: seq<Column>, width: Option<real>, cellLayout: int, scrollOffset: int, numericHeight: bool,
                 shrinkToFit: bool)
      ensures this.colModel == colModel && this.width == width
      ensures this.cellLayout == cellLayout && this.scrollOffset == scrollOffset
      ensures this.numericHeight == numericHeight && this.shrinkToFit == shrinkToFit
    {
      this.colModel, this.width, tblwidth := colModel, width, 0.0;
      this.cellLayout, this.scrollOffset := cellLayout, scrollOffset;
      this.numericHeight, this.shrinkToFit := numericHeight, shrinkToFit;
    }

    function Brd(): real {
      cellLayout as real
    }

    function Scw(): real {
      scrollOffset as real
    }

    /** The first loop over colModel. */
    method Measure() returns (initwidth: real, gw: real, vc: nat)
      ensures initwidth == Occupied(Parsed(colModel), Brd()) && gw == FixedPart(Parsed(colModel), Brd())
      ensures vc == ShrinkableCount(colModel)
    {
      initwidth, gw, vc := 0.0, 0.0, 0;
      var cols, brd := colModel, Brd();
      for i := 0 to |cols|
        invariant initwidth == Occupied(Parsed(cols[..i]), brd) && gw == FixedPart(Parsed(cols[..i]), brd)
        invariant vc == ShrinkableCount(cols[..i])
      {
        MeasureStep(cols, i, brd);
        var cw := Truncated(cols[i].width);
        if !cols[i].hidden {
          initwidth := initwidth + (cw + brd);
          if cols[i].fixed {
            gw := gw + (cw + brd);
          } else {
            vc := vc + 1;
          }
        }
      }
      assert cols[..|cols|] == cols;
    }

    /** The second loop: every shrinkable column gets its share, `lvc` is the last of them. */
    method Share(aw: real, total: real) returns (initwidth: real, lvc: nat)
      requires total != 0.0 && ShrinkableCount(colModel) > 0
      modifies this`colModel
      ensures colModel == Shares(old(colModel), aw, total)
      ensures initwidth == ShrinkableWidth(colModel)
      ensures lvc < |colModel| && IsLast(old(colModel), lvc)
    {
      initwidth, lvc := 0.0, 0;
      ghost var cols := colModel;
      for i := 0 to |colModel|
        invariant |colModel| == |cols| && Sharing(cols, colModel, i, aw, total)
        invariant initwidth == ShrinkableWidth(colModel[..i])
        invariant LastSoFar(cols, i, lvc)
      {
        SharingStep(cols, colModel, i, aw, total);
        LastStep(cols, i, lvc);
        if !colModel[i].hidden && !colModel[i].fixed {
          var cw := Round(Part(aw, colModel[i].width, total));
          colModel := colModel[i := colModel[i].(width := cw)];
          initwidth := initwidth + cw;
          lvc := i;
        } else {
          assert colModel[i := Shared(cols[i], aw, total)] == colModel;
        }
      }
      assert cols[..|cols|] == cols && colModel[..|colModel|] == colModel;
      if forall k :: 0 <= k < |cols| ==> !Shrinkable(cols[k]) {
        NoneCounted(cols);
      }
    }

    /** The columns are shrunk: asked for, and there are columns that can be. */
    ghost predicate Shrinks()
      reads this
    {
      shrinkToFit && ShrinkableCount(colModel) > 0
    }

    /** The space for the table's columns that a scroll bar leaves, in the width `w`. */
    function Room(w: real): real {
      if numericHeight then w - Scw() else w
    }

    /** What rounding left over goes to column `lvc`; `c` is what it gets. */
    method Adjust(initwidth: real, gw: real, spacing: real, lvc: nat) returns (ghost c: real)
      requires width.Some? && lvc < |colModel| && !colModel[lvc].hidden
      modifies this`colModel, this`tblwidth
      ensures var w, d := width.value, width.value - gw - (initwidth + spacing);
        && colModel == old(colModel)[lvc := old(colModel)[lvc].(width := old(colModel)[lvc].width + c)]
        && Occupied(colModel, Brd()) == Occupied(old(colModel), Brd()) + c
        && (numericHeight && Scw() >= 0.0 ==> c == d - Scw() && tblwidth == w - Scw())
        && (numericHeight && Scw() < 0.0 ==> c == d - w + Truncated(w) && tblwidth == w)
        && (!numericHeight && d == 1.0 ==> c == 0.0 && tblwidth == w - 1.0)
        && (!numericHeight && d != 1.0 && (d == -1.0 ==> Whole(w)) ==> c == d && tblwidth == w)
    {
      c := 0.0;
      var cr := 0.0;
      if numericHeight {
        if width.value - gw - (initwidth + spacing) != Scw() {
          cr := width.value - gw - (initwidth + spacing) - Scw();
        }
      } else if Abs(width.value - gw - (initwidth + spacing)) != 1.0 {
        cr := width.value - gw - (initwidth + spacing);
      }
      WidenOne(colModel, lvc, cr, Brd());
      colModel := colModel[lvc := colModel[lvc].(width := colModel[lvc].width + cr)];
      tblwidth := initwidth + cr + spacing + gw;
      c := cr;
      if tblwidth > width.value {
        var over := tblwidth - Truncated(width.value);
        TruncatedWhole(width.value);
        WidenOne(colModel, lvc, -over, Brd());
        colModel := colModel[lvc := colModel[lvc].(width := colModel[lvc].width - over)];
        tblwidth := width.value;
        c := cr - over;
      }
    }

    /** The shares of the room that spacing and fixed columns leave. */
    method ShareRoom(initwidth: real, gw: real, spacing: real) returns (newwidth: real, lvc: nat)
      requires width.Some? && ShrinkableCount(colModel) > 0 && ShrinkableWidth(Parsed(colModel)) != 0.0
      requires initwidth == Occupied(Parsed(colModel), Brd()) && gw == FixedPart(Parsed(colModel), Brd())
      requires spacing == Spacing(Brd(), ShrinkableCount(colModel))
      modifies this`colModel
      ensures var cols, aw := old(colModel), Room(width.value) - spacing - gw;
        var n := ShrinkableCount(cols) as real;
        var total := ShrinkableWidth(Parsed(cols));
        && colModel == Shares(cols, aw, total)
        && lvc < |cols| && IsLast(cols, lvc) && colModel[lvc] == Shared(cols[lvc], aw, total)
        && Occupied(colModel, Brd()) == gw + CutOff(cols) + newwidth + spacing && Whole(gw + newwidth + spacing)
        && (ShrinkableWidth(cols) == total ==> -n <= 2.0 * (newwidth - aw) <= n)
    {
      ghost var cols, brd := colModel, Brd();
      var aw := width.value - spacing - gw;
      if numericHeight {
        aw := aw - Scw();
      }
      var total := initwidth - spacing - gw;
      Parts(Parsed(cols), brd);
      ParsedCount(cols);
      assert total == ShrinkableWidth(Parsed(cols)) && aw == Room(width.value) - spacing - gw;
      newwidth, lvc := Share(aw, total);
      SharesFill(cols, aw, total);
      SharesAt(cols, aw, total, lvc);
      SharesTogether(cols, aw, total, brd);
    }

    /** The part of setColWidth that shrinks; `initwidth`, `gw` and `vc` are as measured. */
    method Shrink(initwidth: real, gw: real, vc: nat)
      requires width.Some? && Shrinks() && ShrinkableWidth(Parsed(colModel)) != 0.0
      requires initwidth == Occupied(Parsed(colModel), Brd()) && gw == FixedPart(Parsed(colModel), Brd())
      requires vc == ShrinkableCount(colModel)
      modifies this`colModel, this`tblwidth
      ensures numericHeight ==> tblwidth == if Scw() < 0.0 then width.value else width.value - Scw()
      ensures !numericHeight ==> tblwidth == width.value || tblwidth == width.value - 1.0
      ensures Occupied(colModel, Brd()) == tblwidth + CutOff(old(colModel)) - Clamped(width.value)
      ensures FairShares(old(colModel), colModel, Brd(), Room(width.value), Near(old(colModel)))
    {
      ghost var cols := colModel;
      SpacingIsProduct(Brd(), vc);
      var spacing := Brd() * vc as real;
      var newwidth, lvc := ShareRoom(initwidth, gw, spacing);
      WholeLess(width.value, gw, newwidth, spacing);
      ghost var shared := colModel;
      ghost var c := Adjust(newwidth, gw, spacing, lvc);
      Concluded(cols, shared, colModel, Brd(), Room(width.value), lvc, c, Near(cols));
    }

    /** What the last branch cuts off the grid's own width. */
    function Clamped(w: real): real {
      if numericHeight && Scw() < 0.0 then w - Truncated(w) else 0.0
    }

    /** When the last column is off by rounding alone. */
    predicate Near(cols: seq<Column>) {
      (Scw() >= 0.0 || !numericHeight) && ShrinkableWidth(cols) == ShrinkableWidth(Parsed(cols))
    }

    /** The visible columns' widths and spacing are the table's width, but for what `parseInt`
        cuts off: fractions of fixed columns, and of the grid's width if the scroll offset is
        negative. */
    method SetColWidth()
      requires Shrinks() ==> ShrinkableWidth(Parsed(colModel)) != 0.0
      modifies this
      ensures width.Some? && (old(width).Some? ==> width == old(width))
      ensures old(width).None? ==>
        width == Some(Occupied(Parsed(old(colModel)), Brd()) + if !shrinkToFit && numericHeight then Scw() else 0.0)
      ensures !old(Shrinks()) ==> colModel == old(colModel) && tblwidth == Occupied(Parsed(colModel), Brd())
      ensures old(Shrinks()) && numericHeight ==> tblwidth == if Scw() < 0.0 then width.value else width.value - Scw()
      ensures old(Shrinks()) && !numericHeight ==> tblwidth == width.value || tblwidth == width.value - 1.0
      ensures old(Shrinks()) ==> Occupied(colModel, Brd()) == tblwidth + CutOff(old(colModel)) - Clamped(width.value)
      ensures old(Shrinks()) && FixedWhole(old(colModel)) ==>
        (tblwidth == Occupied(colModel, Brd()) <==> !(numericHeight && Scw() < 0.0 && !Whole(width.value)))
      ensures old(Shrinks()) ==>
        FairShares(old(colModel), colModel, Brd(), Room(width.value), Near(old(colModel)))
    {
      ghost var cols := colModel;
      var initwidth, gw, vc := Measure();
      if width.None? {
        width := Some(initwidth + if !shrinkToFit && numericHeight then Scw() else 0.0);
      }
      tblwidth := initwidth;
      if shrinkToFit && vc > 0 {
        Shrink(initwidth, gw, vc);
      }
      TruncatedWhole(width.value);
      if FixedWhole(cols) {
        NothingCutOff(cols);
      }
    }
  }

  /** The columns with their shares: whole, and the fixed ones as they were. */
  lemma SharesTogether(cols: seq<Column>, aw: real, total: real, brd: real)
    requires total != 0.0 && Whole(brd)
    ensures var r := Shares(cols, aw, total);
      var gw, sp := FixedPart(Parsed(cols), brd), Spacing(brd, ShrinkableCount(cols));
      && Occupied(r, brd) == gw + CutOff(cols) + ShrinkableWidth(r) + sp
      && Whole(gw + ShrinkableWidth(r) + sp)
  {
    SharesKeep(cols, aw, total, brd);
    Parts(Shares(cols, aw, total), brd);
    CutOffIs(cols, brd);
    ParsedFixedWhole(cols, brd);
    SharesWhole(cols, aw, total);
    SpacingWhole(brd, ShrinkableCount(cols));
    WholeSum(FixedPart(Parsed(cols), brd), ShrinkableWidth(Shares(cols, aw, total)));
    WholeSum(FixedPart(Parsed(cols), brd) + ShrinkableWidth(Shares(cols, aw, total)),
             Spacing(brd, ShrinkableCount(cols)));
  }

  function Abs(x: real): real {
    if x < 0.0 then -x else x
  }

  lemma TruncatedWhole(x: real)
    ensures Truncated(x) == x <==> Whole(x)
  {
    if x < 0.0 {
      if Whole(-x) {
        WholeIs(x, -(-x).Floor);
      }
      if Whole(x) {
        WholeIs(-x, -x.Floor);
      }
    }
  }

  ghost predicate IsLast(cols: seq<Column>, i: nat)
    requires i < |cols|
  {
    Shrinkable(cols[i]) && forall k :: i < k < |cols| ==> !Shrinkable(cols[k])
  }

  /** Every column has its share of `aw`, but `lvc` takes what rounding left, which is
      (if `near`) at most half a pixel for each shrinkable column. */
  ghost predicate FairAt(cols: seq<Column>, now: seq<Column>, aw: real, total: real, lvc: nat, near: bool)
    requires total != 0.0 && |now| == |cols|
  {
    var n := ShrinkableCount(cols) as real;
    && lvc < |cols| && IsLast(cols, lvc)
    && now == Shares(cols, aw, total)[lvc := now[lvc]]
    && now[lvc] == cols[lvc].(width := now[lvc].width)
    && (near ==> -n <= 2.0 * (now[lvc].width - Round(Part(aw, cols[lvc].width, total))) <= n)
  }

  ghost predicate FairShares(cols: seq<Column>, now: seq<Column>, brd: real, room: real, near: bool) {
    var total := ShrinkableWidth(Parsed(cols));
    var aw := room - Spacing(brd, ShrinkableCount(cols)) - FixedPart(Parsed(cols), brd);
    total != 0.0 && |now| == |cols| && exists lvc :: FairAt(cols, now, aw, total, lvc, near)
  }

  /** A width of one pixel less than a whole sum is whole. */
  lemma WholeLess(w: real, gw: real, newwidth: real, spacing: real)
    requires Whole(gw + newwidth + spacing)
    ensures w - gw - (newwidth + spacing) == -1.0 ==> Whole(w)
  {
    WholeSum(gw + newwidth + spacing, 1.0);
  }

  lemma Concluded(cols: seq<Column>, shared: seq<Column>, now: seq<Column>, brd: real, room: real, lvc: nat, c: real,
                  near: bool)
    requires var total := ShrinkableWidth(Parsed(cols));
      var aw := room - Spacing(brd, ShrinkableCount(cols)) - FixedPart(Parsed(cols), brd);
      && total != 0.0 && lvc < |cols| && IsLast(cols, lvc)
      && shared == Shares(cols, aw, total) && shared[lvc] == Shared(cols[lvc], aw, total)
    requires near ==> -(ShrinkableCount(cols) as real) <= 2.0 * c <= ShrinkableCount(cols) as real
    requires now == shared[lvc := shared[lvc].(width := shared[lvc].width + c)]
    ensures FairShares(cols, now, brd, room, near)
  {
    var aw := room - Spacing(brd, ShrinkableCount(cols)) - FixedPart(Parsed(cols), brd);
    assert FairAt(cols, now, aw, ShrinkableWidth(Parsed(cols)), lvc, near);
  }

  // ----- The loop over the columns ------------------------------------------------------

  ghost predicate Sharing(cols: seq<Column>, now: seq<Column>, i: nat, aw: real, total: real)
    requires total != 0.0
  {
    i <= |cols| == |now| && now == Shares(cols[..i], aw, total) + cols[i..]
  }

  lemma SharingStep(cols: seq<Column>, now: seq<Column>, i: nat, aw: real, total: real)
    requires total != 0.0 && Sharing(cols, now, i, aw, total) && i < |cols|
    ensures now[i] == cols[i]
    ensures var next := now[i := Shared(cols[i], aw, total)];
      && Sharing(cols, next, i + 1, aw, total)
      && ShrinkableWidth(next[..i + 1])
         == ShrinkableWidth(now[..i]) + if Shrinkable(cols[i]) then Shared(cols[i], aw, total).width else 0.0
  {
    var next := now[i := Shared(cols[i], aw, total)];
    assert cols[..i + 1][..i] == cols[..i];
    assert next[..i + 1][..i] == now[..i];
  }

  ghost predicate LastSoFar(cols: seq<Column>, i: nat, lvc: nat)
    requires i <= |cols|
  {
    || (lvc < i && Shrinkable(cols[lvc]) && forall k :: lvc < k < i ==> !Shrinkable(cols[k]))
    || forall k :: 0 <= k < i ==> !Shrinkable(cols[k])
  }

  lemma LastStep(cols: seq<Column>, i: nat, lvc: nat)
    requires i < |cols| && LastSoFar(cols, i, lvc)
    ensures LastSoFar(cols, i + 1, if Shrinkable(cols[i]) then i else lvc)
  {
  }

  lemma {:induction false} NoneCounted(cols: seq<Column>)
    requires forall k :: 0 <= k < |cols| ==> !Shrinkable(cols[k])
    ensures ShrinkableCount(cols) == 0
  {
    if cols != [] {
      NoneCounted(cols[..|cols| - 1]);
    }
  }
}
