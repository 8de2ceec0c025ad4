/** The sparse two-dimensional grid shared by the 2023 solvers: a map from x
    to a column (a map from y to a value), with incrementally maintained
    extents — the global x and y ranges, each column's y range and each
    row's x range — and a small three-dimensional variant. */
module Grid2023 {
  import opened Common

  /** Which extent of a grid a range object caches (proof bookkeeping only:
      it tells the range objects of one grid apart). */
  datatype Role = Detached | XExtent | YExtent | ColumnExtent(x: int) | RowExtent(y: int)

  /** A running minimum and maximum; both are absent until the first update. */
  class Range {
    var min: Option<int>
    var max: Option<int>
    ghost const role: Role

    constructor (ghost role: Role)
      ensures min == None && max == None && this.role == role
    {
      min := None;
      max := None;
      this.role := role;
    }

    /** The range holds exactly the extent of `s`: both bounds are absent
        together, present bounds are elements of `s`, and every element of `s`
        lies between them. */
    ghost predicate Spans(s: set<int>)
      reads this
    {
      && (min.None? <==> max.None?)
      && (min.Some? ==> min.value in s && max.value in s)
      && (forall v | v in s :: min.Some? && min.value <= v <= max.value)
    }

    /** A spanning range is empty exactly for the empty set, and otherwise
        holds the set's least and greatest element. */
    lemma SpansExtent(s: set<int>)
      requires Spans(s)
      ensures min.None? <==> s == {}
      ensures min.Some? ==> IsSetMin(min.value, s) && IsSetMax(max.value, s)
    {
      if min.None? {
        assert forall v :: v !in s;
      } else {
        assert min.value in s;
      }
    }

    /** `update`: afterwards the range spans every value passed so far. */
    method Update(value: int, ghost seen: set<int>)
      requires Spans(seen)
      modifies this
      ensures Spans(seen + {value})
      ensures min.Some? && max.Some? && min.value <= value <= max.value
      ensures min == (if old(min) == None || old(min).value > value then Some(value) else old(min))
      ensures max == (if old(max) == None || old(max).value < value then Some(value) else old(max))
    {
      if min == None || min.value > value {
        min := Some(value);
      }
      if max == None || max.value < value {
        max := Some(value);
      }
    }

    /** `asArray`: nothing for a range never updated, otherwise min..max. */
    function AsArray(): (r: Option<seq<int>>)
      reads this
      ensures r == None <==> min == None || max == None
      ensures r.Some? && min.value <= max.value ==>
        |r.value| == max.value - min.value + 1 &&
        forall i :: 0 <= i < |r.value| ==> r.value[i] == min.value + i
    {
      if min == None || max == None then None
      else if min.value <= max.value then
        LodashRangeAscending(min.value, max.value + 1);
        Some(LodashRange(min.value, max.value + 1))
      else Some(LodashRange(min.value, max.value + 1))
    }
  }

  /** `asArray` of a range that spans a set lists exactly the integers
      between the set's least and greatest element. */
  lemma AsArrayOfSpan(r: Range, s: set<int>)
    requires r.Spans(s)
    ensures r.AsArray() == None <==> s == {}
    ensures s != {} ==> r.AsArray().Some? && forall k :: k in r.AsArray().value <==> r.min.value <= k <= r.max.value
    ensures forall v :: v in s ==> r.AsArray().Some? && v in r.AsArray().value
  {
    r.SpansExtent(s);
    if s != {} {
      var xs := r.AsArray().value;
      forall k | r.min.value <= k <= r.max.value ensures k in xs {
        assert xs[k - r.min.value] == k;
      }
    }
  }

  class Column<T> {
    var values: map<int, T>
    const range: Range
    ghost const x: int

    ghost predicate Valid()
      reads this, range
    {
      range.role == ColumnExtent(x) && range.Spans(values.Keys)
    }

    constructor (ghost x: int)
      ensures Valid() && values == map[] && this.x == x && fresh(range)
    {
      values := map[];
      range := new Range(ColumnExtent(x));
      this.x := x;
    }

    function Get(y: int): (r: Option<T>)
      reads this
      ensures r.Some? <==> y in values
      ensures r.Some? ==> r.value == values[y]
    {
      if y in values then Some(values[y]) else None
    }

    method Set(y: int, value: T)
      requires Valid()
      modifies this, range
      ensures Valid()
      ensures values == old(values)[y := value]
    {
      values := values[y := value];
      range.Update(y, old(values).Keys);
    }

    predicate Has(y: int)
      reads this
      ensures Has(y) <==> y in values
    {
      y in values
    }
  }

  /** The x coordinates, y coordinates, the y coordinates of column x, and the
      x coordinates of row y of a set of cells. */
  ghost function Xs<T>(cells: map<(int, int), T>): set<int>
  {
    set p | p in cells :: p.0
  }

  ghost function Ys<T>(cells: map<(int, int), T>): set<int>
  {
    set p | p in cells :: p.1
  }

  ghost function ColumnYs<T>(cells: map<(int, int), T>, x: int): set<int>
  {
    set p | p in cells && p.0 == x :: p.1
  }

  ghost function RowXs<T>(cells: map<(int, int), T>, y: int): set<int>
  {
    set p | p in cells && p.1 == y :: p.0
  }

  lemma XsAfterSet<T>(cells: map<(int, int), T>, x: int, y: int, v: T)
    ensures Xs(cells[(x, y) := v]) == Xs(cells) + {x}
    ensures Ys(cells[(x, y) := v]) == Ys(cells) + {y}
  {
    assert (x, y) in cells[(x, y) := v];
  }

  lemma ColumnYsAfterSet<T>(cells: map<(int, int), T>, x: int, y: int, v: T, x': int)
    ensures ColumnYs(cells[(x, y) := v], x') ==
      if x' == x then ColumnYs(cells, x') + {y} else ColumnYs(cells, x')
  {
    assert (x, y) in cells[(x, y) := v];
  }

  lemma RowXsAfterSet<T>(cells: map<(int, int), T>, x: int, y: int, v: T, y': int)
    ensures RowXs(cells[(x, y) := v], y') ==
      if y' == y then RowXs(cells, y') + {x} else RowXs(cells, y')
  {
    assert (x, y) in cells[(x, y) := v];
  }

  lemma EmptyCoordinates<T>(cells: map<(int, int), T>)
    ensures cells == map[] <==> Ys(cells) == {}
  {
    if Ys(cells) == {} {
      assert forall p :: p in cells ==> p.1 in Ys(cells);
      assert cells.Keys == {};
    }
  }

  /** The x and y ranges of a grid together, as a box. */
  datatype Box = Box(xmin: int, xmax: int, ymin: int, ymax: int)

  predicate InBox(box: Box, p: (int, int))
  {
    box.xmin <= p.0 <= box.xmax && box.ymin <= p.1 <= box.ymax
  }

  /** `box` is the smallest box holding `keys`: it holds each, and each
      bound is reached. */
  ghost predicate Bounding(box: Box, keys: set<(int, int)>)
  {
    && (forall p :: p in keys ==> InBox(box, p))
    && (exists p :: p in keys && p.0 == box.xmin) && (exists p :: p in keys && p.0 == box.xmax)
    && (exists p :: p in keys && p.1 == box.ymin) && (exists p :: p in keys && p.1 == box.ymax)
  }

  /** The box of a set of cells is determined by the cells. */
  lemma BoundingUnique(box: Box, box': Box, keys: set<(int, int)>)
    requires Bounding(box, keys) && Bounding(box', keys)
    ensures box == box'
  {
    var a :| a in keys && a.0 == box.xmin;
    var b :| b in keys && b.0 == box.xmax;
    var c :| c in keys && c.1 == box.ymin;
    var d :| d in keys && d.1 == box.ymax;
    assert InBox(box', a) && InBox(box', b) && InBox(box', c) && InBox(box', d);
    var a' :| a' in keys && a'.0 == box'.xmin;
    var b' :| b' in keys && b'.0 == box'.xmax;
    var c' :| c' in keys && c'.1 == box'.ymin;
    var d' :| d' in keys && d'.1 == box'.ymax;
    assert InBox(box, a') && InBox(box, b') && InBox(box, c') && InBox(box, d');
  }

  /** `getXRange()` and `getYRange()` of a grid given by its cells:
      undefined bounds when it holds nothing, else the extents of its cells. */
  method Extents<T>(cells: map<(int, int), T>) returns (r: Option<Box>)
    ensures r.None? <==> cells.Keys == {}
    ensures r.Some? ==> Bounding(r.value, cells.Keys)
  {
    if cells.Keys == {} {
      return None;
    }
    var first :| first in cells.Keys;
    var box := Box(first.0, first.0, first.1, first.1);
    var todo := cells.Keys - {first};
    while todo != {}
      invariant todo <= cells.Keys && first !in todo
      invariant Bounding(box, cells.Keys - todo)
      decreases todo
    {
      var p :| p in todo;
      assert cells.Keys - (todo - {p}) == (cells.Keys - todo) + {p};
      box := Box(
        if p.0 < box.xmin then p.0 else box.xmin, if p.0 > box.xmax then p.0 else box.xmax,
        if p.1 < box.ymin then p.1 else box.ymin, if p.1 > box.ymax then p.1 else box.ymax);
      todo := todo - {p};
    }
    assert cells.Keys - todo == cells.Keys;
    return Some(box);
  }

  lemma RowOutsideYs<T>(cells: map<(int, int), T>, y: int)
    ensures y !in Ys(cells) ==> RowXs(cells, y) == {}
  {
  }

  class Grid<T> {
    var yValues: map<int, Column<T>>
    const xRange: Range
    var xRanges: map<int, Range>
    const yRange: Range

    /** The stored cells. */
    ghost var Cells: map<(int, int), T>

    /** The column objects with their ranges, and the per-row ranges. */
    ghost var ColumnRepr: set<object>
    ghost var RowRepr: set<object>

    /** The objects the grid is made of. */
    ghost function Repr(): set<object>
      reads this`ColumnRepr, this`RowRepr
    {
      {this, xRange, yRange} + ColumnRepr + RowRepr
    }

    /** Each column and range object is tagged with the extent it caches, so
        no two columns, and no two rows, share an object; the column objects,
        the row ranges and the two global ranges are disjoint families. */
    ghost predicate ColumnRoles()
      reads this`yValues, this`ColumnRepr
    {
      && xRange.role == XExtent && this !in ColumnRepr && xRange !in ColumnRepr
      && forall x | x in yValues ::
           && yValues[x].x == x && yValues[x].range.role == ColumnExtent(x)
           && yValues[x] in ColumnRepr && yValues[x].range in ColumnRepr
    }

    ghost predicate RowRoles()
      reads this`xRanges, this`RowRepr
    {
      && yRange.role == YExtent && this !in RowRepr && yRange !in RowRepr
      && forall y | y in xRanges :: xRanges[y].role == RowExtent(y) && xRanges[y] in RowRepr
    }

    ghost predicate Disjoint()
      reads this`ColumnRepr, this`RowRepr
    {
      && ColumnRepr !! RowRepr
      && xRange !in RowRepr && yRange !in ColumnRepr
    }

    /** The columns hold exactly `cells`, and the x range spans their x values. */
    ghost predicate ColumnsHold(cells: map<(int, int), T>)
      reads this`yValues, this`ColumnRepr, xRange, ColumnRepr
      requires ColumnRoles()
    {
      ColumnsMatch(cells) && xRange.Spans(Xs(cells))
    }

    /** Column x holds exactly the cells of `cells` in column x. */
    ghost predicate ColumnsMatch(cells: map<(int, int), T>)
      reads this`yValues, this`ColumnRepr, ColumnRepr
      requires ColumnRoles()
    {
      && yValues.Keys == Xs(cells)
      && (forall x | x in yValues :: yValues[x].Valid() && yValues[x].values.Keys == ColumnYs(cells, x))
      && (forall x, y | x in yValues && y in yValues[x].values ::
            (x, y) in cells && cells[(x, y)] == yValues[x].values[y])
    }

    /** The y range and the per-row x ranges span the coordinates of `cells`. */
    ghost predicate RowsHold(cells: map<(int, int), T>)
      reads this`xRanges, this`RowRepr, yRange, RowRepr
      requires RowRoles()
    {
      && yRange.Spans(Ys(cells))
      && xRanges.Keys == Ys(cells)
      && (forall y | y in xRanges :: xRanges[y].Spans(RowXs(cells, y)))
    }

    ghost predicate Valid()
      reads this, Repr()
    {
      && ColumnRoles() && RowRoles() && Disjoint()
      && ColumnsHold(Cells) && RowsHold(Cells)
    }

    constructor ()
      ensures Valid() && fresh(Repr()) && Cells == map[]
    {
      yValues := map[];
      xRange := new Range(XExtent);
      xRanges := map[];
      yRange := new Range(YExtent);
      Cells := map[];
      ColumnRepr := {};
      RowRepr := {};
    }

    /** Stores `value` at (x, y) and widens every extent that covers the cell;
        the global x range moves only when a new column is created. */
    method Set(x: int, y: int, value: T)
      requires Valid()
      modifies Repr()
      ensures Valid()
      ensures Cells == old(Cells)[(x, y) := value]
      ensures x in old(yValues) ==> xRange.min == old(xRange.min) && xRange.max == old(xRange.max)
    {
      SetInRow(x, y, value, Cells);
      SetInColumnAndRecord(x, y, value);
    }

    /** The rows already hold the new cell: store it in its column and record
        it in the cell model. */
    method SetInColumnAndRecord(x: int, y: int, value: T)
      requires ColumnRoles() && RowRoles() && Disjoint()
      requires ColumnsHold(Cells) && RowsHold(Cells[(x, y) := value])
      modifies this`yValues, this`ColumnRepr, this`Cells, xRange, ColumnRepr
      ensures Valid()
      ensures Cells == old(Cells)[(x, y) := value]
      ensures x in old(yValues) ==> xRange.min == old(xRange.min) && xRange.max == old(xRange.max)
    {
      Cells := Cells[(x, y) := value];
      SetInColumn(x, y, value, old(Cells));
    }

    /** The column half of `set`: the column is created (widening the x range)
        when missing, then stores the value and widens its own y range. */
    method SetInColumn(x: int, y: int, value: T, ghost cells: map<(int, int), T>)
      requires ColumnRoles() && ColumnsHold(cells) && Disjoint()
      modifies this`yValues, this`ColumnRepr, xRange, ColumnRepr
      ensures ColumnRoles() && ColumnsHold(cells[(x, y) := value]) && Disjoint()
      ensures fresh(ColumnRepr - old(ColumnRepr))
      ensures x in old(yValues) ==> xRange.min == old(xRange.min) && xRange.max == old(xRange.max)
    {
      if x in yValues {
        SetInExistingColumn(x, y, value, cells);
      } else {
        AddColumn(x, y, value, cells);
      }
    }

    /** Stores the value in the existing column x and widens its y range. */
    method SetInExistingColumn(x: int, y: int, value: T, ghost cells: map<(int, int), T>)
      requires ColumnRoles() && ColumnsHold(cells) && x in yValues
      modifies yValues[x], yValues[x].range
      ensures ColumnRoles() && ColumnsHold(cells[(x, y) := value])
    {
      ghost var after := cells[(x, y) := value];
      XsAfterSet(cells, x, y, value);
      var column := yValues[x];
      column.Set(y, value);
      forall x' | x' in yValues
        ensures yValues[x'].Valid() && yValues[x'].values.Keys == ColumnYs(after, x')
      {
        ColumnYsAfterSet(cells, x, y, value, x');
      }
    }

    /** Creates column x holding the one value and widens the x range. */
    method AddColumn(x: int, y: int, value: T, ghost cells: map<(int, int), T>)
      requires ColumnRoles() && ColumnsHold(cells) && x !in yValues
      modifies this`yValues, this`ColumnRepr, xRange
      ensures ColumnRoles() && ColumnsHold(cells[(x, y) := value])
      ensures fresh(ColumnRepr - old(ColumnRepr))
    {
      var column := new Column<T>(x);
      column.Set(y, value);
      InstallColumn(column, x, y, value, cells);
      XsAfterSet(cells, x, y, value);
      xRange.Update(x, Xs(cells));
    }

    /** Adds a new column holding only (x, y) to the columns. */
    method InstallColumn(column: Column<T>, x: int, y: int, value: T, ghost cells: map<(int, int), T>)
      requires ColumnRoles() && ColumnsMatch(cells) && x !in yValues
      requires column.x == x && column.Valid() && column.values == map[y := value]
      requires column !in ColumnRepr && column.range !in ColumnRepr
      modifies this`yValues, this`ColumnRepr
      ensures ColumnRoles() && ColumnsMatch(cells[(x, y) := value])
      ensures ColumnRepr == old(ColumnRepr) + {column, column.range}
    {
      ghost var after := cells[(x, y) := value];
      XsAfterSet(cells, x, y, value);
      yValues := yValues[x := column];
      ColumnRepr := ColumnRepr + {column, column.range};
      forall x' | x' in yValues
        ensures yValues[x'].Valid() && yValues[x'].values.Keys == ColumnYs(after, x')
      {
        ColumnYsAfterSet(cells, x, y, value, x');
      }
    }

    /** The row half of `set`: the y range and the row's x range (created when
        missing) are widened. */
    method SetInRow(x: int, y: int, ghost value: T, ghost cells: map<(int, int), T>)
      requires RowRoles() && RowsHold(cells) && Disjoint()
      modifies this`xRanges, this`RowRepr, yRange, RowRepr
      ensures RowRoles() && RowsHold(cells[(x, y) := value]) && Disjoint()
      ensures fresh(RowRepr - old(RowRepr))
    {
      ghost var after := cells[(x, y) := value];
      XsAfterSet(cells, x, y, value);
      yRange.Update(y, Ys(cells));
      assert yRange.Spans(Ys(after));
      if y in xRanges {
        assert xRanges[y] != yRange;
        WidenExistingRow(x, y, value, cells);
      } else {
        AddRow(x, y, value, cells);
      }
      assert yRange.Spans(Ys(after)) && xRanges.Keys == Ys(after);
    }

    /** Widens the existing x range of row y. */
    method WidenExistingRow(x: int, y: int, ghost value: T, ghost cells: map<(int, int), T>)
      requires RowRoles() && y in xRanges && xRanges.Keys == Ys(cells) + {y}
      requires forall y' | y' in xRanges :: xRanges[y'].Spans(RowXs(cells, y'))
      modifies xRanges[y]
      ensures forall y' | y' in xRanges :: xRanges[y'].Spans(RowXs(cells[(x, y) := value], y'))
    {
      xRanges[y].Update(x, RowXs(cells, y));
      forall y' | y' in xRanges
        ensures xRanges[y'].Spans(RowXs(cells[(x, y) := value], y'))
      {
        RowXsAfterSet(cells, x, y, value, y');
      }
    }

    /** Creates the x range of row y, spanning the one x. */
    method AddRow(x: int, y: int, ghost value: T, ghost cells: map<(int, int), T>)
      requires RowRoles() && y !in xRanges && xRanges.Keys == Ys(cells)
      requires forall y' | y' in xRanges :: xRanges[y'].Spans(RowXs(cells, y'))
      modifies this`xRanges, this`RowRepr
      ensures RowRoles() && xRanges.Keys == Ys(cells) + {y}
      ensures forall y' | y' in xRanges :: xRanges[y'].Spans(RowXs(cells[(x, y) := value], y'))
      ensures fresh(RowRepr - old(RowRepr))
    {
      RowOutsideYs(cells, y);
      var rowRange := new Range(RowExtent(y));
      rowRange.Update(x, RowXs(cells, y));
      xRanges := xRanges[y := rowRange];
      RowRepr := RowRepr + {rowRange};
      forall y' | y' in xRanges
        ensures xRanges[y'].Spans(RowXs(cells[(x, y) := value], y'))
      {
        RowXsAfterSet(cells, x, y, value, y');
      }
    }

    /** The value stored at (x, y), or `default` when the cell was never set;
        a stored value is returned whatever it is. */
    function Get(x: int, y: int, default: Option<T>): (r: Option<T>)
      reads this, Repr()
      requires Valid()
      ensures (x, y) in Cells ==> r == Some(Cells[(x, y)])
      ensures (x, y) !in Cells ==> r == default
    {
      if x in yValues then
        match yValues[x].Get(y)
        case Some(v) => Some(v)
        case None => default
      else default
    }

    predicate Has(x: int, y: int)
      reads this, Repr()
      requires Valid()
      ensures Has(x, y) <==> (x, y) in Cells
    {
      assert x in yValues && y in yValues[x].values ==> (x, y) in Cells;
      x in yValues && yValues[x].Has(y)
    }

    /** `getYRange(x)` for a given column, or the global y range. */
    method GetYRange(x: Option<int>) returns (r: Range)
      requires Valid()
      ensures x.Some? ==> r.Spans(ColumnYs(Cells, x.value))
      ensures x.None? ==> r.Spans(Ys(Cells))
    {
      if x.Some? {
        if x.value in yValues {
          r := yValues[x.value].range;
        } else {
          r := new Range(Detached);
          assert ColumnYs(Cells, x.value) == {} by {
            forall p | p in Cells ensures p.0 != x.value {
              assert p.0 in Xs(Cells);
            }
          }
        }
      } else {
        r := yRange;
      }
    }

    /** `getXRange(y)` for a given row, or the global x range. */
    method GetXRange(y: Option<int>) returns (r: Range)
      requires Valid()
      ensures y.Some? ==> r.Spans(RowXs(Cells, y.value))
      ensures y.None? ==> r.Spans(Xs(Cells))
    {
      if y.Some? {
        if y.value in xRanges {
          r := xRanges[y.value];
        } else {
          r := new Range(Detached);
          RowOutsideYs(Cells, y.value);
        }
      } else {
        r := xRange;
      }
    }

    /** The cells of row y at the given x positions, each shown with `show`;
        an absent cell shows as nothing. */
    function RowCells(xs: seq<int>, y: int, show: T -> string): string
      reads this, Repr()
      requires Valid()
    {
      if xs == [] then ""
      else
        (match Get(xs[0], y, None) case Some(v) => show(v) case None => "")
        + RowCells(xs[1..], y, show)
    }

    /** One rendered row: the row's own x range, or nothing if the row is empty. */
    function RowString(y: int, show: T -> string): string
      reads this, Repr()
      requires Valid()
    {
      if y in xRanges then
        match xRanges[y].AsArray()
        case None => ""
        case Some(xs) => RowCells(xs, y, show)
      else ""
    }

    function Lines(ys: seq<int>, show: T -> string): (r: seq<string>)
      reads this, Repr()
      requires Valid()
      ensures |r| == |ys|
      ensures forall i :: 0 <= i < |ys| ==> r[i] == RowString(ys[i], show)
    {
      if ys == [] then [] else [RowString(ys[0], show)] + Lines(ys[1..], show)
    }

    /** `toString`, with the cell rendering supplied by the caller. */
    function ToString(show: T -> string): (r: string)
      reads this, Repr()
      requires Valid()
    {
      match yRange.AsArray()
      case None => "<empty>"
      case Some(ys) => Join(Lines(ys, show), "\n")
    }

    /** The rendering is "<empty>" for an empty grid, and otherwise joins one
        line per y from the least to the greatest y of the cells. */
    lemma ToStringRows(show: T -> string)
      requires Valid()
      ensures Cells == map[] ==> ToString(show) == "<empty>"
      ensures Cells != map[] ==>
        && yRange.min.Some? && yRange.max.Some?
        && IsSetMin(yRange.min.value, Ys(Cells)) && IsSetMax(yRange.max.value, Ys(Cells))
        && ToString(show) == Join(Lines(Interval(yRange.min.value, yRange.max.value + 1), show), "\n")
    {
      assert yRange.Spans(Ys(Cells)) by { assert RowsHold(Cells); }
      EmptyCoordinates(Cells);
      yRange.SpansExtent(Ys(Cells));
      if Cells != map[] {
        var lo, hi := yRange.min.value, yRange.max.value;
        LodashRangeAscending(lo, hi + 1);
        assert yRange.AsArray() == Some(Interval(lo, hi + 1));
      } else {
        assert yRange.AsArray() == None;
      }
    }

    /** A row is rendered over its own x extent, from the least to the
        greatest x of its cells, and a row with no cell renders as the empty
        line. */
    lemma RowStringExtent(y: int, show: T -> string)
      requires Valid()
      ensures RowXs(Cells, y) == {} ==> RowString(y, show) == ""
      ensures RowXs(Cells, y) != {} ==>
        && y in xRanges && xRanges[y].min.Some? && xRanges[y].max.Some?
        && IsSetMin(xRanges[y].min.value, RowXs(Cells, y))
        && IsSetMax(xRanges[y].max.value, RowXs(Cells, y))
        && RowString(y, show) == RowCells(Interval(xRanges[y].min.value, xRanges[y].max.value + 1), y, show)
    {
      assert xRanges.Keys == Ys(Cells) by { assert RowsHold(Cells); }
      RowOutsideYs(Cells, y);
      if y in xRanges {
        var r := xRanges[y];
        assert r.Spans(RowXs(Cells, y)) by { assert RowsHold(Cells); }
        r.SpansExtent(RowXs(Cells, y));
        if r.min.Some? {
          var lo, hi := r.min.value, r.max.value;
          LodashRangeAscending(lo, hi + 1);
          assert r.AsArray() == Some(Interval(lo, hi + 1));
        }
      }
    }
  }

  /** A cell set with `set` is then present and holds the value; every other
      cell reads as before. */
  method SetThenGet<T>(g: Grid<T>, x: int, y: int, v: T, x': int, y': int, d: Option<T>)
    returns (here: Option<T>, elsewhere: Option<T>)
    requires g.Valid()
    requires (x', y') != (x, y)
    modifies g.Repr()
    ensures g.Valid()
    ensures g.Has(x, y) && here == Some(v)
    ensures elsewhere == old(g.Get(x', y', d))
    ensures g.Has(x', y') == old(g.Has(x', y'))
  {
    g.Set(x, y, v);
    here := g.Get(x, y, d);
    elsewhere := g.Get(x', y', d);
  }

  /** The three-dimensional sparse grid: x -> y -> z -> value. */
  class Grid3D<T> {
    var data: map<int, map<int, map<int, T>>>

    constructor ()
      ensures data == map[]
    {
      data := map[];
    }

    ghost predicate Contains(x: int, y: int, z: int)
      reads this
    {
      x in data && y in data[x] && z in data[x][y]
    }

    method Set(x: int, y: int, z: int, value: T)
      modifies this
      ensures Contains(x, y, z) && data[x][y][z] == value
      ensures forall a, b, c :: (a, b, c) != (x, y, z) ==>
        (Contains(a, b, c) <==> old(Contains(a, b, c))) &&
        (Contains(a, b, c) ==> data[a][b][c] == old(data[a][b][c]))
    {
      var xValues := if x in data then data[x] else map[];
      var yValues := if y in xValues then xValues[y] else map[];
      yValues := yValues[z := value];
      xValues := xValues[y := yValues];
      data := data[x := xValues];
    }

    function Get(x: int, y: int, z: int, default: Option<T>): (r: Option<T>)
      reads this
      ensures Contains(x, y, z) ==> r == Some(data[x][y][z])
      ensures !Contains(x, y, z) ==> r == default
    {
      if x in data && y in data[x] && z in data[x][y] then Some(data[x][y][z]) else default
    }
  }
}
