/** The sparse grid of the 2022 puzzles: a map from column `x` to a map
    from row `y` to a value. JavaScript `Map`s iterate in insertion order,
    so the grid also keeps the order in which columns and, per column, rows
    were first written; the extrema are loops over that order, and
    `Math.min`/`Math.max` of no numbers are the infinities. */
module Grid2022 {
  import opened Common

  /** A JavaScript number as the extrema return it: finite, or one of the
      infinities `Math.min()` and `Math.max()` give for no arguments. */
  datatype Extended = NegInf | Fin(n: int) | PosInf

  /** `Math.min(m, v)` where `m` is the running minimum. */
  function MinWith(m: Extended, v: int): (r: Extended)
    ensures r.Fin?
    ensures r.n <= v && (m.Fin? ==> r.n <= m.n)
    ensures r.n == v || (m.Fin? && r.n == m.n)
  {
    if m.Fin? && m.n <= v then m else Fin(v)
  }

  /** `Math.max(m, v)` where `m` is the running maximum. */
  function MaxWith(m: Extended, v: int): (r: Extended)
    ensures r.Fin?
    ensures r.n >= v && (m.Fin? ==> r.n >= m.n)
    ensures r.n == v || (m.Fin? && r.n == m.n)
  {
    if m.Fin? && m.n >= v then m else Fin(v)
  }

  class Grid<T> {
    var data: map<int, map<int, T>>
    /** The columns in the order they were created. */
    var columns: seq<int>
    /** Per column, its rows in the order they were first written. */
    var rows: map<int, seq<int>>

    ghost predicate Valid()
      reads this
    {
      Consistent(data, columns, rows)
    }

    /** `columns` lists the columns of `data` once each, in creation order,
        and `rows[x]` lists the rows of column `x` once each. */
    static ghost predicate Consistent(data: map<int, map<int, T>>, columns: seq<int>, rows: map<int, seq<int>>)
    {
      && Distinct(columns)
      && (forall i :: 0 <= i < |columns| ==> columns[i] in data)
      && (forall x | x in data :: x in columns)
      && rows.Keys == data.Keys
      && (forall x | x in rows :: Distinct(rows[x]))
      && (forall x, y | x in data && y in data[x] :: y in rows[x])
      && (forall x, y | x in rows && y in rows[x] :: y in data[x])
    }

    static lemma SetKeepsConsistent(data: map<int, map<int, T>>, columns: seq<int>, rows: map<int, seq<int>>,
                                    x: int, y: int, value: T)
      requires Consistent(data, columns, rows)
      ensures var column := if x in data then data[x] else map[];
              var order := if x in data then rows[x] else [];
              Consistent(data[x := column[y := value]],
                         if x in data then columns else columns + [x],
                         rows[x := if y in column then order else order + [y]])
    {
    }

    static predicate Distinct(s: seq<int>)
    {
      forall i, j :: 0 <= i < j < |s| ==> s[i] != s[j]
    }

    /** Every `y` written in some column. */
    ghost function Ys(): set<int>
      reads this
    {
      set x, y | x in data && y in data[x] :: y
    }

    lemma YIn(x: int, y: int)
      requires x in data && y in data[x]
      ensures y in Ys()
    {
    }

    constructor ()
      ensures Valid() && data == map[]
    {
      data := map[];
      columns := [];
      rows := map[];
    }

    /** The column at `x`, empty when it was never written. */
    function ColumnAt(x: int): map<int, T>
      reads this
    {
      if x in data then data[x] else map[]
    }

    method Set(x: int, y: int, value: T)
      requires Valid()
      modifies this
      ensures Valid()
      ensures data == old(data)[x := old(ColumnAt(x))[y := value]]
    {
      SetKeepsConsistent(data, columns, rows, x, y, value);
      var column := ColumnAt(x);
      var order := if x in data then rows[x] else [];
      if x !in data {
        columns := columns + [x];
      }
      if y !in column {
        order := order + [y];
      }
      data := data[x := column[y := value]];
      rows := rows[x := order];
    }

    /** `get`: the default is optional, and `None` stands for leaving it
        out (`undefined`). */
    method Get(x: int, y: int, default: Option<T>) returns (r: Option<T>)
      ensures x in data && y in data[x] ==> r == Some(data[x][y])
      ensures !(x in data && y in data[x]) ==> r == default
    {
      r := default;
      if x in data {
        var column := data[x];
        if y in column {
          r := Some(column[y]);
        }
      }
    }

    method XMin() returns (r: Extended)
      requires Valid()
      ensures r.NegInf? == false
      ensures r.PosInf? <==> data == map[]
      ensures r.Fin? ==> IsSetMin(r.n, data.Keys)
    {
      r := PosInf;
      var i := 0;
      while i < |columns|
        invariant 0 <= i <= |columns|
        invariant r.PosInf? <==> i == 0
        invariant r.NegInf? == false
        invariant r.Fin? ==> r.n in columns[..i] && forall j :: 0 <= j < i ==> r.n <= columns[j]
      {
        r := MinWith(r, columns[i]);
        i := i + 1;
      }
      assert columns[..i] == columns;
      if columns == [] {
        assert forall x :: x !in data;
      } else {
        assert columns[0] in data;
      }
    }

    method XMax() returns (r: Extended)
      requires Valid()
      ensures r.PosInf? == false
      ensures r.NegInf? <==> data == map[]
      ensures r.Fin? ==> IsSetMax(r.n, data.Keys)
    {
      r := NegInf;
      var i := 0;
      while i < |columns|
        invariant 0 <= i <= |columns|
        invariant r.NegInf? <==> i == 0
        invariant r.PosInf? == false
        invariant r.Fin? ==> r.n in columns[..i] && forall j :: 0 <= j < i ==> columns[j] <= r.n
      {
        r := MaxWith(r, columns[i]);
        i := i + 1;
      }
      assert columns[..i] == columns;
      if columns == [] {
        assert forall x :: x !in data;
      } else {
        assert columns[0] in data;
      }
    }

    method YMin() returns (r: Extended)
      requires Valid()
      ensures r.NegInf? == false
      ensures r.PosInf? <==> Ys() == {}
      ensures r.Fin? ==> IsSetMin(r.n, Ys())
    {
      r := PosInf;
      var i := 0;
      while i < |columns|
        invariant 0 <= i <= |columns|
        invariant r.NegInf? == false
        invariant r.PosInf? ==> forall j :: 0 <= j < i ==> data[columns[j]] == map[]
        invariant r.Fin? ==> r.n in Ys()
        invariant r.Fin? ==> forall j, y :: 0 <= j < i && y in data[columns[j]] ==> r.n <= y
      {
        var x := columns[i];
        var ys := rows[x];
        var k := 0;
        while k < |ys|
          invariant 0 <= k <= |ys|
          invariant r.NegInf? == false
          invariant r.PosInf? ==> k == 0 && forall j :: 0 <= j < i ==> data[columns[j]] == map[]
          invariant r.Fin? ==> r.n in Ys()
          invariant r.Fin? ==> forall j, y :: 0 <= j < i && y in data[columns[j]] ==> r.n <= y
          invariant r.Fin? ==> forall l :: 0 <= l < k ==> r.n <= ys[l]
        {
          assert ys[k] in Ys() by {
            assert Consistent(data, columns, rows);
            assert ys[k] in rows[x];
            YIn(x, ys[k]);
          }
          r := MinWith(r, ys[k]);
          k := k + 1;
        }
        if ys == [] {
          assert forall y :: y !in data[x];
        }
        i := i + 1;
      }
      if r.PosInf? {
        assert forall x :: x in data ==> data[x] == map[] by {
          forall x | x in data ensures data[x] == map[] {
            var j :| 0 <= j < |columns| && columns[j] == x;
          }
        }
        assert forall y :: y !in Ys();
      } else {
        forall y | y in Ys() ensures r.n <= y {
          var x :| x in data && y in data[x];
          var j :| 0 <= j < |columns| && columns[j] == x;
        }
      }
    }

    method YMax() returns (r: Extended)
      requires Valid()
      ensures r.PosInf? == false
      ensures r.NegInf? <==> Ys() == {}
      ensures r.Fin? ==> IsSetMax(r.n, Ys())
    {
      r := NegInf;
      var i := 0;
      while i < |columns|
        invariant 0 <= i <= |columns|
        invariant r.PosInf? == false
        invariant r.NegInf? ==> forall j :: 0 <= j < i ==> data[columns[j]] == map[]
        invariant r.Fin? ==> r.n in Ys()
        invariant r.Fin? ==> forall j, y :: 0 <= j < i && y in data[columns[j]] ==> y <= r.n
      {
        var x := columns[i];
        var ys := rows[x];
        var k := 0;
        while k < |ys|
          invariant 0 <= k <= |ys|
          invariant r.PosInf? == false
          invariant r.NegInf? ==> k == 0 && forall j :: 0 <= j < i ==> data[columns[j]] == map[]
          invariant r.Fin? ==> r.n in Ys()
          invariant r.Fin? ==> forall j, y :: 0 <= j < i && y in data[columns[j]] ==> y <= r.n
          invariant r.Fin? ==> forall l :: 0 <= l < k ==> ys[l] <= r.n
        {
          assert ys[k] in Ys() by {
            assert Consistent(data, columns, rows);
            assert ys[k] in rows[x];
            YIn(x, ys[k]);
          }
          r := MaxWith(r, ys[k]);
          k := k + 1;
        }
        if ys == [] {
          assert forall y :: y !in data[x];
        }
        i := i + 1;
      }
      if r.NegInf? {
        assert forall x :: x in data ==> data[x] == map[] by {
          forall x | x in data ensures data[x] == map[] {
            var j :| 0 <= j < |columns| && columns[j] == x;
          }
        }
        assert forall y :: y !in Ys();
      } else {
        forall y | y in Ys() ensures y <= r.n {
          var x :| x in data && y in data[x];
          var j :| 0 <= j < |columns| && columns[j] == x;
        }
      }
    }
  }

  /** A value written is read back, and every other cell reads as before. */
  method SetThenGet<T>(g: Grid<T>, x: int, y: int, value: T, x': int, y': int, default: Option<T>)
    returns (r: Option<T>, other: Option<T>, otherBefore: Option<T>)
    requires g.Valid()
    modifies g
    ensures r == Some(value)
    ensures (x', y') != (x, y) ==> other == otherBefore
  {
    otherBefore := g.Get(x', y', default);
    g.Set(x, y, value);
    r := g.Get(x, y, default);
    other := g.Get(x', y', default);
  }

  /** After a write, the written column and row lie within the extrema. */
  method SetThenExtrema<T>(g: Grid<T>, x: int, y: int, value: T) returns (xMin: Extended, yMax: Extended)
    requires g.Valid()
    modifies g
    ensures xMin.Fin? && xMin.n <= x
    ensures yMax.Fin? && y <= yMax.n
  {
    g.Set(x, y, value);
    xMin := g.XMin();
    yMax := g.YMax();
    g.YIn(x, y);
  }
}
