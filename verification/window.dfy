/**
 * The `sensors-updated` handler of the main window (src/window.rs): each signal
 * carries `[index, name, temperature]` and updates the grid row `index`,
 * column 1 with the name and column 2 with the temperature and a degree sign.
 * The grid is abstracted to the text of the label at each (column, row) and the
 * order in which labels were attached.
 */
module Window {
  import opened Wrappers
  import opened Decimal
  import opened Hwmons
  import opened Rows

  /** A grid position: (column, row). */
  type Position = (int, int)

  type Cells = map<Position, string>

  /** Why the handler panics. */
  datatype Panic =
    | IndexOutOfBounds   // fewer values than the handler indexes
    | ParseFailed        // `values[0]` is not an i32

  const DegreeSuffix: string := "°C"

  /** The grid after one signal, or the panic it raises before touching anything. */
  function Upsert(cells: Cells, values: Values): (r: Result<Cells, Panic>)
    ensures r.Ok? <==> |values| >= 3 && ParseI32(values[0]).Some?
    ensures |values| == 0 ==> r == Err(IndexOutOfBounds)
    ensures 0 < |values| && ParseI32(values[0]).None? ==> r == Err(ParseFailed)
    ensures 0 < |values| < 3 && ParseI32(values[0]).Some? ==> r == Err(IndexOutOfBounds)
    ensures r.Ok? ==>
              var row := ParseI32(values[0]).value;
              && r.value.Keys == cells.Keys + {(1, row), (2, row)}
              && r.value[(1, row)] == values[1]
              && r.value[(2, row)] == values[2] + DegreeSuffix
              && forall p :: p in cells && p != (1, row) && p != (2, row) ==> r.value[p] == cells[p]
  {
    if |values| == 0 then Err(IndexOutOfBounds)
    else match ParseI32(values[0])
      case None => Err(ParseFailed)
      case Some(row) =>
        if |values| < 3 then Err(IndexOutOfBounds)
        else Ok(cells[(1, row) := values[1]][(2, row) := values[2] + DegreeSuffix])
  }

  /** Handling the same values twice leaves the grid as handling them once. */
  lemma UpsertIdempotent(cells: Cells, values: Values)
    requires Upsert(cells, values).Ok?
    ensures Upsert(Upsert(cells, values).value, values) == Upsert(cells, values)
  {
    var once := Upsert(cells, values).value;
    var twice := Upsert(once, values).value;
    var row := ParseI32(values[0]).value;
    assert twice.Keys == once.Keys;
    assert forall p :: p in once ==> twice[p] == once[p];
    assert twice == once;
  }

  /** The labels of the grid. */
  class Grid {
    /** Text of the label at each occupied position. */
    var cells: Cells
    /** Positions of the labels in the order they were attached. */
    var children: seq<Position>

    /** Each occupied position holds exactly one label. */
    ghost predicate Valid()
      reads this
    {
      && (forall i, j :: 0 <= i < j < |children| ==> children[i] != children[j])
      && (forall p :: p in cells <==> p in children)
    }

    constructor ()
      ensures Valid() && cells == map[] && children == []
    {
      cells := map[];
      children := [];
    }

    /** `grid.child_at(col, row)`: whether a label occupies the position. */
    method ChildAt(col: int, row: int) returns (found: bool)
      requires Valid()
      ensures found <==> exists i :: 0 <= i < |children| && children[i] == (col, row)
    {
      found := (col, row) in cells;
    }

    /** `set_text` on the label already at `p`. */
    method SetText(p: Position, text: string)
      requires Valid() && p in cells
      modifies this
      ensures Valid()
      ensures cells == old(cells)[p := text] && children == old(children)
    {
      cells := cells[p := text];
    }

    /** `grid.attach` of a new label at the free position `p`. */
    method Attach(p: Position, text: string)
      requires Valid() && p !in cells
      modifies this
      ensures Valid()
      ensures cells == old(cells)[p := text] && children == old(children) + [p]
    {
      cells := cells[p := text];
      children := children + [p];
    }

    /** Writes `text` at `(col, row)`, reusing the label there or attaching a new one. */
    method Put(col: int, row: int, text: string)
      requires Valid()
      modifies this
      ensures Valid()
      ensures cells == old(cells)[(col, row) := text]
      ensures children == if (col, row) in old(cells) then old(children) else old(children) + [(col, row)]
    {
      var found := ChildAt(col, row);
      if found {
        SetText((col, row), text);
      } else {
        Attach((col, row), text);
      }
    }

    /** The signal handler. A panic happens before the grid is touched. */
    method OnSensorsUpdated(values: Values) returns (r: Option<Panic>)
      requires Valid()
      modifies this
      ensures Valid()
      ensures r.None? <==> Upsert(old(cells), values).Ok?
      ensures r.Some? ==> Upsert(old(cells), values) == Err(r.value)
                          && cells == old(cells) && children == old(children)
      ensures r.None? ==> cells == Upsert(old(cells), values).value
      ensures r.None? ==>
                var row := ParseI32(values[0]).value;
                children == old(children)
                            + (if (1, row) in old(cells) then [] else [(1, row)])
                            + (if (2, row) in old(cells) then [] else [(2, row)])
    {
      if |values| == 0 {
        return Some(IndexOutOfBounds);
      }
      var parsed := ParseI32(values[0]);
      if parsed.None? {
        return Some(ParseFailed);
      }
      var row := parsed.value;
      if |values| < 3 {
        return Some(IndexOutOfBounds);
      }
      var name := values[1];
      var temperature := values[2] + DegreeSuffix;
      Put(1, row, name);
      Put(2, row, temperature);
      r := None;
    }
  }

  // ---------------------------------------------------------------------------
  // A whole snapshot on the grid

  /** The grid after handling each signal in turn; the first panic stops the run. */
  function UpsertAll(cells: Cells, emitted: seq<Values>): Result<Cells, Panic>
    decreases |emitted|
  {
    if emitted == [] then Ok(cells)
    else match UpsertAll(cells, emitted[..|emitted| - 1])
      case Err(e) => Err(e)
      case Ok(c) => Upsert(c, emitted[|emitted| - 1])
  }

  /** The rows emitted for the first `n` sensors of a flat sensor list. */
  function EmittedRows(sensors: seq<Sensor>, n: nat, format: Celsius -> string): (rows: seq<Values>)
    requires n <= |sensors|
    ensures |rows| == n
    ensures forall k :: 0 <= k < n ==> rows[k] == RowValues(k + 1, sensors[k], format)
  {
    seq(n, k requires 0 <= k < n => RowValues(k + 1, sensors[k], format))
  }

  /** Whether `p` is in column 1 or 2 of one of the rows 1 .. n. */
  predicate InRows(p: Position, n: nat) {
    (p.0 == 1 || p.0 == 2) && 1 <= p.1 <= n
  }

  /**
   * `shown` is `cells` with rows 1 .. n holding the first n sensors: names in
   * column 1, temperature text in column 2, every other position as it was.
   */
  ghost predicate Shows(cells: Cells, shown: Cells, sensors: seq<Sensor>, n: nat, format: Celsius -> string)
    requires n <= |sensors|
  {
    && (forall p :: p in shown <==> p in cells || InRows(p, n))
    && (forall k :: 1 <= k <= n ==>
          && (1, k) in shown && shown[(1, k)] == sensors[k - 1].name
          && (2, k) in shown && shown[(2, k)] == format(sensors[k - 1].temperature) + DegreeSuffix)
    && (forall p :: p in cells && !InRows(p, n) ==> p in shown && shown[p] == cells[p])
  }

  /** Handling the row of sensor n extends what rows 1 .. n - 1 show by row n. */
  lemma ShowsStep(cells: Cells, before: Cells, sensors: seq<Sensor>, n: nat, format: Celsius -> string)
    requires 0 < n <= |sensors| && n <= I32_MAX
    requires Shows(cells, before, sensors, n - 1, format)
    ensures Upsert(before, RowValues(n, sensors[n - 1], format)).Ok?
    ensures Shows(cells, Upsert(before, RowValues(n, sensors[n - 1], format)).value, sensors, n, format)
  {
    // Follows from the contracts of RowValues and Upsert alone.
  }

  /**
   * What the window shows after a snapshot: row k (1 <= k <= n) holds the
   * k-th sensor's name and temperature text; every other position, including
   * rows left over from an earlier, larger snapshot, keeps its old text.
   */
  lemma {:induction false} DisplayAfterEmit(cells: Cells, sensors: seq<Sensor>, n: nat, format: Celsius -> string)
    requires n <= |sensors| && n <= I32_MAX
    ensures UpsertAll(cells, EmittedRows(sensors, n, format)).Ok?
    ensures Shows(cells, UpsertAll(cells, EmittedRows(sensors, n, format)).value, sensors, n, format)
    decreases n
  {
    var rows := EmittedRows(sensors, n, format);
    if n > 0 {
      var prev := EmittedRows(sensors, n - 1, format);
      assert rows[..n - 1] == prev;
      DisplayAfterEmit(cells, sensors, n - 1, format);
      ShowsStep(cells, UpsertAll(cells, prev).value, sensors, n, format);
    }
  }

  /** The whole pipeline from one snapshot: emit its rows, then handle each. */
  lemma SnapshotDisplayed(cells: Cells, monitors: seq<Monitor>, format: Celsius -> string)
    requires TotalSensors(monitors) <= I32_MAX
    ensures var sensors := AllSensors(monitors);
            var shown := UpsertAll(cells, EmittedRows(sensors, |sensors|, format));
            && |sensors| == TotalSensors(monitors)
            && shown.Ok?
            && Shows(cells, shown.value, sensors, |sensors|, format)
  {
    RowCount(monitors);
    DisplayAfterEmit(cells, AllSensors(monitors), |AllSensors(monitors)|, format);
  }
}
