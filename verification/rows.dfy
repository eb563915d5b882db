/**
 * Row flattening (emit_sensors in src/main.rs): a snapshot becomes the list of
 * `[index, sensor name, temperature text]` values emitted, one signal per
 * sensor, to the active window. Indices count sensors from 1 across monitors.
 */
module Rows {
  import opened Wrappers
  import opened Hwmons
  import Decimal

  /** The values one `sensors-updated` signal carries. */
  type Values = seq<string>

  /** The sensors of all monitors, in monitor order and then sensor order. */
  function AllSensors(monitors: seq<Monitor>): seq<Sensor>
    decreases |monitors|
  {
    if monitors == [] then []
    else AllSensors(monitors[..|monitors| - 1]) + monitors[|monitors| - 1].sensors
  }

  /** The number of sensors over all monitors. */
  function TotalSensors(monitors: seq<Monitor>): nat
    decreases |monitors|
  {
    if monitors == [] then 0
    else TotalSensors(monitors[..|monitors| - 1]) + |monitors[|monitors| - 1].sensors|
  }

  /** The values emitted for the sensor numbered `index`. */
  function RowValues(index: nat, sensor: Sensor, format: Celsius -> string): (v: Values)
    ensures |v| == 3 && v[1] == sensor.name && v[2] == format(sensor.temperature)
    ensures Decimal.ParseI32(v[0]) == if index <= Decimal.I32_MAX then Some(index) else None
  {
    Decimal.DigitsValueOfDecimal(index);
    [Decimal.DecimalString(index), sensor.name, format(sensor.temperature)]
  }

  /**
   * emit_sensors. `hasWindow` says whether the application has an active
   * window; `format` is how a temperature is written as text.
   */
  method EmitSensors(hasWindow: bool, monitors: seq<Monitor>, format: Celsius -> string)
    returns (emitted: seq<Values>)
    ensures !hasWindow ==> emitted == []
    ensures hasWindow ==> |emitted| == |AllSensors(monitors)|
    ensures hasWindow ==> forall k :: 0 <= k < |emitted| ==>
              emitted[k] == RowValues(k + 1, AllSensors(monitors)[k], format)
  {
    emitted := [];
    if !hasWindow {
      return;
    }
    var index: nat := 0;
    var i := 0;
    while i < |monitors|
      invariant 0 <= i <= |monitors|
      invariant index == |AllSensors(monitors[..i])| == |emitted|
      invariant forall k :: 0 <= k < |emitted| ==>
                  emitted[k] == RowValues(k + 1, AllSensors(monitors[..i])[k], format)
    {
      var monitor := monitors[i];
      assert monitors[..i + 1][..i] == monitors[..i];
      if |monitor.sensors| == 0 {
        assert AllSensors(monitors[..i + 1]) == AllSensors(monitors[..i]);
        i := i + 1;
        continue;
      }
      ghost var before := AllSensors(monitors[..i]);
      var j := 0;
      while j < |monitor.sensors|
        invariant 0 <= j <= |monitor.sensors|
        invariant index == |before| + j == |emitted|
        invariant forall k :: 0 <= k < |emitted| ==>
                    emitted[k] == RowValues(k + 1, (before + monitor.sensors[..j])[k], format)
      {
        var sensor := monitor.sensors[j];
        index := index + 1;
        var values := [Decimal.DecimalString(index), sensor.name, format(sensor.temperature)];
        assert (before + monitor.sensors[..j + 1])[index - 1] == sensor;
        emitted := emitted + [values];
        j := j + 1;
      }
      assert monitor.sensors[..j] == monitor.sensors;
      i := i + 1;
    }
    assert monitors[..i] == monitors;
  }

  // ---------------------------------------------------------------------------
  // Properties of the flattening

  /** The number of rows emitted equals the number of sensors over all monitors. */
  lemma {:induction false} RowCount(monitors: seq<Monitor>)
    ensures |AllSensors(monitors)| == TotalSensors(monitors)
    decreases |monitors|
  {
    if monitors != [] {
      RowCount(monitors[..|monitors| - 1]);
    }
  }

  /** Flattening a concatenation: rows follow monitor order. */
  lemma {:induction false} AllSensorsAppend(a: seq<Monitor>, b: seq<Monitor>)
    ensures AllSensors(a + b) == AllSensors(a) + AllSensors(b)
    decreases |b|
  {
    if b == [] {
      assert a + b == a;
    } else {
      assert (a + b)[..|a + b| - 1] == a + b[..|b| - 1];
      AllSensorsAppend(a, b[..|b| - 1]);
    }
  }

  /** A monitor without sensors emits nothing and does not advance the index. */
  lemma EmptyMonitorEmitsNothing(a: seq<Monitor>, name: string, b: seq<Monitor>)
    ensures AllSensors(a + [Monitor(name, [])] + b) == AllSensors(a + b)
  {
    AllSensorsAppend(a + [Monitor(name, [])], b);
    AllSensorsAppend(a, [Monitor(name, [])]);
    AllSensorsAppend(a, b);
    assert [Monitor(name, [])][..0] == [];
  }

  /**
   * Sensor number k + 1 of the flat list is sensor j of monitor i, where k counts
   * the sensors of the monitors before i: monitor order first, then sensor order.
   */
  lemma RowOfSensor(monitors: seq<Monitor>, i: nat, j: nat)
    requires i < |monitors| && j < |monitors[i].sensors|
    ensures |AllSensors(monitors[..i])| + j < |AllSensors(monitors)|
    ensures AllSensors(monitors)[|AllSensors(monitors[..i])| + j] == monitors[i].sensors[j]
  {
    assert monitors == monitors[..i] + ([monitors[i]] + monitors[i + 1..]);
    AllSensorsAppend(monitors[..i], [monitors[i]] + monitors[i + 1..]);
    AllSensorsAppend([monitors[i]], monitors[i + 1..]);
    assert [monitors[i]][..0] == [];
  }

  /** Row indices are 1 .. total with no gaps or repeats. */
  lemma RowIndicesDistinct(monitors: seq<Monitor>, format: Celsius -> string, k: nat, l: nat)
    requires k < l < |AllSensors(monitors)|
    ensures RowValues(k + 1, AllSensors(monitors)[k], format)[0]
            != RowValues(l + 1, AllSensors(monitors)[l], format)[0]
  {
    if Decimal.DecimalString(k + 1) == Decimal.DecimalString(l + 1) {
      Decimal.DecimalStringInjective(k + 1, l + 1);
    }
  }
}
