/**
 * The sensor reader and the poller (src/sensors/hwmons.rs).
 *
 * The hardware-monitor library is replaced by its output, taken as input data:
 * either an enumeration error, or the chips in enumeration order, each with its
 * temperature inputs in the chip's own order and the outcome of reading each.
 */
module Hwmons {
  import opened Wrappers

  /** Degrees Celsius; treated as an opaque value (no arithmetic is done on it). */
  type Celsius = real

  datatype Sensor = Sensor(name: string, temperature: Celsius)

  datatype Monitor = Monitor(name: string, sensors: seq<Sensor>)

  /** The library's error when the chips cannot be enumerated at all. */
  datatype ParsingError = ParsingError(reason: string)

  /** The library's error when one temperature input cannot be read. */
  datatype ReadError = ReadError(reason: string)

  /** One temperature input: its name and what reading it gave. */
  datatype TempInput = TempInput(name: string, reading: Result<Celsius, ReadError>)

  /** One enumerated chip: its name and its temperature inputs. */
  datatype Chip = Chip(name: string, temps: seq<TempInput>)

  /** What one enumeration of the hardware monitors gives. */
  type Enumeration = Result<seq<Chip>, ParsingError>

  /** One poll cycle's result, in enumeration order. */
  type Snapshot = seq<Monitor>

  // ---------------------------------------------------------------------------
  // Specification of one snapshot

  /** The sensors that survive reading: one per successful read, in input order. */
  function ReadSensors(temps: seq<TempInput>): (sensors: seq<Sensor>)
    ensures |sensors| <= |temps|
    decreases |temps|
  {
    if temps == [] then []
    else
      var last := temps[|temps| - 1];
      ReadSensors(temps[..|temps| - 1])
        + (if last.reading.Ok? then [Sensor(last.name, last.reading.value)] else [])
  }

  /** How many reads of the inputs failed. */
  function FailedReads(temps: seq<TempInput>): nat
    decreases |temps|
  {
    if temps == [] then 0
    else FailedReads(temps[..|temps| - 1]) + (if temps[|temps| - 1].reading.Err? then 1 else 0)
  }

  /** The positions of the inputs whose read succeeded, in increasing order. */
  function Survivors(temps: seq<TempInput>): seq<nat>
    decreases |temps|
  {
    if temps == [] then []
    else
      Survivors(temps[..|temps| - 1])
        + (if temps[|temps| - 1].reading.Ok? then [|temps| - 1] else [])
  }

  function ToMonitor(chip: Chip): Monitor {
    Monitor(chip.name, ReadSensors(chip.temps))
  }

  /** One monitor per chip, in enumeration order. */
  function Monitors(chips: seq<Chip>): seq<Monitor>
    decreases |chips|
  {
    if chips == [] then [] else Monitors(chips[..|chips| - 1]) + [ToMonitor(chips[|chips| - 1])]
  }

  /** The snapshot one enumeration yields: all or nothing at the top level. */
  function ReadSnapshot(hwmons: Enumeration): Result<Snapshot, ParsingError> {
    match hwmons
    case Err(e) => Err(e)
    case Ok(chips) => Ok(Monitors(chips))
  }

  // ---------------------------------------------------------------------------
  // get_monitors

  /** Builds the snapshot by pushing monitors and, inside each, the sensors read successfully. */
  method GetMonitors(hwmons: Enumeration) returns (r: Result<Snapshot, ParsingError>)
    ensures r == ReadSnapshot(hwmons)
    ensures r.Err? <==> hwmons.Err?
    ensures hwmons.Err? ==> r.error == hwmons.error
    ensures hwmons.Ok? ==> |r.value| == |hwmons.value|
    ensures hwmons.Ok? ==> forall i :: 0 <= i < |r.value| ==>
              r.value[i].name == hwmons.value[i].name
              && r.value[i].sensors == ReadSensors(hwmons.value[i].temps)
  {
    if hwmons.Err? {
      return Err(hwmons.error);
    }
    var chips := hwmons.value;
    var monitors: seq<Monitor> := [];
    var i := 0;
    while i < |chips|
      invariant 0 <= i <= |chips|
      invariant monitors == Monitors(chips[..i])
      invariant |monitors| == i
      invariant forall k :: 0 <= k < i ==> monitors[k] == ToMonitor(chips[k])
    {
      var chip := chips[i];
      var monitor := Monitor(chip.name, []);
      var j := 0;
      while j < |chip.temps|
        invariant 0 <= j <= |chip.temps|
        invariant monitor == Monitor(chip.name, ReadSensors(chip.temps[..j]))
      {
        var input := chip.temps[j];
        if input.reading.Ok? {
          monitor := monitor.(sensors := monitor.sensors + [Sensor(input.name, input.reading.value)]);
        }
        assert chip.temps[..j + 1][..j] == chip.temps[..j];
        j := j + 1;
      }
      assert chip.temps[..j] == chip.temps;
      assert chips[..i + 1][..i] == chips[..i];
      monitors := monitors + [monitor];
      i := i + 1;
    }
    assert chips[..i] == chips;
    r := Ok(monitors);
  }

  // ---------------------------------------------------------------------------
  // Properties of a snapshot

  /** N inputs with K failed reads give exactly N - K sensors. */
  lemma {:induction false} SensorCount(temps: seq<TempInput>)
    ensures |ReadSensors(temps)| == |temps| - FailedReads(temps)
    decreases |temps|
  {
    if temps != [] {
      SensorCount(temps[..|temps| - 1]);
    }
  }

  /**
   * The sensors of a monitor are exactly the inputs whose read succeeded: the
   * k-th sensor comes from the k-th successful input, carrying its name and
   * value, the successful inputs keep their relative order, and none is missing.
   */
  lemma {:induction false} SurvivorsCharacterise(temps: seq<TempInput>)
    ensures |Survivors(temps)| == |ReadSensors(temps)|
    ensures forall k :: 0 <= k < |Survivors(temps)| ==>
              Survivors(temps)[k] < |temps|
              && temps[Survivors(temps)[k]].reading.Ok?
              && ReadSensors(temps)[k]
                 == Sensor(temps[Survivors(temps)[k]].name, temps[Survivors(temps)[k]].reading.value)
    ensures forall k, l :: 0 <= k < l < |Survivors(temps)| ==> Survivors(temps)[k] < Survivors(temps)[l]
    ensures forall i :: 0 <= i < |temps| && temps[i].reading.Ok? ==> i in Survivors(temps)
    decreases |temps|
  {
    if temps != [] {
      var init := temps[..|temps| - 1];
      SurvivorsCharacterise(init);
      forall i | 0 <= i < |init| && init[i].reading.Ok? ensures i in Survivors(temps) {
        assert i in Survivors(init);
      }
    }
  }

  /** A sensor is in the monitor exactly when some input with that name and value was read. */
  lemma SensorPresentIff(temps: seq<TempInput>, s: Sensor)
    ensures s in ReadSensors(temps) <==> exists i :: 0 <= i < |temps| && temps[i] == TempInput(s.name, Ok(s.temperature))
  {
    SurvivorsCharacterise(temps);
    var out := ReadSensors(temps);
    var idx := Survivors(temps);
    if s in out {
      var k :| 0 <= k < |out| && out[k] == s;
      assert temps[idx[k]] == TempInput(s.name, Ok(s.temperature));
    }
    if exists i :: 0 <= i < |temps| && temps[i] == TempInput(s.name, Ok(s.temperature)) {
      var i :| 0 <= i < |temps| && temps[i] == TempInput(s.name, Ok(s.temperature));
      assert i in idx;
      var k :| 0 <= k < |idx| && idx[k] == i;
      assert out[k] == s;
    }
  }

  /** One monitor per chip, in order, each carrying its chip's name; an all-failed chip still appears. */
  lemma {:induction false} MonitorsFollowChips(chips: seq<Chip>)
    ensures |Monitors(chips)| == |chips|
    ensures forall i :: 0 <= i < |chips| ==>
              Monitors(chips)[i].name == chips[i].name
              && Monitors(chips)[i].sensors == ReadSensors(chips[i].temps)
    decreases |chips|
  {
    if chips != [] {
      MonitorsFollowChips(chips[..|chips| - 1]);
    }
  }

  /** A chip whose reads all fail, or that has no inputs, gives a monitor with no sensors. */
  lemma {:induction false} AllFailedGivesEmpty(temps: seq<TempInput>)
    requires forall i :: 0 <= i < |temps| ==> temps[i].reading.Err?
    ensures ReadSensors(temps) == []
    decreases |temps|
  {
    if temps != [] {
      AllFailedGivesEmpty(temps[..|temps| - 1]);
    }
  }

  /** Zero chips enumerated is a successful, empty snapshot. */
  lemma NoChipsGivesEmptySnapshot()
    ensures ReadSnapshot(Ok([])) == Ok([])
  {
  }

  /** A chip with one failing input among good ones. */
  lemma CoretempScenario()
    ensures ReadSnapshot(Ok([Chip("coretemp", [
              TempInput("Core 0", Ok(45.0)),
              TempInput("Core 1", Err(ReadError("unavailable"))),
              TempInput("Core 2", Ok(52.5))])]))
            == Ok([Monitor("coretemp", [Sensor("Core 0", 45.0), Sensor("Core 2", 52.5)])])
  {
    var temps := [TempInput("Core 0", Ok(45.0)),
                  TempInput("Core 1", Err(ReadError("unavailable"))),
                  TempInput("Core 2", Ok(52.5))];
    assert temps[..1][..0] == [];
    assert temps[..2][..1] == temps[..1];
    assert temps[..2] == temps[..|temps| - 1];
    assert ReadSensors(temps[..1]) == [Sensor("Core 0", 45.0)];
    assert ReadSensors(temps[..2]) == [Sensor("Core 0", 45.0)];
    assert ReadSensors(temps) == [Sensor("Core 0", 45.0), Sensor("Core 2", 52.5)];
    var chips := [Chip("coretemp", temps)];
    assert chips[..|chips| - 1] == [];
    assert Monitors(chips) == [Monitor("coretemp", [Sensor("Core 0", 45.0), Sensor("Core 2", 52.5)])];
  }

  // ---------------------------------------------------------------------------
  // poll: one cycle, and a finite run of cycles

  /** The sending end of the channel to the user interface. */
  class Sender {
    /** Whether the receiving end still exists; only the receiving side can change this. */
    var receiverAlive: bool
    /** The snapshots handed to the receiving end, in send order. */
    var sent: seq<Snapshot>

    constructor (receiverAlive: bool)
      ensures this.receiverAlive == receiverAlive && sent == []
    {
      this.receiverAlive := receiverAlive;
      sent := [];
    }

    /** Fails when the receiver is gone; otherwise appends to what the receiver gets. */
    method Send(snapshot: Snapshot) returns (ok: bool)
      modifies this
      ensures ok == receiverAlive && receiverAlive == old(receiverAlive)
      ensures sent == if ok then old(sent) + [snapshot] else old(sent)
    {
      ok := receiverAlive;
      if ok {
        sent := sent + [snapshot];
      }
    }

    /**
     * The receiving side goes away: its callback returns `Continue(false)` once
     * the application it holds weakly is gone. What it received stays received.
     */
    method DropReceiver()
      modifies this
      ensures !receiverAlive && sent == old(sent)
    {
      receiverAlive := false;
    }
  }

  /** How a poll cycle ends: go on to the next cycle, or abort because a send failed. */
  datatype PollStatus = Continue | SendFailed

  /** One iteration of the poll loop: send on success, log and skip on enumeration failure. */
  method PollCycle(sender: Sender, hwmons: Enumeration) returns (status: PollStatus)
    modifies sender
    ensures sender.receiverAlive == old(sender.receiverAlive)
    ensures hwmons.Err? ==> status == Continue && sender.sent == old(sender.sent)
    ensures hwmons.Ok? && sender.receiverAlive ==>
              status == Continue && sender.sent == old(sender.sent) + [Monitors(hwmons.value)]
    ensures hwmons.Ok? && !sender.receiverAlive ==>
              status == SendFailed && sender.sent == old(sender.sent)
  {
    var r := GetMonitors(hwmons);
    match r
    case Ok(monitors) =>
      var ok := sender.Send(monitors);
      status := if ok then Continue else SendFailed;
    case Err(_) =>
      // the error is logged and the cycle ends without sending
      status := Continue;
  }

  /** The snapshots a run of cycles produces, in cycle order. */
  function Produced(cycles: seq<Enumeration>): seq<Snapshot>
    decreases |cycles|
  {
    if cycles == [] then []
    else
      Produced(cycles[..|cycles| - 1])
        + (match cycles[|cycles| - 1]
           case Ok(chips) => [Monitors(chips)]
           case Err(_) => [])
  }

  /**
   * The poll loop run over a given sequence of enumerations, one per tick. The
   * receiver, if alive at the start, goes away just before cycle `dropAt`
   * (never, when `dropAt >= |cycles|`). Every snapshot produced before the drop
   * is delivered in order; after it, the loop stops with `SendFailed` at the
   * first successful enumeration, or runs out of ticks if there is none.
   */
  method Poll(sender: Sender, cycles: seq<Enumeration>, dropAt: nat) returns (ran: nat, status: PollStatus)
    modifies sender
    ensures ran <= |cycles|
    ensures var cut := if !old(sender.receiverAlive) then 0 else if dropAt < |cycles| then dropAt else |cycles|;
            && sender.sent == old(sender.sent) + Produced(cycles[..cut])
            && sender.receiverAlive == (old(sender.receiverAlive) && ran <= dropAt)
            && (status == SendFailed <==> Produced(cycles[cut..]) != [])
            && (status == Continue ==> ran == |cycles|)
            && (status == SendFailed ==>
                  cut < ran && cycles[ran - 1].Ok?
                  && forall i :: cut <= i < ran - 1 ==> cycles[i].Err?)
  {
    ghost var alive0 := sender.receiverAlive;
    ghost var cut := if !alive0 then 0 else if dropAt < |cycles| then dropAt else |cycles|;
    ghost var sent0 := sender.sent;
    ran, status := 0, Continue;
    while ran < |cycles| && status == Continue
      invariant 0 <= ran <= |cycles|
      invariant sender.receiverAlive == (alive0 && ran <= dropAt)
      invariant sender.sent == sent0 + Produced(cycles[..if ran < cut then ran else cut])
      invariant status == Continue ==> forall i :: cut <= i < ran ==> cycles[i].Err?
      invariant status == SendFailed ==>
                  cut < ran && cycles[ran - 1].Ok? && forall i :: cut <= i < ran - 1 ==> cycles[i].Err?
    {
      if ran == dropAt {
        sender.DropReceiver();
      }
      assert cycles[..ran + 1][..ran] == cycles[..ran];
      status := PollCycle(sender, cycles[ran]);
      ran := ran + 1;
    }
    if status == Continue {
      ProducedNothing(cycles[cut..]);
    } else {
      ProducedNonEmpty(cycles[cut..], ran - 1 - cut);
    }
  }

  /** A run in which every enumeration fails produces nothing. */
  lemma {:induction false} ProducedNothing(cycles: seq<Enumeration>)
    requires forall i :: 0 <= i < |cycles| ==> cycles[i].Err?
    ensures Produced(cycles) == []
    decreases |cycles|
  {
    if cycles != [] {
      ProducedNothing(cycles[..|cycles| - 1]);
    }
  }

  /** A run that contains a successful enumeration produces something. */
  lemma {:induction false} ProducedNonEmpty(cycles: seq<Enumeration>, i: nat)
    requires i < |cycles| && cycles[i].Ok?
    ensures Produced(cycles) != []
    decreases |cycles|
  {
    if i < |cycles| - 1 {
      ProducedNonEmpty(cycles[..|cycles| - 1], i);
    }
  }

  /** Snapshots are produced in cycle order, one for every successful enumeration. */
  lemma {:induction false} ProducedFollowsCycles(a: seq<Enumeration>, b: seq<Enumeration>)
    ensures Produced(a + b) == Produced(a) + Produced(b)
    decreases |b|
  {
    if b != [] {
      var b' := b[..|b| - 1];
      assert (a + b)[..|a + b| - 1] == a + b';
      ProducedFollowsCycles(a, b');
    } else {
      assert a + b == a;
    }
  }
}
