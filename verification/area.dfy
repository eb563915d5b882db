/**
 * The chart area's property store (src/area.rs): two properties, `tick` (an
 * i32) and `temperature` (a float), read and written by name, and
 * `update_temperature`, which advances the tick and stores a new temperature.
 * Drawing is not part of this model.
 */
module Area {
  import opened Wrappers
  import opened Decimal

  /** A property value: the toolkit's boxed value, of the two types in use. */
  datatype Value = IntValue(i: I32) | FloatValue(f: real)

  /** Why a property access panics. */
  datatype Panic =
    | WrongType       // `value.get().expect(..)`: the value has another type
    | Unimplemented   // `unimplemented!()`: no property of that name
    | Overflow        // `tick += 1` on i32::MAX

  class ChartArea {
    var tick: I32
    var temperature: real

    /** A new chart area starts from the properties' defaults. */
    constructor ()
      ensures tick == 0 && temperature == 0.0
    {
      tick := 0;
      temperature := 0.0;
    }

    /** The value `property(name)` returns, or the panic it raises. */
    function Property(name: string): (r: Result<Value, Panic>)
      reads this
      ensures r.Ok? <==> name == "tick" || name == "temperature"
      ensures name == "tick" ==> r == Ok(IntValue(tick))
      ensures name == "temperature" ==> r == Ok(FloatValue(temperature))
    {
      if name == "tick" then Ok(IntValue(tick))
      else if name == "temperature" then Ok(FloatValue(temperature))
      else Err(Unimplemented)
    }

    /** `property(name)`; the function `Property` is its specification. */
    method GetProperty(name: string) returns (r: Result<Value, Panic>)
      ensures r == Property(name)
    {
      match name {
        case "tick" => r := Ok(IntValue(tick));
        case "temperature" => r := Ok(FloatValue(temperature));
        case _ => r := Err(Unimplemented);
      }
    }

    /**
     * `set_property(name, value)`: replaces exactly the named field. A value of
     * the wrong type or an unknown name panics and changes nothing.
     */
    method SetProperty(name: string, value: Value) returns (r: Option<Panic>)
      modifies this
      ensures name == "tick" ==>
                r == (if value.IntValue? then None else Some(WrongType))
      ensures name == "temperature" ==>
                r == (if value.FloatValue? then None else Some(WrongType))
      ensures name != "tick" && name != "temperature" ==> r == Some(Unimplemented)
      ensures r.Some? ==> tick == old(tick) && temperature == old(temperature)
      ensures r.None? ==> Property(name) == Ok(value)
      ensures r.None? && name == "tick" ==> temperature == old(temperature)
      ensures r.None? && name == "temperature" ==> tick == old(tick)
    {
      match name {
        case "tick" =>
          if value.IntValue? {
            tick := value.i;
            r := None;
          } else {
            r := Some(WrongType);
          }
        case "temperature" =>
          if value.FloatValue? {
            temperature := value.f;
            r := None;
          } else {
            r := Some(WrongType);
          }
        case _ => r := Some(Unimplemented);
      }
    }

    /**
     * `update_temperature(t)`: reads `tick`, adds one and writes it back, then
     * writes `temperature`. Adding one to i32::MAX panics before anything is written.
     */
    method UpdateTemperature(t: real) returns (r: Option<Panic>)
      modifies this
      ensures old(tick) < I32_MAX ==> r.None? && tick == old(tick) + 1 && temperature == t
      ensures old(tick) == I32_MAX ==> r == Some(Overflow) && tick == old(tick) && temperature == old(temperature)
    {
      var current := GetProperty("tick");
      var next := current.value.i as int + 1;
      if next > I32_MAX {
        return Some(Overflow);
      }
      var ignored := SetProperty("tick", IntValue(next));
      ignored := SetProperty("temperature", FloatValue(t));
      r := None;
    }
  }
}
