/**
 * Scaling of raw register values into payload values, and the two payload
 * shapes a reading can carry: the decoded one and the all-None one.
 *
 * Floating-point quantities are exact reals here: `raw * 0.1` is `raw / 10`.
 */
module Decoding {
  import opened Wrappers
  import opened Registers

  /** A payload value: a float quantity or an integer quantity. */
  datatype Value = Float(x: real) | Int(n: int)

  /** A payload: field name to value, `None` standing for a missing reading. */
  type Payload = map<string, Option<Value>>

  /**
   * Round half to even (the rule of Python's `round`): the nearest integer,
   * and on a tie the even one.
   */
  function RoundHalfEven(y: real): (n: int)
    ensures y - 0.5 <= n as real <= y + 0.5
    ensures (n as real == y - 0.5 || n as real == y + 0.5) ==> n % 2 == 0
  {
    var f := y.Floor;
    var d := y - f as real;
    if d < 0.5 then f
    else if d > 0.5 then f + 1
    else if f % 2 == 0 then f
    else f + 1
  }

  /** `round(x, 2)`: the nearest multiple of 0.01, ties to an even number of hundredths. */
  function Round2(x: real): (r: real)
    ensures x - 0.005 <= r <= x + 0.005
    ensures (r * 100.0).Floor as real == r * 100.0
    ensures (r * 100.0 == x * 100.0 - 0.5 || r * 100.0 == x * 100.0 + 0.5) ==> (r * 100.0).Floor % 2 == 0
  {
    var n := RoundHalfEven(x * 100.0);
    assert n as real / 100.0 * 100.0 == n as real;
    n as real / 100.0
  }

  /** A value that already has at most two decimals is left unchanged by rounding. */
  lemma Round2Exact(x: real)
    requires (x * 100.0).Floor as real == x * 100.0
    ensures Round2(x) == x
  {
    var y := x * 100.0;
    assert RoundHalfEven(y) == y.Floor;
  }

  /** `int(x)`: truncation toward zero. */
  function Trunc(x: real): (r: int)
    ensures x >= 0.0 ==> r as real <= x < r as real + 1.0
    ensures x < 0.0 ==> r as real - 1.0 < x <= r as real
  {
    if x >= 0.0 then x.Floor else -((-x).Floor)
  }

  /** A float quantity read with a 0.1 multiplier: `round(raw * 0.1, 2)`. */
  function Tenths(raw: Int16): (v: Value)
    ensures v == Float(raw as real / 10.0)
  {
    var hundredths := raw as int * 10;
    assert raw as real * 0.1 * 100.0 == hundredths as real;
    assert (hundredths as real).Floor == hundredths;
    Round2Exact(raw as real * 0.1);
    Float(Round2(raw as real * 0.1))
  }

  /** A float quantity read with a 1.0 multiplier: `round(raw * 1.0, 2)`. */
  function Units(raw: Int16): (v: Value)
    ensures v == Float(raw as real)
  {
    var hundredths := raw as int * 100;
    assert raw as real * 1.0 * 100.0 == hundredths as real;
    assert (hundredths as real).Floor == hundredths;
    Round2Exact(raw as real * 1.0);
    Float(Round2(raw as real * 1.0))
  }

  /** An integer quantity read with a 1.0 multiplier: `int(raw * 1.0)`. */
  function Whole(raw: Int16): (v: Value)
    ensures v == Int(raw)
  {
    Int(Trunc(raw as real * 1.0))
  }

  /** The keys of a decoded payload. */
  const SuccessKeys: set<string> :=
    {"temp_before_filter", "fan_speed", "temperature", "humid", "co2", "voc", "operation_mode"}

  /** The keys of the all-None payload. */
  const NullKeys: set<string> :=
    {"temperature_before_filter", "fan_speed", "temperature", "humid", "co2", "voc", "operation_mode"}

  /**
   * The payload of a clean attempt, from the seven raw values in read order
   * (offsets 0, 2, 3, 4, 5, 6, 8).
   */
  function Decode(raws: seq<Int16>): Payload
    requires |raws| == RegisterCount
  {
    map[
      "temp_before_filter" := Some(Tenths(raws[0])),
      "fan_speed" := Some(Units(raws[1])),
      "temperature" := Some(Tenths(raws[2])),
      "humid" := Some(Tenths(raws[3])),
      "co2" := Some(Whole(raws[4])),
      "voc" := Some(Tenths(raws[5])),
      "operation_mode" := Some(Whole(raws[6]))
    ]
  }

  /**
   * A decoded payload has every field present, each the raw value scaled
   * exactly: temperatures, humidity and VOC in tenths, fan speed in units,
   * CO2 and operation mode as integers.
   */
  lemma DecodeFields(raws: seq<Int16>)
    requires |raws| == RegisterCount
    ensures Decode(raws).Keys == SuccessKeys
    ensures forall k :: k in Decode(raws) ==> Decode(raws)[k].Some?
    ensures Decode(raws)["temp_before_filter"] == Some(Float(raws[0] as real / 10.0))
    ensures Decode(raws)["fan_speed"] == Some(Float(raws[1] as real))
    ensures Decode(raws)["temperature"] == Some(Float(raws[2] as real / 10.0))
    ensures Decode(raws)["humid"] == Some(Float(raws[3] as real / 10.0))
    ensures Decode(raws)["co2"] == Some(Int(raws[4]))
    ensures Decode(raws)["voc"] == Some(Float(raws[5] as real / 10.0))
    ensures Decode(raws)["operation_mode"] == Some(Int(raws[6]))
  {
  }

  /** The payload of a reading that could not be taken. */
  function NullPayload(): Payload {
    map[
      "temperature_before_filter" := None,
      "fan_speed" := None,
      "temperature" := None,
      "humid" := None,
      "co2" := None,
      "voc" := None,
      "operation_mode" := None
    ]
  }

  /** The all-None payload has the seven null keys, every one mapped to `None`. */
  lemma NullPayloadShape()
    ensures NullPayload().Keys == NullKeys
    ensures forall k :: k in NullPayload() ==> NullPayload()[k] == None
  {
  }

  /**
   * The two payload shapes do not have the same keys: the all-None payload
   * names the first field "temperature_before_filter", the decoded payload
   * "temp_before_filter"; the other six keys agree. So a consumer that looks
   * up "temp_before_filter" finds no such key in an all-None payload.
   */
  lemma PayloadKeysDiffer(raws: seq<Int16>)
    requires |raws| == RegisterCount
    ensures NullPayload().Keys - Decode(raws).Keys == {"temperature_before_filter"}
    ensures Decode(raws).Keys - NullPayload().Keys == {"temp_before_filter"}
    ensures |NullPayload()| == |Decode(raws)| == 7
    ensures "temp_before_filter" !in NullPayload()
  {
    DecodeFields(raws);
    NullPayloadShape();
    assert "temperature_before_filter" != "temp_before_filter";
  }

  /** Raw value 123 with a 0.1 multiplier decodes to 12.3; raw -50 cast to an integer stays -50. */
  lemma ScalingExamples()
    ensures Tenths(123) == Float(12.3)
    ensures Whole(-50) == Int(-50)
    ensures Units(-50) == Float(-50.0)
  {
  }

  /** Raw values 300, 50, 250, 450, 800, 120, 2 decode to 30.0, 50.0, 25.0, 45.0, 800, 12.0, 2. */
  lemma DecodeExample()
    ensures Decode([300, 50, 250, 450, 800, 120, 2]) == map[
      "temp_before_filter" := Some(Float(30.0)),
      "fan_speed" := Some(Float(50.0)),
      "temperature" := Some(Float(25.0)),
      "humid" := Some(Float(45.0)),
      "co2" := Some(Int(800)),
      "voc" := Some(Float(12.0)),
      "operation_mode" := Some(Int(2))
    ]
  {
  }
}
