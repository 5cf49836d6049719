/**
 * The interlock controller's fixed holding-register map and the read
 * requests one attempt issues, in order.
 */
module Registers {

  /** A signed 16-bit register value, as the transport decodes it. */
  type Int16 = x: int | -32768 <= x <= 32767

  /** Key of the function code in the address table. */
  const FunctionCodeKey := "FUNCTION_CODE"

  /** The address table: one offset per register, and the Modbus function code (3, read holding registers). */
  function GetAddress(): (m: map<string, int>)
    ensures |m| == 8
  {
    map[
      "ADDR_TEMP_BEFORE_FILTER" := 0,
      "ADDR_FAN_SPEED" := 2,
      "ADDR_DUCT_TEMP" := 3,
      "ADDR_DUCT_HUMID" := 4,
      "ADDR_DUCT_CO2" := 5,
      "ADDR_DUCT_VOC" := 6,
      "ADDR_HLR_OPERATION_MODE" := 8,
      FunctionCodeKey := 3
    ]
  }

  /** How many registers one attempt reads. */
  const RegisterCount: nat := 7

  /** The address-table keys of the registers, in the order an attempt reads them. */
  const ReadOrder: seq<string> := [
    "ADDR_TEMP_BEFORE_FILTER",
    "ADDR_FAN_SPEED",
    "ADDR_DUCT_TEMP",
    "ADDR_DUCT_HUMID",
    "ADDR_DUCT_CO2",
    "ADDR_DUCT_VOC",
    "ADDR_HLR_OPERATION_MODE"
  ]

  /** One single-register read: slave address, register offset, function code, signed decoding. */
  datatype Request = Request(slave: int, register: int, functionCode: int, signed: bool)

  /** The table has an entry for every register of the read plan and for the function code. */
  predicate HasPlanKeys(table: map<string, int>) {
    FunctionCodeKey in table && forall k :: 0 <= k < RegisterCount ==> ReadOrder[k] in table
  }

  /**
   * The `k`-th read of an attempt against slave `slave`, looked up in the
   * address table; with the driver's own table it is a signed read of offset
   * `PlanOffsets[k]` with function code 3.
   */
  function RequestAt(table: map<string, int>, slave: int, k: nat): (q: Request)
    requires HasPlanKeys(table) && k < RegisterCount
    ensures table == GetAddress() ==> q == Request(slave, PlanOffsets[k], 3, true)
  {
    AddressEntries();
    Request(slave, table[ReadOrder[k]], table[FunctionCodeKey], true)
  }

  /** The register offsets of the read plan, in read order. */
  const PlanOffsets: seq<int> := [0, 2, 3, 4, 5, 6, 8]

  /** The driver's own table has every key of the plan, with the plan's offsets and function code 3. */
  lemma AddressEntries()
    ensures HasPlanKeys(GetAddress())
    ensures GetAddress()[FunctionCodeKey] == 3
    ensures forall k :: 0 <= k < RegisterCount ==> GetAddress()[ReadOrder[k]] == PlanOffsets[k]
  {
    var m := GetAddress();
    assert m[ReadOrder[0]] == PlanOffsets[0];
    assert m[ReadOrder[1]] == PlanOffsets[1];
    assert m[ReadOrder[2]] == PlanOffsets[2];
    assert m[ReadOrder[3]] == PlanOffsets[3];
    assert m[ReadOrder[4]] == PlanOffsets[4];
    assert m[ReadOrder[5]] == PlanOffsets[5];
    assert m[ReadOrder[6]] == PlanOffsets[6];
  }

  /**
   * The read plan of the driver's own table: the `k`-th read is of offset
   * `PlanOffsets[k]` (0, 2, 3, 4, 5, 6 and 8, so strictly increasing and
   * distinct), with function code 3 and signed decoding.
   */
  lemma ReadPlan(slave: int)
    ensures HasPlanKeys(GetAddress())
    ensures forall k :: 0 <= k < RegisterCount ==>
      RequestAt(GetAddress(), slave, k) == Request(slave, PlanOffsets[k], 3, true)
    ensures forall j, k :: 0 <= j < k < RegisterCount ==> PlanOffsets[j] < PlanOffsets[k]
  {
    AddressEntries();
  }
}
