/**
 * The emission factor table and the per-day calculator (`compute_emissions`).
 * Amounts are exact reals in kg CO2-equivalent; the factors are the source's
 * decimal constants.
 */
module Emissions {

  /** kg CO2 per km for each transport mode offered by the entry form. */
  const EmissionFactors: map<string, real> := map[
    "Car (Petrol)" := 0.192,
    "Car (Diesel)" := 0.171,
    "Motorbike" := 0.103,
    "Matatu/Bus" := 0.105,
    "Bicycle/Walking" := 0.0
  ]

  /** kg CO2 per kWh of electricity. */
  const ElectricityFactor: real := 0.18

  /** kg CO2 per kg of LPG burnt. */
  const LpgFactor: real := 3.0

  /** The four derived fields of a day's entry. */
  datatype Emissions = Emissions(transport: real, electricity: real, lpg: real, total: real)

  /** The stored total is the sum of its three parts. */
  predicate Consistent(em: Emissions) {
    em.total == em.transport + em.electricity + em.lpg
  }

  /** `EMISSION_FACTORS.get(mode, 0.0)`: unknown modes emit nothing. */
  function TransportFactor(mode: string): (f: real)
    ensures mode in EmissionFactors ==> f == EmissionFactors[mode]
    ensures mode !in EmissionFactors ==> f == 0.0
    ensures 0.0 <= f <= 0.192
  {
    if mode in EmissionFactors then EmissionFactors[mode] else 0.0
  }

  /** `compute_emissions(distance_km, transport_mode, electricity_kwh, lpg_kg)`. */
  function Compute(distance: real, mode: string, electricity: real, lpg: real): (em: Emissions)
    ensures Consistent(em)
    ensures em.transport == distance * TransportFactor(mode)
    ensures em.electricity == electricity * 0.18 && em.lpg == lpg * 3.0
    ensures mode !in EmissionFactors ==> em.transport == 0.0
    ensures 0.0 <= distance && 0.0 <= electricity && 0.0 <= lpg ==>
              0.0 <= em.transport && 0.0 <= em.electricity && 0.0 <= em.lpg && 0.0 <= em.total
  {
    var t := distance * TransportFactor(mode);
    var e := electricity * ElectricityFactor;
    var l := lpg * LpgFactor;
    Emissions(t, e, l, t + e + l)
  }

  /** Each known mode uses exactly its table entry; any other text uses 0. */
  lemma ModeFactors(mode: string, distance: real)
    ensures Compute(distance, "Car (Petrol)", 0.0, 0.0).total == distance * 0.192
    ensures Compute(distance, "Car (Diesel)", 0.0, 0.0).total == distance * 0.171
    ensures Compute(distance, "Motorbike", 0.0, 0.0).total == distance * 0.103
    ensures Compute(distance, "Matatu/Bus", 0.0, 0.0).total == distance * 0.105
    ensures Compute(distance, "Bicycle/Walking", 0.0, 0.0).total == 0.0
    ensures mode !in EmissionFactors ==> Compute(distance, mode, 0.0, 0.0).total == 0.0
  {
    assert EmissionFactors["Car (Petrol)"] == 0.192;
    assert EmissionFactors["Car (Diesel)"] == 0.171;
    assert EmissionFactors["Motorbike"] == 0.103;
    assert EmissionFactors["Matatu/Bus"] == 0.105;
    assert EmissionFactors["Bicycle/Walking"] == 0.0;
  }

  function Add(a: Emissions, b: Emissions): Emissions {
    Emissions(a.transport + b.transport, a.electricity + b.electricity, a.lpg + b.lpg, a.total + b.total)
  }

  /**
   * The calculator is linear: the emissions of two days' quantities in one mode
   * are the sum of the two days' emissions.
   */
  lemma ComputeIsAdditive(mode: string, d1: real, e1: real, l1: real, d2: real, e2: real, l2: real)
    ensures Compute(d1 + d2, mode, e1 + e2, l1 + l2) == Add(Compute(d1, mode, e1, l1), Compute(d2, mode, e2, l2))
  {
  }

  /** More of any quantity never lowers the total. */
  lemma ComputeIsMonotone(mode: string, d1: real, e1: real, l1: real, d2: real, e2: real, l2: real)
    requires d1 <= d2 && e1 <= e2 && l1 <= l2
    ensures Compute(d1, mode, e1, l1).total <= Compute(d2, mode, e2, l2).total
  {
    var f := TransportFactor(mode);
    assert d1 * f <= d2 * f;
  }
}
