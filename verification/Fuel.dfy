/** Fuel consumption of a generator: the bracket tables and the rule beyond them. */
module Fuel {
  import opened Prelude

  datatype FuelType = PMS | DIESEL

  datatype BracketRow = BracketRow(maxKw: real, litresPerHour: real)

  const PMS_TABLE := [BracketRow(1.0, 0.6), BracketRow(2.0, 0.9), BracketRow(3.0, 1.3), BracketRow(5.0, 2.0),
                      BracketRow(7.5, 2.8), BracketRow(10.0, 3.5)]

  const DIESEL_TABLE := [BracketRow(3.0, 0.9), BracketRow(5.0, 1.4), BracketRow(7.5, 1.9), BracketRow(10.0, 2.5),
                         BracketRow(15.0, 3.5), BracketRow(20.0, 4.5)]

  function Table(fuel: FuelType): seq<BracketRow> { if fuel.DIESEL? then DIESEL_TABLE else PMS_TABLE }

  function Factor(fuel: FuelType): real { if fuel.DIESEL? then 0.3 else 0.5 }

  /** The first position whose bracket reaches the power, or the length. */
  function Bracket(table: seq<BracketRow>, ratedKw: real): (i: nat)
    ensures i <= |table| && (i < |table| ==> ratedKw <= table[i].maxKw)
            && forall j :: 0 <= j < i ==> ratedKw > table[j].maxKw
  {
    if table == [] then 0 else if ratedKw <= table[0].maxKw then 0 else 1 + Bracket(table[1..], ratedKw)
  }

  function ConsumptionRate(fuel: FuelType, ratedKw: real): real {
    var i := Bracket(Table(fuel), ratedKw);
    if i < |Table(fuel)| then Table(fuel)[i].litresPerHour else Round2(ratedKw * Factor(fuel))
  }

  /** Litres per hour of a petrol generator: each bracket up to its upper end, then half a litre per kilowatt. */
  lemma {:induction false} PetrolRates(kw: real)
    ensures kw <= 1.0 ==> ConsumptionRate(PMS, kw) == 0.6
    ensures 1.0 < kw <= 2.0 ==> ConsumptionRate(PMS, kw) == 0.9
    ensures 2.0 < kw <= 3.0 ==> ConsumptionRate(PMS, kw) == 1.3
    ensures 3.0 < kw <= 5.0 ==> ConsumptionRate(PMS, kw) == 2.0
    ensures 5.0 < kw <= 7.5 ==> ConsumptionRate(PMS, kw) == 2.8
    ensures 7.5 < kw <= 10.0 ==> ConsumptionRate(PMS, kw) == 3.5
    ensures 10.0 < kw ==> 0.5 * kw - 0.005 <= ConsumptionRate(PMS, kw) <= 0.5 * kw + 0.005
  {
    var i := Bracket(PMS_TABLE, kw);
    assert (i < 6 ==> kw <= PMS_TABLE[i].maxKw) && (i > 0 ==> kw > PMS_TABLE[i - 1].maxKw);
    hide Bracket, Round2;
  }

  /** And of a diesel one, with 0.3 litres per kilowatt beyond the table. */
  lemma {:induction false} DieselRates(kw: real)
    ensures kw <= 3.0 ==> ConsumptionRate(DIESEL, kw) == 0.9
    ensures 3.0 < kw <= 5.0 ==> ConsumptionRate(DIESEL, kw) == 1.4
    ensures 5.0 < kw <= 7.5 ==> ConsumptionRate(DIESEL, kw) == 1.9
    ensures 7.5 < kw <= 10.0 ==> ConsumptionRate(DIESEL, kw) == 2.5
    ensures 10.0 < kw <= 15.0 ==> ConsumptionRate(DIESEL, kw) == 3.5
    ensures 15.0 < kw <= 20.0 ==> ConsumptionRate(DIESEL, kw) == 4.5
    ensures 20.0 < kw ==> 0.3 * kw - 0.005 <= ConsumptionRate(DIESEL, kw) <= 0.3 * kw + 0.005
  {
    var i := Bracket(DIESEL_TABLE, kw);
    assert (i < 6 ==> kw <= DIESEL_TABLE[i].maxKw) && (i > 0 ==> kw > DIESEL_TABLE[i - 1].maxKw);
    hide Bracket, Round2;
  }

  method EstimateFuelConsumptionRate(fuel: FuelType, ratedKw: real) returns (rate: real)
    ensures rate == ConsumptionRate(fuel, ratedKw)
  {
    var table := if fuel.DIESEL? then DIESEL_TABLE else PMS_TABLE;
    for i := 0 to |table|
      invariant forall j :: 0 <= j < i ==> ratedKw > table[j].maxKw
    {
      if ratedKw <= table[i].maxKw { return table[i].litresPerHour; }
    }
    rate := Round2(ratedKw * (if fuel.DIESEL? then 0.3 else 0.5));
  }

  /** A larger generator never burns less, also where the table ends. */
  lemma {:induction false} RateIsMonotone(fuel: FuelType, a: real, b: real)
    requires a <= b
    ensures ConsumptionRate(fuel, a) <= ConsumptionRate(fuel, b)
  {
    var i, j := Bracket(Table(fuel), a), Bracket(Table(fuel), b);
    assert i <= j;
    if i == |Table(fuel)| {
      Round2IsMonotone(a * Factor(fuel), b * Factor(fuel));
    } else if j == |Table(fuel)| {
      assert b > Table(fuel)[5].maxKw;
      Round2IsMonotone(Table(fuel)[5].litresPerHour, b * Factor(fuel));
      TableEnd(fuel);
    }
  }

  lemma {:induction false} TableEnd(fuel: FuelType)
    ensures Round2(Table(fuel)[5].litresPerHour) == Table(fuel)[5].litresPerHour
  {
    assert Round(350.0) == 350 && Round(450.0) == 450;
  }

  lemma Round2IsMonotone(x: real, y: real)
    requires x <= y
    ensures Round2(x) <= Round2(y)
  {
    RoundIsMonotone(x * 100.0, y * 100.0);
    hide Round;
  }

  lemma RoundIsMonotone(x: real, y: real)
    requires x <= y
    ensures Round(x) <= Round(y)
  {
    var a, b := Round(x), Round(y);
    hide Round;
    assert (a - b) as real < 1.0;
  }
}
