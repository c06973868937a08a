/**
 * A worked week: Monday 2024-01-01 by petrol car (10 km), Tuesday by bicycle
 * (5 km), Wednesday 5 kWh of electricity, checked on the Wednesday.
 */
module Scenario {
  import opened Wrappers
  import opened Dates
  import opened Emissions
  import opened Sequences
  import opened Entries
  import opened Goals
  import opened Insights

  const Monday: Date := Date(2024, 1, 1)
  const Tuesday: Date := Date(2024, 1, 2)
  const Wednesday: Date := Date(2024, 1, 3)

  /** The three saved rows, with the emissions the entry form derives for them. */
  const Drive: Entry := Entry(Some("u1"), Some("amina"), Monday, "Car (Petrol)", 10.0, 0.0, 0.0,
                              Emissions(1.92, 0.0, 0.0, 1.92), Some(""))
  const Ride: Entry := Entry(Some("u1"), Some("amina"), Tuesday, "Bicycle/Walking", 5.0, 0.0, 0.0,
                             Emissions(0.0, 0.0, 0.0, 0.0), Some(""))
  const Power: Entry := Entry(Some("u1"), Some("amina"), Wednesday, "Car (Diesel)", 0.0, 5.0, 0.0,
                              Emissions(0.0, 0.9, 0.0, 0.9), Some(""))
  const Week: seq<Entry> := [Drive, Ride, Power]

  lemma DriveIsRecorded()
    ensures Drive == ManualRecord(Some("u1"), "amina", Monday, 10.0, "Car (Petrol)", 0.0, 0.0, "")
  {
    ModeFactors("Car (Petrol)", 10.0);
  }

  lemma RideIsRecorded()
    ensures Ride == ManualRecord(Some("u1"), "amina", Tuesday, 5.0, "Bicycle/Walking", 0.0, 0.0, "")
  {
    ModeFactors("Bicycle/Walking", 5.0);
  }

  lemma PowerIsRecorded()
    ensures Power == ManualRecord(Some("u1"), "amina", Wednesday, 0.0, "Car (Diesel)", 5.0, 0.0, "")
  {
  }

  lemma WeekDays()
    ensures Ordinal(Monday) == 738886 && Ordinal(Tuesday) == 738887 && Ordinal(Wednesday) == 738888
    ensures WeekStart(Wednesday) == 738886
  {
    NewYear2024IsMonday();
    assert (738888 + 6) % 7 == 2;
  }

  /** All three days fall in the week of the Wednesday. */
  lemma WeekInWindow()
    ensures Filter(Week, InWeek(Wednesday)) == Week
  {
    WeekDays();
    var p := InWeek(Wednesday);
    assert p(Drive) && p(Ride) && p(Power);
    FilterSingleton(Drive, p);
    FilterSingleton(Ride, p);
    FilterSingleton(Power, p);
    assert Week == [Drive] + ([Ride] + [Power]);
    FilterAppend([Ride], [Power], p);
    FilterAppend([Drive], [Ride] + [Power], p);
  }

  /** 1.92 + 0 + 0.9 = 2.82 kg, within the default 20 kg target; 0.94 kg per entry. */
  lemma WorkedWeek()
    ensures WeeklyTotal(Week, Wednesday) == 2.82
    ensures WeeklyCheck(Week, Wednesday, DefaultWeeklyTarget) == Some(WithinTarget)
    ensures Summarize(Week) == Some(Summary(2.82, 0.94))
  {
    WeekInWindow();
    WeekSum();
  }

  lemma WeekSum()
    ensures SumOf(Week, Total) == 2.82
  {
    assert Week[1..] == [Ride, Power] && Week[1..][1..] == [Power] && Week[1..][1..][1..] == [];
    assert SumOf([Power], Total) == 0.9;
    assert SumOf([Ride, Power], Total) == 0.9;
  }
}
