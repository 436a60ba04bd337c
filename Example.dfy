/**
 A worked input: four records, two of them identical, in two cities.
 */
module Example {
  import opened Items
  import opened Counting

  const A1 := Item("CityA", "St1", 10, 3)
  const A2 := Item("CityA", "St2", 11, 5)
  const B3 := Item("CityB", "St3", 20, 3)

  const Input := [A1, A1, A2, B3]

  /**
   Whatever order the pool runs the eight tasks in, Section I reports the
   repeated record once with two repetitions, and the histogram holds two
   3-floor and one 5-floor building for CityA and one 3-floor building for
   CityB: both occurrences of the repeated record count as buildings.
   */
  lemma ExampleReport(schedule: seq<Task>)
    requires multiset(schedule) == multiset(Submitted(Input))
    ensures Duplicates(Run(Empty, schedule).itemMap) == map[A1 := 2]
    ensures Run(Empty, schedule).floorCounterMap == Histogram
  {
    FinalCounts(Input, schedule);
    ExampleDuplicates(Run(Empty, schedule).itemMap);
    ExampleHistogram(Run(Empty, schedule).floorCounterMap);
  }

  lemma ExampleDuplicates(m: ItemCounts)
    requires PositiveCounts(m)
    requires forall x :: Tally(m, x) == multiset(Input)[x]
    ensures Duplicates(m) == map[A1 := 2]
  {
    forall x ensures Tally(Duplicates(m), x) == Tally(map[A1 := 2], x) {
      InputOccurrences(x);
    }
    ItemCountsDetermined(Duplicates(m), map[A1 := 2]);
  }

  lemma ExampleHistogram(h: FloorHistogram)
    requires ValidHistogram(h)
    requires forall c, f :: FloorTally(h, c, f) == CityFloorCount(Input, c, f)
    ensures h == Histogram
  {
    forall c, f ensures FloorTally(h, c, f) == FloorTally(Histogram, c, f) {
      InputCityFloors(c, f);
    }
    HistogramValid();
    HistogramsDetermined(h, Histogram);
  }

  const Histogram: FloorHistogram := map["CityA" := map[3 := 2, 5 := 1], "CityB" := map[3 := 1]]

  lemma InputOccurrences(x: Item)
    ensures multiset(Input)[x] == if x == A1 then 2 else if x == A2 || x == B3 then 1 else 0
  {
    assert multiset(Input) == multiset{A1, A1, A2, B3};
  }

  lemma InputCityFloors(c: string, f: int32)
    ensures CityFloorCount(Input, c, f) == FloorTally(Histogram, c, f)
  {
    var one := if c == "CityA" && f == 3 then 1 else 0;
    assert CityFloorCount([], c, f) == 0;
    assert [A1][..0] == [];
    assert CityFloorCount([A1], c, f) == one;
    assert [A1, A1][..1] == [A1];
    assert CityFloorCount([A1, A1], c, f) == 2 * one;
    assert [A1, A1, A2][..2] == [A1, A1];
    assert CityFloorCount([A1, A1, A2], c, f) == 2 * one + (if c == "CityA" && f == 5 then 1 else 0);
    assert Input[..3] == [A1, A1, A2];
    DistinctCities();
  }

  lemma HistogramValid()
    ensures ValidHistogram(Histogram)
  {
    DistinctCities();
    assert Histogram.Keys == {"CityA", "CityB"};
    assert Histogram["CityA"] == map[3 := 2, 5 := 1] && 3 in Histogram["CityA"];
    assert Histogram["CityB"] == map[3 := 1] && 3 in Histogram["CityB"];
  }

  lemma DistinctCities()
    ensures "CityA" != "CityB"
  {
    assert "CityA"[4] != "CityB"[4];
  }
}
