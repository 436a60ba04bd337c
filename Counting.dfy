/**
 The two shared tallies the record stream feeds: `itemMap`, which counts how
 often each record occurs, and `floorCounterMap`, which counts per city how
 many buildings have each number of floors. Each counting task runs as one
 atomic step under its map's lock; a run of the whole input is the fold of
 those steps over whatever order the worker pool picked.
 */
module Counting {
  import opened Items

  /** `itemMap`: record to number of occurrences. */
  type ItemCounts = map<Item, int>

  /** `floorCounterMap`: city to (number of floors to number of buildings). */
  type FloorHistogram = map<string, map<int32, int>>

  /** How often `x` has been counted; absence means zero. */
  function Tally(m: ItemCounts, x: Item): int
  {
    if x in m then m[x] else 0
  }

  /** How many buildings of `city` with `floor` floors have been counted; absence means zero. */
  function FloorTally(h: FloorHistogram, city: string, floor: int32): int
  {
    if city in h && floor in h[city] then h[city][floor] else 0
  }

  /** Every stored count is at least 1. */
  ghost predicate PositiveCounts(m: ItemCounts)
  {
    forall x :: x in m ==> m[x] >= 1
  }

  /** Every city present has a non-empty inner map, and every inner count is at least 1. */
  ghost predicate ValidHistogram(h: FloorHistogram)
  {
    forall c :: c in h ==> h[c] != map[] && forall f :: f in h[c] ==> h[c][f] >= 1
  }

  /**
   The body of `CountingItems.run` on values: increment the count of `x`,
   or insert it with 1. Exactly one tally grows, by one, and no key is lost.
   */
  function AddItem(m: ItemCounts, x: Item): (r: ItemCounts)
    ensures r.Keys == m.Keys + {x}
    ensures forall y :: Tally(r, y) == Tally(m, y) + (if y == x then 1 else 0)
    ensures PositiveCounts(m) ==> PositiveCounts(r)
  {
    if x !in m then m[x := 1] else m[x := m[x] + 1]
  }

  /**
   The body of `CountingFloors.run` on values: a city seen for the first
   time gets the inner map `{floor: 1}`; otherwise the floor's count inside
   the city's map is incremented or inserted with 1. Exactly one tally grows,
   by one; other cities and other floors keep their counts.
   */
  function AddFloor(h: FloorHistogram, city: string, floor: int32): (r: FloorHistogram)
    ensures r.Keys == h.Keys + {city}
    ensures r[city].Keys == (if city in h then h[city].Keys else {}) + {floor}
    ensures forall c :: c in h && c != city ==> r[c] == h[c]
    ensures forall c, f :: FloorTally(r, c, f) == FloorTally(h, c, f) + (if c == city && f == floor then 1 else 0)
    ensures ValidHistogram(h) ==> ValidHistogram(r)
  {
    if city !in h then h[city := map[floor := 1]]
    else
      var inner := h[city];
      h[city := if floor !in inner then inner[floor := 1] else inner[floor := inner[floor] + 1]]
  }

  /** A task submitted to the pool: `new CountingItems(item)` or `new CountingFloors(city, floor)`. */
  datatype Task = CountingItems(item: Item) | CountingFloors(city: string, floors: int32)

  /** The two shared maps together. */
  datatype State = State(itemMap: ItemCounts, floorCounterMap: FloorHistogram)

  /** Both maps at program start. */
  const Empty := State(map[], map[])

  /** Both maps keep their invariants. */
  ghost predicate ValidState(s: State)
  {
    PositiveCounts(s.itemMap) && ValidHistogram(s.floorCounterMap)
  }

  /** One task's `run`, atomic under the lock of the map it touches; the other map is untouched. */
  function Apply(s: State, t: Task): (r: State)
    ensures ValidState(s) ==> ValidState(r)
    ensures forall x :: Tally(r.itemMap, x) == Tally(s.itemMap, x) + (if t == CountingItems(x) then 1 else 0)
    ensures forall c, f :: FloorTally(r.floorCounterMap, c, f) ==
                           FloorTally(s.floorCounterMap, c, f) + (if t == CountingFloors(c, f) then 1 else 0)
    ensures t.CountingItems? ==> r.floorCounterMap == s.floorCounterMap
    ensures t.CountingFloors? ==> r.itemMap == s.itemMap
  {
    match t
    case CountingItems(x) => s.(itemMap := AddItem(s.itemMap, x))
    case CountingFloors(c, f) => s.(floorCounterMap := AddFloor(s.floorCounterMap, c, f))
  }

  /**
   The state after the pool has run the tasks of `schedule`, in that order,
   starting from `s`: the invariants are kept, and every tally has grown by
   the number of tasks for its key, whatever their order.
   */
  function Run(s: State, schedule: seq<Task>): (r: State)
    ensures ValidState(s) ==> ValidState(r)
    ensures forall x :: Tally(r.itemMap, x) == Tally(s.itemMap, x) + multiset(schedule)[CountingItems(x)]
    ensures forall c, f :: FloorTally(r.floorCounterMap, c, f) ==
                           FloorTally(s.floorCounterMap, c, f) + multiset(schedule)[CountingFloors(c, f)]
  {
    if schedule == [] then s
    else
      var init, t := schedule[..|schedule| - 1], schedule[|schedule| - 1];
      assert schedule == init + [t];
      assert multiset(schedule) == multiset(init) + multiset{t};
      Apply(Run(s, init), t)
  }

  /** The tasks the main loop submits: two per record, in input order. */
  function Submitted(records: seq<Item>): (ts: seq<Task>)
    ensures |ts| == 2 * |records|
    ensures forall i :: 0 <= i < |records| ==>
              ts[2 * i] == CountingItems(records[i]) && ts[2 * i + 1] == CountingFloors(records[i].city, records[i].floor)
  {
    if records == [] then []
    else
      var r := records[|records| - 1];
      Submitted(records[..|records| - 1]) + [CountingItems(r), CountingFloors(r.city, r.floor)]
  }

  /** Number of records of `city` with `floor` floors. */
  function CityFloorCount(records: seq<Item>, city: string, floor: int32): nat
  {
    if records == [] then 0
    else
      var r := records[|records| - 1];
      CityFloorCount(records[..|records| - 1], city, floor) + (if r.city == city && r.floor == floor then 1 else 0)
  }

  /** Number of records of `city`. */
  function CityCount(records: seq<Item>, city: string): nat
  {
    if records == [] then 0
    else
      var r := records[|records| - 1];
      CityCount(records[..|records| - 1], city) + (if r.city == city then 1 else 0)
  }

  /** Two valid item maps with the same tallies are the same map. */
  lemma ItemCountsDetermined(m1: ItemCounts, m2: ItemCounts)
    requires PositiveCounts(m1) && PositiveCounts(m2)
    requires forall x :: Tally(m1, x) == Tally(m2, x)
    ensures m1 == m2
  {
    assert forall x :: x in m1 <==> Tally(m1, x) >= 1;
    assert forall x :: x in m2 <==> Tally(m2, x) >= 1;
    assert m1.Keys == m2.Keys;
  }

  /** Two valid histograms with the same tallies are the same map. */
  lemma HistogramsDetermined(h1: FloorHistogram, h2: FloorHistogram)
    requires ValidHistogram(h1) && ValidHistogram(h2)
    requires forall c, f :: FloorTally(h1, c, f) == FloorTally(h2, c, f)
    ensures h1 == h2
  {
    forall c | c in h1 ensures c in h2 {
      var f :| f in h1[c];
      assert FloorTally(h1, c, f) >= 1;
    }
    forall c | c in h2 ensures c in h1 {
      var f :| f in h2[c];
      assert FloorTally(h2, c, f) >= 1;
    }
    forall c | c in h1 ensures h1[c] == h2[c] {
      assert forall f :: f in h1[c] <==> FloorTally(h1, c, f) >= 1;
      assert forall f :: f in h2[c] <==> FloorTally(h2, c, f) >= 1;
      assert h1[c].Keys == h2[c].Keys;
    }
    assert h1.Keys == h2.Keys;
  }

  /**
   The order in which the pool runs the tasks does not matter: any two
   schedules of the same tasks end in the same maps.
   */
  lemma ScheduleIndependent(a: seq<Task>, b: seq<Task>)
    requires multiset(a) == multiset(b)
    ensures Run(Empty, a) == Run(Empty, b)
  {
    ItemCountsDetermined(Run(Empty, a).itemMap, Run(Empty, b).itemMap);
    HistogramsDetermined(Run(Empty, a).floorCounterMap, Run(Empty, b).floorCounterMap);
  }

  /** The submitted tasks count each record once per counter. */
  lemma {:induction false} SubmittedTallies(records: seq<Item>)
    ensures forall x :: multiset(Submitted(records))[CountingItems(x)] == multiset(records)[x]
    ensures forall c, f :: multiset(Submitted(records))[CountingFloors(c, f)] == CityFloorCount(records, c, f)
  {
    if records != [] {
      var init, r := records[..|records| - 1], records[|records| - 1];
      SubmittedTallies(init);
      assert records == init + [r];
      assert multiset(records) == multiset(init) + multiset{r};
    }
  }

  /** Sum of the counts of an inner map: the number of buildings counted for one city. */
  ghost function Total(inner: map<int32, int>): int
    decreases |inner|
  {
    if inner == map[] then 0
    else
      var f :| f in inner;
      assert |(inner - {f}).Keys| < |inner.Keys| by {
        assert (inner - {f}).Keys == inner.Keys - {f};
      }
      inner[f] + Total(inner - {f})
  }

  /** `Total` may be split at any key, not only the one its definition picks. */
  lemma {:induction false} TotalWithout(inner: map<int32, int>, f: int32)
    requires f in inner
    ensures Total(inner) == inner[f] + Total(inner - {f})
    decreases |inner|
  {
    var g :| g in inner && Total(inner) == inner[g] + Total(inner - {g});
    if g != f {
      assert (inner - {g}).Keys == inner.Keys - {g};
      assert (inner - {f}).Keys == inner.Keys - {f};
      TotalWithout(inner - {g}, f);
      TotalWithout(inner - {f}, g);
      assert inner - {g} - {f} == inner - {f} - {g};
    }
  }

  /** A map of positive counts totals at least its number of keys. */
  lemma {:induction false} TotalAtLeastSize(inner: map<int32, int>)
    requires forall f :: f in inner ==> inner[f] >= 1
    ensures Total(inner) >= |inner|
    decreases |inner|
  {
    if inner != map[] {
      var f :| f in inner;
      assert (inner - {f}).Keys == inner.Keys - {f};
      TotalWithout(inner, f);
      TotalAtLeastSize(inner - {f});
    }
  }

  /** Number of buildings counted for `city` over all floor counts. */
  ghost function Buildings(h: FloorHistogram, city: string): int
  {
    if city in h then Total(h[city]) else 0
  }

  /** Counting one building adds one to its city's total and nothing elsewhere. */
  lemma AddFloorBuildings(h: FloorHistogram, city: string, floor: int32)
    ensures forall c :: Buildings(AddFloor(h, city, floor), c) == Buildings(h, c) + (if c == city then 1 else 0)
  {
    var r := AddFloor(h, city, floor);
    var inner := if city in h then h[city] else map[];
    TotalWithout(r[city], floor);
    assert r[city] - {floor} == inner - {floor};
    if floor in inner {
      TotalWithout(inner, floor);
    } else {
      assert inner - {floor} == inner;
    }
    assert city !in h ==> inner == map[] && Total(inner) == 0;
  }

  /** Running the submitted tasks in submission order gives every city its number of records. */
  lemma {:induction false} SubmittedBuildings(records: seq<Item>)
    ensures forall c :: Buildings(Run(Empty, Submitted(records)).floorCounterMap, c) == CityCount(records, c)
  {
    if records != [] {
      var init, r := records[..|records| - 1], records[|records| - 1];
      SubmittedBuildings(init);
      var before := Submitted(init);
      var ts := Submitted(records);
      var mid := before + [CountingItems(r)];
      assert ts == mid + [CountingFloors(r.city, r.floor)];
      assert ts[..|ts| - 1] == mid;
      assert mid[..|before|] == before;
      var s0 := Run(Empty, before);
      assert Run(Empty, mid) == Apply(s0, CountingItems(r));
      assert Run(Empty, ts) == Apply(Run(Empty, mid), CountingFloors(r.city, r.floor));
      assert Run(Empty, ts).floorCounterMap == AddFloor(s0.floorCounterMap, r.city, r.floor);
      AddFloorBuildings(s0.floorCounterMap, r.city, r.floor);
    }
  }

  /**
   After all submitted tasks have run, in any order: the count of a record is
   its number of occurrences, the count of (city, floor) is the number of
   such records, and the counts of a city sum to its number of records.
   */
  lemma FinalCounts(records: seq<Item>, schedule: seq<Task>)
    requires multiset(schedule) == multiset(Submitted(records))
    ensures ValidState(Run(Empty, schedule))
    ensures forall x :: Tally(Run(Empty, schedule).itemMap, x) == multiset(records)[x]
    ensures forall c, f :: FloorTally(Run(Empty, schedule).floorCounterMap, c, f) == CityFloorCount(records, c, f)
    ensures forall c :: Buildings(Run(Empty, schedule).floorCounterMap, c) == CityCount(records, c)
    ensures forall c :: c in Run(Empty, schedule).floorCounterMap <==> CityCount(records, c) > 0
  {
    FinalTallies(records, schedule);
    FinalBuildings(records, schedule);
  }

  /** The tallies part of `FinalCounts`. */
  lemma FinalTallies(records: seq<Item>, schedule: seq<Task>)
    requires multiset(schedule) == multiset(Submitted(records))
    ensures ValidState(Run(Empty, schedule))
    ensures forall x :: Tally(Run(Empty, schedule).itemMap, x) == multiset(records)[x]
    ensures forall c, f :: FloorTally(Run(Empty, schedule).floorCounterMap, c, f) == CityFloorCount(records, c, f)
  {
    SubmittedTallies(records);
    assert ValidState(Empty);
  }

  /** The city-total part of `FinalCounts`. */
  lemma FinalBuildings(records: seq<Item>, schedule: seq<Task>)
    requires multiset(schedule) == multiset(Submitted(records))
    ensures forall c :: Buildings(Run(Empty, schedule).floorCounterMap, c) == CityCount(records, c)
    ensures forall c :: c in Run(Empty, schedule).floorCounterMap <==> CityCount(records, c) > 0
  {
    ScheduleIndependent(schedule, Submitted(records));
    SubmittedBuildings(records);
    var h := Run(Empty, schedule).floorCounterMap;
    assert ValidState(Empty);
    assert ValidHistogram(h);
    forall c | c in h ensures Buildings(h, c) >= 1 {
      TotalAtLeastSize(h[c]);
    }
  }

  /** The stream filter `e.getValue() > 1` collected into a new map. */
  function Duplicates(m: ItemCounts): (d: ItemCounts)
    ensures forall x :: x in d <==> x in m && m[x] > 1
    ensures forall x :: x in d ==> d[x] == m[x]
  {
    map x | x in m && m[x] > 1 :: m[x]
  }

  /** Filtering the duplicates again changes nothing. */
  lemma DuplicatesIdempotent(m: ItemCounts)
    ensures Duplicates(Duplicates(m)) == Duplicates(m)
  {
  }

  /** The duplicates reported are exactly the records occurring more than once, with their number of occurrences. */
  lemma DuplicatesAreRepeatedRecords(records: seq<Item>, schedule: seq<Task>)
    requires multiset(schedule) == multiset(Submitted(records))
    ensures forall x :: x in Duplicates(Run(Empty, schedule).itemMap) <==> multiset(records)[x] > 1
    ensures forall x :: x in Duplicates(Run(Empty, schedule).itemMap) ==>
                         Duplicates(Run(Empty, schedule).itemMap)[x] == multiset(records)[x]
  {
    FinalCounts(records, schedule);
    var m := Run(Empty, schedule).itemMap;
    assert forall x :: x in m ==> m[x] == Tally(m, x);
    assert forall x :: x !in m ==> Tally(m, x) == 0;
  }

  /** The static fields `itemMap` and `floorCounterMap` of `Main`, with the two task bodies. */
  class Tallies {
    var itemMap: ItemCounts
    var floorCounterMap: FloorHistogram

    ghost predicate Valid()
      reads this
    {
      ValidState(Snapshot())
    }

    ghost function Snapshot(): State
      reads this
    {
      State(itemMap, floorCounterMap)
    }

    /** Both maps start empty. */
    constructor ()
      ensures Valid() && Snapshot() == Empty
    {
      itemMap := map[];
      floorCounterMap := map[];
    }

    /** `CountingItems.run`: increment-or-insert of the record's count, under the lock of `itemMap`. */
    method CountItem(newItem: Item)
      requires Valid()
      modifies this`itemMap
      ensures Valid()
      ensures newItem in itemMap
      ensures itemMap[newItem] == if newItem in old(itemMap) then old(itemMap)[newItem] + 1 else 1
      ensures forall x :: x != newItem ==> (x in itemMap <==> x in old(itemMap))
      ensures forall x :: x in old(itemMap) && x != newItem ==> itemMap[x] == old(itemMap)[x]
      ensures Snapshot() == Apply(old(Snapshot()), CountingItems(newItem))
    {
      if newItem !in itemMap {
        itemMap := itemMap[newItem := 1];
      } else {
        var innerRecordCounter := itemMap[newItem];
        itemMap := itemMap[newItem := innerRecordCounter + 1];
      }
    }

    /**
     `CountingFloors.run`: under the lock of `floorCounterMap`, a new city is
     inserted with `{floors: 1}`; otherwise the floor count inside the city's
     map is incremented or inserted with 1.
     */
    method CountFloors(city: string, floors: int32)
      requires Valid()
      modifies this`floorCounterMap
      ensures Valid()
      ensures city in floorCounterMap
      ensures city !in old(floorCounterMap) ==> floorCounterMap[city] == map[floors := 1]
      ensures city in old(floorCounterMap) ==>
                && floors in floorCounterMap[city]
                && floorCounterMap[city][floors] ==
                     (if floors in old(floorCounterMap)[city] then old(floorCounterMap)[city][floors] + 1 else 1)
                && (forall f :: f != floors ==> (f in floorCounterMap[city] <==> f in old(floorCounterMap)[city]))
                && (forall f :: f != floors && f in old(floorCounterMap)[city] ==>
                                  floorCounterMap[city][f] == old(floorCounterMap)[city][f])
      ensures forall c :: c != city ==> (c in floorCounterMap <==> c in old(floorCounterMap))
      ensures forall c :: c in old(floorCounterMap) && c != city ==> floorCounterMap[c] == old(floorCounterMap)[c]
      ensures Snapshot() == Apply(old(Snapshot()), CountingFloors(city, floors))
    {
      if city !in floorCounterMap {
        var innerFloorCounterMap := map[floors := 1];
        assert floors in innerFloorCounterMap;
        floorCounterMap := floorCounterMap[city := innerFloorCounterMap];
        return;
      }
      var innerFloorCounterMap := floorCounterMap[city];
      if floors !in innerFloorCounterMap {
        innerFloorCounterMap := innerFloorCounterMap[floors := 1];
      } else {
        var innerCounter := innerFloorCounterMap[floors];
        innerFloorCounterMap := innerFloorCounterMap[floors := innerCounter + 1];
      }
      floorCounterMap := floorCounterMap[city := innerFloorCounterMap];
    }

    /** The pool running the tasks of `schedule` one at a time, in that order. */
    method Execute(schedule: seq<Task>)
      requires Valid()
      modifies this`itemMap, this`floorCounterMap
      ensures Valid()
      ensures Snapshot() == Run(old(Snapshot()), schedule)
    {
      for i := 0 to |schedule|
        invariant Valid()
        invariant Snapshot() == Run(old(Snapshot()), schedule[..i])
      {
        assert schedule[..i + 1][..i] == schedule[..i];
        match schedule[i]
        case CountingItems(x) => CountItem(x);
        case CountingFloors(c, f) => CountFloors(c, f);
      }
      assert schedule[..|schedule|] == schedule;
    }
  }

  /**
   `main` from the first record to the end of `awaitTermination`: fresh
   empty maps, every submitted task run once in the order `schedule` the pool
   chose. The final maps hold the exact counts of the input.
   */
  method CountAll(records: seq<Item>, schedule: seq<Task>) returns (t: Tallies)
    requires multiset(schedule) == multiset(Submitted(records))
    ensures fresh(t) && t.Valid()
    ensures t.Snapshot() == Run(Empty, schedule) == Run(Empty, Submitted(records))
    ensures forall x :: Tally(t.itemMap, x) == multiset(records)[x]
    ensures forall c, f :: FloorTally(t.floorCounterMap, c, f) == CityFloorCount(records, c, f)
    ensures forall c :: Buildings(t.floorCounterMap, c) == CityCount(records, c)
  {
    t := new Tallies();
    t.Execute(schedule);
    FinalCounts(records, schedule);
    ScheduleIndependent(schedule, Submitted(records));
  }
}
