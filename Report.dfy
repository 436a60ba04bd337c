/**
 Section II of the report: the per-city floor histogram, walked the way the
 nested `TreeMap`s yield it, cities ascending and, inside each city, floor
 counts ascending. Section I is left to `Counting.Duplicates`.
 */
module Report {
  import opened Items
  import opened Ordering
  import opened Counting

  /** One line ` <floor>-floor(s): <count>`. */
  datatype FloorLine = FloorLine(floor: int32, count: int)

  /** One numbered city heading `<number>. <city>` with the floor lines under it. */
  datatype CityBlock = CityBlock(number: int, city: string, floors: seq<FloorLine>)

  /** Numeric order of `Integer` keys. */
  predicate IntLess(a: int32, b: int32)
  {
    a < b
  }

  /** The floor lines of a city are exactly the entries of its inner map, floors strictly ascending. */
  ghost predicate ListsInner(lines: seq<FloorLine>, inner: map<int32, int>)
  {
    && (forall i, j :: 0 <= i < j < |lines| ==> lines[i].floor < lines[j].floor)
    && (forall i :: 0 <= i < |lines| ==> lines[i].floor in inner && lines[i].count == inner[lines[i].floor])
    && (forall f :: f in inner ==> exists i :: 0 <= i < |lines| && lines[i].floor == f)
  }

  /** The inner loop: one line per entry of a city's `TreeMap<Integer, Integer>`, in key order. */
  method FloorLines(inner: map<int32, int>) returns (lines: seq<FloorLine>)
    ensures ListsInner(lines, inner)
    ensures |lines| == |inner|
  {
    var floors := AscendingKeys(inner.Keys, IntLess);
    lines := [];
    for j := 0 to |floors|
      invariant |lines| == j
      invariant forall i :: 0 <= i < j ==> lines[i] == FloorLine(floors[i], inner[floors[i]])
    {
      lines := lines + [FloorLine(floors[j], inner[floors[j]])];
    }
    forall f | f in inner ensures exists i :: 0 <= i < |lines| && lines[i].floor == f {
      var i :| 0 <= i < |floors| && floors[i] == f;
      assert lines[i].floor == f;
    }
  }

  /** Block `b` is the `number`-th heading, for `city`, and lists that city's inner map. */
  ghost predicate Describes(b: CityBlock, number: int, city: string, h: FloorHistogram)
  {
    b.number == number && b.city == city && city in h && ListsInner(b.floors, h[city])
  }

  /**
   The outer loop over `floorCounterMap.entrySet()`: one block per city, in
   ascending `String` order, numbered from 1 by `serviceCounter`, each
   listing that city's floor counts.
   */
  method SectionII(h: FloorHistogram) returns (blocks: seq<CityBlock>)
    ensures |blocks| == |h|
    ensures forall i, j :: 0 <= i < j < |blocks| ==> StrLess(blocks[i].city, blocks[j].city)
    ensures forall c :: c in h ==> exists i :: 0 <= i < |blocks| && blocks[i].city == c
    ensures forall i :: 0 <= i < |blocks| ==> Describes(blocks[i], i + 1, blocks[i].city, h)
  {
    assert IsStrictTotalOrder(StrLess) by {
      StringOrder();
    }
    var cities := AscendingKeys(h.Keys, StrLess);
    blocks := [];
    var serviceCounter := 1;
    for i := 0 to |cities|
      invariant serviceCounter == i + 1
      invariant |blocks| == i
      invariant forall k :: 0 <= k < i ==> Describes(blocks[k], k + 1, cities[k], h)
    {
      var lines := FloorLines(h[cities[i]]);
      blocks := blocks + [CityBlock(serviceCounter, cities[i], lines)];
      serviceCounter := serviceCounter + 1;
    }
    forall c | c in h ensures exists i :: 0 <= i < |blocks| && blocks[i].city == c {
      var i :| 0 <= i < |cities| && cities[i] == c;
      assert Describes(blocks[i], i + 1, cities[i], h);
    }
  }

  /**
   Section II accounts for every building of the input once: after all
   submitted tasks have run, in any order, the counts under a city's heading
   add up to that city's number of records.
   */
  lemma SectionCountsAddUp(records: seq<Item>, schedule: seq<Task>, blocks: seq<CityBlock>)
    requires multiset(schedule) == multiset(Submitted(records))
    requires forall i :: 0 <= i < |blocks| ==> Describes(blocks[i], i + 1, blocks[i].city, Run(Empty, schedule).floorCounterMap)
    ensures forall i :: 0 <= i < |blocks| ==> LinesTotal(blocks[i].floors) == CityCount(records, blocks[i].city)
  {
    FinalCounts(records, schedule);
    var h := Run(Empty, schedule).floorCounterMap;
    forall i | 0 <= i < |blocks| ensures LinesTotal(blocks[i].floors) == CityCount(records, blocks[i].city) {
      assert Describes(blocks[i], i + 1, blocks[i].city, h);
      LinesTotalIsTotal(blocks[i].floors, h[blocks[i].city]);
    }
  }

  /** Sum of the counts printed under one city heading. */
  function LinesTotal(lines: seq<FloorLine>): int
  {
    if lines == [] then 0 else LinesTotal(lines[..|lines| - 1]) + lines[|lines| - 1].count
  }

  /** The printed counts of a city add up to the total of its inner map. */
  lemma {:induction false} LinesTotalIsTotal(lines: seq<FloorLine>, inner: map<int32, int>)
    requires ListsInner(lines, inner)
    ensures LinesTotal(lines) == Total(inner)
    decreases |lines|
  {
    if lines == [] {
      assert forall f :: f !in inner;
      assert inner == map[];
    } else {
      var init, last := lines[..|lines| - 1], lines[|lines| - 1];
      var rest := inner - {last.floor};
      forall f | f in rest ensures exists i :: 0 <= i < |init| && init[i].floor == f {
        var i :| 0 <= i < |lines| && lines[i].floor == f;
        assert i != |lines| - 1;
        assert init[i].floor == f;
      }
      forall i | 0 <= i < |init| ensures init[i].floor in rest {
        assert lines[i].floor < last.floor;
      }
      assert ListsInner(init, rest);
      LinesTotalIsTotal(init, rest);
      TotalWithout(inner, last.floor);
    }
  }
}
