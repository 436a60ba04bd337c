# Building statistics: duplicate records and floor histograms

The program reads `<item>` elements (city, street, house number, number of
floors) from an XML file. For every record it submits two tasks to a fixed
thread pool:

- `CountingItems` increments or inserts the record's count in `itemMap`.
- `CountingFloors` increments or inserts the floor count in the city's inner
  `TreeMap` inside `floorCounterMap`. A city seen for the first time is
  created with `{floor: 1}`.

After the pool has drained, the program prints two sections:

- Section I lists the records whose count is above 1.
- Section II walks `floorCounterMap` with cities in ascending order and, inside
  each city, floor counts in ascending order.

This project models that counting core in Dafny:

- `Items.dfy`: the `Item` record, `equals` and `hashCode`. `hashCode` is
  modelled with Java's 32-bit wrap-around.
- `Ordering.dfy`: the order a `TreeMap<String, _>` uses (`String.compareTo`),
  the proof that it is a strict total order, and the ascending walk over a key
  set.
- `Counting.dfy`: the two task bodies as value-level steps (`AddItem`,
  `AddFloor`) and as methods of the class `Tallies`, which holds the two maps.
  The pool's run is the fold `Run` over a schedule, which may be any
  permutation of the submitted tasks. This file holds the order-independence
  and exact-count theorems and the duplicate filter.
- `Report.dfy`: the Section II walk, with its numbering counter
  `serviceCounter`.
- `Example.dfy`: a four-record input worked through to its final maps.

Each `run` body executes inside a `synchronized` block on its map, so each
task is one atomic step. The thread pool is represented by the `schedule`
parameter: every submitted task runs exactly once, in that order. Because the
steps commute, the final maps depend only on the multiset of tasks
(`ScheduleIndependent`). Each count is the number of matching records
(`FinalCounts`).

Both occurrences of a repeated record count as buildings in the floor
histogram. In the worked example, CityA therefore has two 3-floor buildings
(`Example.ExampleReport`).

## Model

| member | source | states |
|---|---|---|
| Items.Equals | src/main/java/Main.java:197-206 | `equals` holds exactly when the argument is an Item with the same city, street, house and floor. `null` and objects of another class are never equal. |
| Items.StreetDistinguishes | src/main/java/Main.java:202-205 | Two records that differ only in the street are not equal, in either direction. |
| Items.Wrap | src/main/java/Main.java:210 | Java `int` arithmetic: the result is the int32 that is congruent to the exact value modulo 2^32. |
| Items.HashStep | src/main/java/Main.java:210 | One step `31 * result + h` of `Objects.hash` is congruent to its exact value modulo 2^32. |
| Items.StringHash | src/main/java/Main.java:210 | `String.hashCode`, the loop `h = 31 * h + c` in `int` arithmetic, is the exact polynomial hash of the characters reduced modulo 2^32. |
| Items.HashCode | src/main/java/Main.java:208-211 | `hashCode` equals 31^4 + 31^3·hash(city) + 31^2·hash(street) + 31·house + floor modulo 2^32, so it hashes exactly the four fields that `equals` compares. |
| Items.HashConsistentWithEquals | src/main/java/Main.java:198-211 | Items that are equal under `equals` have equal `hashCode`s. |
| Ordering.StrLess | src/main/java/Main.java:15 | `a.compareTo(b) < 0`, computed character by character, holds exactly when `a` is below `b` in the lexicographic order: at the first differing index `a` has the smaller character, or `a` is a proper prefix of `b`. |
| Ordering.StringOrder | src/main/java/Main.java:15 | The `String` order is a strict total order. |
| Ordering.AscendingKeys | src/main/java/Main.java:81-86 | A sorted map's keys are walked in ascending order, each key exactly once. |
| Counting.AddItem | src/main/java/Main.java:99-104 | An increment-or-insert adds one to the tally of the item and leaves every other tally unchanged. The key set gains only the item, and positive counts stay positive. |
| Counting.AddFloor | src/main/java/Main.java:120-137 | The update adds one to the (city, floor) tally and leaves every other tally unchanged. Other cities keep their inner maps, and a new city gets the single key `floor`. The histogram invariant is preserved: no empty inner map, all counts at least 1. |
| Counting.Apply | src/main/java/Main.java:96-139 | One task's `run` keeps both map invariants. It adds one to the tally of its own key and leaves every other tally unchanged. It leaves the other task kind's map untouched. |
| Counting.Submitted | src/main/java/Main.java:35-48 | The main loop submits two tasks per record, in input order: task 2i counts record i and task 2i+1 counts its city and floor. |
| Counting.Run | src/main/java/Main.java:96-139 | Running any sequence of tasks, in that order, keeps the map invariants. Each tally grows by the number of tasks for its key in the sequence, whatever their order. |
| Counting.ScheduleIndependent | src/main/java/Main.java:44-45 | Two schedules that are permutations of each other end in the same maps, so the pool's order does not matter. |
| Counting.SubmittedTallies | src/main/java/Main.java:43-45 | Among the submitted tasks, a record's count task occurs once per occurrence of the record. A (city, floor) task occurs once per record with that city and floor count. |
| Counting.AddFloorBuildings | src/main/java/Main.java:120-137 | A floor update raises the touched city's building total by one and leaves every other city's total unchanged. |
| Counting.SubmittedBuildings | src/main/java/Main.java:44-45 | After the submitted tasks run in submission order, each city's building total equals its number of records. |
| Counting.FinalCounts | src/main/java/Main.java:35-58 | For every schedule of the submitted tasks, each record's count equals its number of occurrences. Each (city, floor) count equals the number of such records. A city's counts sum to its number of records. A city is present exactly when it has at least one record. |
| Counting.FinalTallies | src/main/java/Main.java:35-58 | For every schedule of the submitted tasks, the maps are valid, each record's count equals its number of occurrences, and each (city, floor) count equals the number of such records. |
| Counting.FinalBuildings | src/main/java/Main.java:35-58 | For every schedule of the submitted tasks, a city's counts sum to its number of records, and a city is present exactly when it has at least one record. |
| Counting.Duplicates | src/main/java/Main.java:60-62 | The filter keeps exactly the entries whose count is greater than 1, with their counts unchanged. |
| Counting.DuplicatesIdempotent | src/main/java/Main.java:60-62 | Applying the filter to its own output gives the same map. |
| Counting.DuplicatesAreRepeatedRecords | src/main/java/Main.java:60-62 | After a full run in any order, the filtered map holds exactly the records that occur more than once, each with its number of occurrences. |
| Counting.Tallies.constructor | src/main/java/Main.java:14-15 | Both maps start empty. |
| Counting.Tallies.CountItem | src/main/java/Main.java:96-106 | `CountingItems.run` sets the item's count to the old count + 1, or to 1 if the item was absent. Every other key and count is unchanged, no key is removed, and `floorCounterMap` is not touched. |
| Counting.Tallies.CountFloors | src/main/java/Main.java:118-139 | `CountingFloors.run` inserts a new city with `{floors: 1}`. Otherwise the floor's count inside the city becomes the old count + 1, or 1 if the floor was absent. Other floors of that city, other cities and `itemMap` are unchanged. The histogram invariant holds. |
| Counting.Tallies.Execute | src/main/java/Main.java:44-58 | Running the tasks of a schedule one at a time leaves the maps equal to the fold `Run` of that schedule. |
| Counting.CountAll | src/main/java/Main.java:30-58 | From fresh maps, running every submitted task once in any pool order gives exact occurrence counts, exact (city, floor) counts and exact city totals. The result is the same as running the tasks in submission order. |
| Report.FloorLines | src/main/java/Main.java:84-86 | The inner loop lists each entry of a city's map once, with its count, in strictly ascending floor order. |
| Report.SectionII | src/main/java/Main.java:80-87 | Section II has one block per city, with cities in strictly ascending `String` order. Block i is numbered i + 1, every city of the map appears, and each block lists that city's inner map in ascending floor order. |
| Report.SectionCountsAddUp | src/main/java/Main.java:80-87 | After a full run in any order, the counts printed under each city heading of Section II add up to that city's number of records. |
| Example.ExampleReport | src/main/java/Main.java:35-87 | For the input (CityA, St1, 10, 3) twice, (CityA, St2, 11, 5) and (CityB, St3, 20, 3), in any schedule, the duplicates map is exactly {(CityA, St1, 10, 3): 2}. The histogram is CityA → {3: 2, 5: 1} and CityB → {3: 1}. |

## Left out

Line numbers below refer to src/main/java/Main.java.

- XML reading with StAX, including the element-name test and error messages (lines 18-28, 35-52): foreign library and file I/O. Input is a given sequence of records.
- `Integer.parseInt` and its exceptions (lines 41-42): foreign call. House and floor are already-parsed `int32` values.
- The thread pool, `shutdown` and `awaitTermination` with its one-minute timeout (lines 30-31, 53-58): concurrency and timing. A `schedule` parameter stands for the pool's order, and each task runs atomically. A report taken after a timeout, over partially updated maps, is not modelled. `CountAll` requires that every submitted task ran exactly once.
- `synchronized` (lines 98, 119): replaced by the atomicity of each step.
- Identity of the inner `TreeMap` objects: inner maps are values. The counting tasks reach an inner map only through `floorCounterMap`, under its lock. The Section II report reads the inner maps without the lock, but only after the pool has drained. No inner map is shared or aliased, so no sharing is observable.
- Console output, string concatenation and `Item.toString` (lines 66-87, 192-195): only the structure and order of Section II are kept, as `CityBlock` and `FloorLine` values. Section I's numbering follows `HashMap` iteration order, which is unspecified, so it is not modelled.
- Getters, setters and the no-argument constructor of `Item` (lines 150, 159-189): `Item` is an immutable datatype.
- Counter overflow: counts are mathematical integers, not 32-bit `Integer`s.
- Ordering.StrLess: compares characters as Unicode scalar values. `String.compareTo` compares UTF-16 code units, so the two orders can differ for strings with characters above U+FFFF.
- Items.StringHash: hashes one unit per Dafny character. Java hashes UTF-16 code units, so characters above U+FFFF are hashed differently.
