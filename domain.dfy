/**
 * The object model: a meter reading, a building holding its readings in
 * insertion order, and a manager mapping building names to buildings. The
 * pipeline's main block feeds every cleaned row into a fresh manager.
 */
module Domain {
  import opened Meter
  import opened GroupBy

  /** `MeterReading`: a (timestamp, kwh) pair, never changed after creation. */
  datatype MeterReading = MeterReading(timestamp: Timestamp, kwh: int)

  /** `sum(r.kwh for r in readings)`. */
  function ReadingsTotal(rs: seq<MeterReading>): int
  {
    if |rs| == 0 then 0 else ReadingsTotal(rs[..|rs| - 1]) + rs[|rs| - 1].kwh
  }

  class Building {
    const name: string
    var readings: seq<MeterReading>

    constructor (name: string)
      ensures this.name == name && readings == []
    {
      this.name := name;
      readings := [];
    }

    /** `add_reading`: appends one reading at the end. */
    method AddReading(timestamp: Timestamp, kwh: int)
      modifies this
      ensures readings == old(readings) + [MeterReading(timestamp, kwh)]
      ensures TotalConsumption() == old(TotalConsumption()) + kwh
    {
      readings := readings + [MeterReading(timestamp, kwh)];
      assert readings[..|readings| - 1] == old(readings);
    }

    /** `total_consumption`: recomputed from the readings on every call. */
    function TotalConsumption(): int
      reads this
    {
      ReadingsTotal(readings)
    }
  }

  /** The registry after recording `reading` for `name`, creating the building first if it is unknown. */
  function Recorded(reg: map<string, seq<MeterReading>>, name: string, reading: MeterReading): map<string, seq<MeterReading>>
  {
    reg[name := (if name in reg then reg[name] else []) + [reading]]
  }

  class BuildingManager {
    var buildings: map<string, Building>

    /** Each building is stored under its own name, so no two names share a building. */
    ghost predicate Valid()
      reads this
    {
      forall n :: n in buildings ==> buildings[n].name == n
    }

    /** The readings of every building, by name. */
    ghost function Registry(): map<string, seq<MeterReading>>
      reads this, buildings.Values
    {
      map n | n in buildings :: buildings[n].readings
    }

    constructor ()
      ensures Valid() && buildings == map[]
    {
      buildings := map[];
    }

    /** `add_building`: stores a new, empty building under `name`, replacing any building already there. */
    method AddBuilding(name: string)
      requires Valid()
      modifies this
      ensures Valid()
      ensures buildings.Keys == old(buildings.Keys) + {name}
      ensures fresh(buildings[name]) && buildings[name].readings == []
      ensures forall n :: n in old(buildings) && n != name ==> buildings[n] == old(buildings[n])
      ensures Registry() == old(Registry())[name := []]
    {
      var b := new Building(name);
      buildings := buildings[name := b];
    }

    /**
     * `add_reading_to_building`: creates the building if `name` is unknown,
     * then appends the reading to it; a known building is kept, not re-created.
     */
    method AddReadingToBuilding(name: string, timestamp: Timestamp, kwh: int)
      requires Valid()
      modifies this, if name in buildings then {buildings[name]} else {}
      ensures Valid()
      ensures buildings.Keys == old(buildings.Keys) + {name}
      ensures name in old(buildings) ==> buildings[name] == old(buildings[name])
      ensures name !in old(buildings) ==> fresh(buildings[name])
      ensures forall n :: n in old(buildings) && n != name ==> buildings[n] == old(buildings[n])
      ensures Registry() == Recorded(old(Registry()), name, MeterReading(timestamp, kwh))
      ensures buildings[name].TotalConsumption()
           == (if name in old(buildings) then old(buildings[name].TotalConsumption()) else 0) + kwh
    {
      if name !in buildings {
        AddBuilding(name);
      }
      buildings[name].AddReading(timestamp, kwh);
    }
  }

  /** The readings that rows of the cleaned table become, in order. */
  function ReadingsOf(s: seq<Row>): (rs: seq<MeterReading>)
    ensures |rs| == |s|
    ensures forall i :: 0 <= i < |s| ==> rs[i] == MeterReading(s[i].timestamp, s[i].kwh)
  {
    if |s| == 0 then [] else ReadingsOf(s[..|s| - 1]) + [MeterReading(s[|s| - 1].timestamp, s[|s| - 1].kwh)]
  }

  /** The registry after feeding the rows one by one, as the main block's loop does. */
  function Fed(rows: seq<Row>): map<string, seq<MeterReading>>
  {
    if |rows| == 0 then map[]
    else
      var r := rows[|rows| - 1];
      Recorded(Fed(rows[..|rows| - 1]), r.building, MeterReading(r.timestamp, r.kwh))
  }

  /** Feeding the rows files each row under its building, keeping table order within a building. */
  lemma {:induction false} FedGroupsByBuilding(rows: seq<Row>)
    ensures Fed(rows).Keys == Buildings(rows)
    ensures forall b :: b in Fed(rows) ==> Fed(rows)[b] == ReadingsOf(Where(rows, BuildingKey, b))
    decreases |rows|
  {
    if |rows| > 0 {
      var pre := rows[..|rows| - 1];
      var r := rows[|rows| - 1];
      FedGroupsByBuilding(pre);
      assert rows == pre + [r];
      assert Buildings(rows) == Buildings(pre) + {r.building};
      forall b | b in Fed(rows) ensures Fed(rows)[b] == ReadingsOf(Where(rows, BuildingKey, b)) {
        if b == r.building {
          if b !in Buildings(pre) {
            WhereOfAbsentKey(pre, BuildingKey, b);
          }
          var w := Where(pre, BuildingKey, b);
          assert ReadingsOf(w + [r])[..|w|] == ReadingsOf(w);
        }
      }
    }
  }

  lemma {:induction false} ReadingsTotalOfRows(s: seq<Row>)
    ensures ReadingsTotal(ReadingsOf(s)) == SumKwh(s)
    decreases |s|
  {
    if |s| > 0 {
      ReadingsTotalOfRows(s[..|s| - 1]);
      assert ReadingsOf(s)[..|s| - 1] == ReadingsOf(s[..|s| - 1]);
    }
  }

  /**
   * The main block's loop: a fresh manager receives every row through
   * `add_reading_to_building`; each building's total consumption is then
   * the sum of its rows' kwh.
   */
  method FeedManager(rows: seq<Row>) returns (manager: BuildingManager)
    ensures fresh(manager) && manager.Valid()
    ensures manager.Registry() == Fed(rows)
    ensures manager.buildings.Keys == Buildings(rows)
    ensures forall b :: b in manager.buildings ==>
      manager.buildings[b].TotalConsumption() == SumKwh(Where(rows, BuildingKey, b))
  {
    manager := new BuildingManager();
    var i := 0;
    while i < |rows|
      invariant 0 <= i <= |rows|
      invariant fresh(manager) && manager.Valid()
      invariant forall n :: n in manager.buildings ==> fresh(manager.buildings[n])
      invariant manager.Registry() == Fed(rows[..i])
    {
      var r := rows[i];
      assert rows[..i + 1][..i] == rows[..i];
      manager.AddReadingToBuilding(r.building, r.timestamp, r.kwh);
      i := i + 1;
    }
    assert rows[..|rows|] == rows;
    FedGroupsByBuilding(rows);
    assert manager.buildings.Keys == manager.Registry().Keys;
    forall b | b in manager.buildings
      ensures manager.buildings[b].TotalConsumption() == SumKwh(Where(rows, BuildingKey, b))
    {
      assert manager.buildings[b].readings == manager.Registry()[b];
      ReadingsTotalOfRows(Where(rows, BuildingKey, b));
    }
  }
}
