/**
 * The vehicle service: a table of vehicles and an append-only state log,
 * with create, findAll, findOne, update and the point-in-time findStateLog.
 *
 * The effect of each state-changing operation is first given as a function of
 * the whole store (AfterCreate, AfterUpdate); the lemmas prove what those
 * functions promise, and the methods of VehicleService are proved to change
 * their fields exactly as the functions say.
 */
module Vehicles {
  import opened Wrappers
  import opened Entities
  import opened Dto
  import opened StateHistory

  /** The NotFoundException of the service, with what its message names. */
  datatype ServiceError =
    | NotFound(id: int)                     // "Vehicle with ID <id> not found"
    | NotFoundOn(id: int, timestamp: nat)   // "Vehicle with ID <id> not found on <timestamp>."

  /**
   * Everything the service's two repositories hold: the Vehicle table keyed by
   * id, the StateLog table in insertion order, the next value of each table's
   * id sequence, and the database clock behind CURRENT_TIMESTAMP.
   */
  datatype Store = Store(
    vehicles: map<int, Vehicle>,
    logs: seq<StateLog>,
    nextVehicleId: int,
    nextLogId: int,
    clock: nat)

  /**
   * The history of a vehicle whose current state is `current`: it starts with
   * the default state recorded at creation, ends with the current state, and
   * every entry after the first records a genuine change of state.
   */
  predicate GenuineHistory(h: seq<StateLog>, current: State)
  {
    && h != []
    && h[0].state == DefaultState
    && h[|h| - 1].state == current
    && forall k | 0 <= k < |h| - 1 :: h[k].state != h[k + 1].state
  }

  /** Generated primary keys: a vehicle is stored under its own id, and the sequence is past every id. */
  predicate KeysInv(s: Store)
  {
    && s.nextVehicleId >= 1
    && forall id | id in s.vehicles :: s.vehicles[id].id == id && 1 <= id < s.nextVehicleId
  }

  /**
   * Every log entry belongs to an existing vehicle and was stamped no later
   * than now; ids and timestamps grow with insertion order.
   */
  predicate LogInv(s: Store)
  {
    && s.nextLogId >= 1
    && (forall e | e in s.logs :: e.vehicleId in s.vehicles && 1 <= e.id < s.nextLogId && e.timestamp <= s.clock)
    && (forall i, j | 0 <= i < j < |s.logs| :: s.logs[i].id < s.logs[j].id)
    && TimeOrdered(s.logs)
  }

  /** The audit log: one entry per genuine transition, the latest one the current state. */
  predicate AuditInv(s: Store)
  {
    forall id | id in s.vehicles :: GenuineHistory(History(s.logs, id), s.vehicles[id].state)
  }

  /** The invariant that create, update and the passing of time keep. */
  predicate Inv(s: Store)
  {
    KeysInv(s) && LogInv(s) && AuditInv(s)
  }

  /** An empty database whose clock reads `now`. */
  function EmptyStore(now: nat): Store
  {
    Store(map[], [], 1, 1, now)
  }

  /** Time passes between requests; nothing else changes. */
  function Tick(s: Store, dt: nat): Store
  {
    s.(clock := s.clock + dt)
  }

  /** The vehicle that create saves and returns. */
  function Created(s: Store, dto: CreateVehicleDto): Vehicle
  {
    NewVehicle(s.nextVehicleId, dto.make, dto.model)
  }

  /** The store after create: the saved vehicle and its first log entry, in one transaction. */
  function AfterCreate(s: Store, dto: CreateVehicleDto): Store
  {
    var v := Created(s, dto);
    s.(vehicles := s.vehicles[v.id := v],
       logs := s.logs + [StateLog(s.nextLogId, v.id, v.state, s.clock)],
       nextVehicleId := s.nextVehicleId + 1,
       nextLogId := s.nextLogId + 1)
  }

  /** `Object.assign(vehicle, dto)`: the properties present in the patch overwrite the vehicle's. */
  function ApplyPatch(v: Vehicle, p: UpdateVehicleDto): Vehicle
  {
    v.(make := if p.make.Some? then p.make.value else v.make,
       model := if p.model.Some? then p.model.value else v.model,
       state := if p.state.Some? then p.state.value else v.state)
  }

  /** The guard of the second save: a state is given and it is not the state before the update. */
  predicate IsTransition(before: State, p: UpdateVehicleDto)
  {
    p.state.Some? && before != p.state.value
  }

  /** What update returns. */
  function UpdateResult(s: Store, id: int, p: UpdateVehicleDto): Result<Vehicle, ServiceError>
  {
    if id !in s.vehicles then Err(NotFound(id)) else Ok(ApplyPatch(s.vehicles[id], p))
  }

  /** The store after update; an unknown id is refused before the transaction starts. */
  function AfterUpdate(s: Store, id: int, p: UpdateVehicleDto): Store
  {
    if id !in s.vehicles then s
    else
      var before := s.vehicles[id];
      var after := ApplyPatch(before, p);
      if IsTransition(before.state, p) then
        s.(vehicles := s.vehicles[id := after],
           logs := s.logs + [StateLog(s.nextLogId, id, after.state, s.clock)],
           nextLogId := s.nextLogId + 1)
      else
        s.(vehicles := s.vehicles[id := after])
  }

  // ---- the empty database and the clock ----------------------------------

  /** An empty database satisfies the invariant. */
  lemma EmptyStoreInv(now: nat)
    ensures Inv(EmptyStore(now))
    ensures EmptyStore(now).vehicles == map[] && EmptyStore(now).logs == []
  {
  }

  /** Time passing keeps the invariant and leaves both tables as they were. */
  lemma TickPreservesInv(s: Store, dt: nat)
    requires Inv(s)
    ensures Inv(Tick(s, dt))
    ensures Tick(s, dt).vehicles == s.vehicles && Tick(s, dt).logs == s.logs
    ensures Tick(s, dt).clock >= s.clock
  {
  }

  // ---- create ------------------------------------------------------------

  /**
   * create saves a vehicle with a fresh id, the given make and model and the
   * state quoted, and appends exactly one log entry, for that vehicle, with
   * its state and the current time; every other vehicle and every older entry
   * is left as it was.
   */
  lemma {:induction false} CreateEffect(s: Store, dto: CreateVehicleDto)
    requires Inv(s)
    ensures var v := Created(s, dto); var s' := AfterCreate(s, dto);
      && v.id !in s.vehicles
      && v.make == dto.make && v.model == dto.model && v.state == Quoted
      && s'.vehicles.Keys == s.vehicles.Keys + {v.id}
      && s'.vehicles[v.id] == v
      && (forall id | id in s.vehicles :: s'.vehicles[id] == s.vehicles[id])
      && |s'.logs| == |s.logs| + 1 && s'.logs[..|s.logs|] == s.logs
      && s'.logs[|s.logs|].vehicleId == v.id
      && s'.logs[|s.logs|].state == v.state
      && s'.logs[|s.logs|].timestamp == s.clock
      && (forall e | e in s.logs :: e.id != s'.logs[|s.logs|].id)
      && History(s'.logs, v.id) == [s'.logs[|s.logs|]]
      && (forall id | id in s.vehicles :: History(s'.logs, id) == History(s.logs, id))
      && s'.clock == s.clock
  {
    var v := Created(s, dto);
    var s' := AfterCreate(s, dto);
    var e := StateLog(s.nextLogId, v.id, v.state, s.clock);
    assert s'.logs == s.logs + [e];
    HistoryEmpty(s.logs, v.id);
    HistoryAppend(s.logs, e, v.id);
    forall id | id in s.vehicles ensures History(s'.logs, id) == History(s.logs, id) {
      HistoryAppend(s.logs, e, id);
    }
  }

  /** Appending one entry for an existing vehicle, stamped now, with the next id, keeps LogInv. */
  lemma {:induction false} AppendKeepsLogInv(s: Store, s': Store, e: StateLog)
    requires LogInv(s)
    requires s'.logs == s.logs + [e] && s'.nextLogId == s.nextLogId + 1 && s'.clock == s.clock
    requires s.vehicles.Keys <= s'.vehicles.Keys
    requires e.id == s.nextLogId && e.timestamp == s.clock && e.vehicleId in s'.vehicles
    ensures LogInv(s')
  {
    forall f | f in s'.logs
      ensures f.vehicleId in s'.vehicles && 1 <= f.id < s'.nextLogId && f.timestamp <= s'.clock
    {
      if f != e {
        assert f in s.logs;
      }
    }
    forall i, j | 0 <= i < j < |s'.logs|
      ensures s'.logs[i].id < s'.logs[j].id && s'.logs[i].timestamp <= s'.logs[j].timestamp
    {
      assert s'.logs[i] == s.logs[i];
      assert s.logs[i] in s.logs;
      if j < |s.logs| {
        assert s'.logs[j] == s.logs[j];
      }
    }
  }

  /** create keeps the invariant. */
  lemma {:induction false} CreatePreservesInv(s: Store, dto: CreateVehicleDto)
    requires Inv(s)
    ensures Inv(AfterCreate(s, dto))
  {
    var s' := AfterCreate(s, dto);
    var v := Created(s, dto);
    var e := StateLog(s.nextLogId, v.id, v.state, s.clock);
    assert s'.logs == s.logs + [e];
    assert KeysInv(s');
    AppendKeepsLogInv(s, s', e);
    CreateAudit(s, dto);
  }

  /** create keeps AuditInv: the new vehicle's history is its one entry, the others' are unchanged. */
  lemma {:induction false} CreateAudit(s: Store, dto: CreateVehicleDto)
    requires Inv(s)
    ensures AuditInv(AfterCreate(s, dto))
  {
    var s' := AfterCreate(s, dto);
    var v := Created(s, dto);
    var e := StateLog(s.nextLogId, v.id, v.state, s.clock);
    assert s'.logs == s.logs + [e];
    assert v.id !in s.vehicles;
    HistoryEmpty(s.logs, v.id);
    HistoryAppend(s.logs, e, v.id);
    assert GenuineHistory(History(s'.logs, v.id), v.state);
    forall id | id in s'.vehicles
      ensures GenuineHistory(History(s'.logs, id), s'.vehicles[id].state)
    {
      if id != v.id {
        HistoryAppend(s.logs, e, id);
        assert s'.vehicles[id] == s.vehicles[id];
      }
    }
  }

  // ---- update ------------------------------------------------------------

  /** update of an unknown id throws NotFound and changes neither table. */
  lemma UpdateUnknownId(s: Store, id: int, p: UpdateVehicleDto)
    requires id !in s.vehicles
    ensures UpdateResult(s, id, p) == Err(NotFound(id))
    ensures AfterUpdate(s, id, p) == s
  {
  }

  /**
   * update of a stored vehicle succeeds whatever the patch holds; it
   * overwrites exactly the properties present in the patch, keeps the id, and
   * saves the result in place of the old row.
   */
  lemma UpdateFields(s: Store, id: int, p: UpdateVehicleDto)
    requires id in s.vehicles
    ensures var r := UpdateResult(s, id, p); var old_v := s.vehicles[id];
      && r.Ok?
      && r.value.id == old_v.id
      && (p.make.None? ==> r.value.make == old_v.make)
      && (p.make.Some? ==> r.value.make == p.make.value)
      && (p.model.None? ==> r.value.model == old_v.model)
      && (p.model.Some? ==> r.value.model == p.model.value)
      && (p.state.None? ==> r.value.state == old_v.state)
      && (p.state.Some? ==> r.value.state == p.state.value)
      && AfterUpdate(s, id, p).vehicles == s.vehicles[id := r.value]
      && AfterUpdate(s, id, p).nextVehicleId == s.nextVehicleId
      && AfterUpdate(s, id, p).clock == s.clock
  {
  }

  /**
   * update appends a log entry if and only if the patch gives a state that
   * differs from the state before the update, and then exactly one, carrying
   * the new state and the current time. Only the updated vehicle's history
   * grows; make or model alone, or a state equal to the current one, leave the
   * log untouched.
   */
  lemma {:induction false} UpdateAuditLog(s: Store, id: int, p: UpdateVehicleDto)
    requires Inv(s)
    requires id in s.vehicles
    ensures var s' := AfterUpdate(s, id, p); var before := s.vehicles[id].state;
      && ((s'.logs != s.logs) <==> (p.state.Some? && p.state.value != before))
      && (p.state.Some? && p.state.value != before ==>
            && |s'.logs| == |s.logs| + 1 && s'.logs[..|s.logs|] == s.logs
            && s'.logs[|s.logs|].vehicleId == id
            && s'.logs[|s.logs|].state == p.state.value
            && s'.logs[|s.logs|].timestamp == s.clock
            && (forall e | e in s.logs :: e.id != s'.logs[|s.logs|].id)
            && History(s'.logs, id) == History(s.logs, id) + [s'.logs[|s.logs|]])
      && (forall other | other in s.vehicles && other != id :: History(s'.logs, other) == History(s.logs, other))
  {
    var s' := AfterUpdate(s, id, p);
    var before := s.vehicles[id];
    if IsTransition(before.state, p) {
      var e := StateLog(s.nextLogId, id, p.state.value, s.clock);
      assert s'.logs == s.logs + [e];
      HistoryAppend(s.logs, e, id);
      forall other | other in s.vehicles && other != id
        ensures History(s'.logs, other) == History(s.logs, other)
      {
        HistoryAppend(s.logs, e, other);
      }
    }
  }

  /** update keeps the invariant: the current state is still the last one logged. */
  lemma {:induction false} UpdatePreservesInv(s: Store, id: int, p: UpdateVehicleDto)
    requires Inv(s)
    ensures Inv(AfterUpdate(s, id, p))
  {
    if id in s.vehicles {
      var s' := AfterUpdate(s, id, p);
      var before := s.vehicles[id];
      assert s'.vehicles.Keys == s.vehicles.Keys;
      assert KeysInv(s');
      if IsTransition(before.state, p) {
        var e := StateLog(s.nextLogId, id, p.state.value, s.clock);
        assert s'.logs == s.logs + [e];
        AppendKeepsLogInv(s, s', e);
      } else {
        assert s'.logs == s.logs;
        assert LogInv(s');
      }
      UpdateAudit(s, id, p);
    }
  }

  /** update keeps AuditInv: a genuine transition extends the history by its new state, nothing else changes it. */
  lemma {:induction false} UpdateAudit(s: Store, id: int, p: UpdateVehicleDto)
    requires Inv(s)
    requires id in s.vehicles
    ensures AuditInv(AfterUpdate(s, id, p))
  {
    var s' := AfterUpdate(s, id, p);
    var before := s.vehicles[id];
    var h := History(s.logs, id);
    assert GenuineHistory(h, before.state);
    if IsTransition(before.state, p) {
      var e := StateLog(s.nextLogId, id, p.state.value, s.clock);
      assert s'.logs == s.logs + [e];
      HistoryAppend(s.logs, e, id);
      assert GenuineHistory(h + [e], s'.vehicles[id].state);
      forall other | other in s'.vehicles
        ensures GenuineHistory(History(s'.logs, other), s'.vehicles[other].state)
      {
        if other != id {
          HistoryAppend(s.logs, e, other);
          assert s'.vehicles[other] == s.vehicles[other];
        }
      }
    } else {
      assert s'.logs == s.logs;
      forall other | other in s'.vehicles
        ensures GenuineHistory(History(s'.logs, other), s'.vehicles[other].state)
      {
        if other != id {
          assert s'.vehicles[other] == s.vehicles[other];
        }
      }
    }
  }

  // ---- findStateLog ------------------------------------------------------

  /** From the moment a vehicle was created on, the point-in-time query finds an entry. */
  lemma {:induction false} StateLogFromCreation(s: Store, id: int, t: nat)
    requires Inv(s)
    requires id in s.vehicles
    requires t >= History(s.logs, id)[0].timestamp
    ensures LatestAt(s.logs, id, t).Some?
  {
    var h := History(s.logs, id);
    assert h[0] in h;
    HistoryMember(s.logs, id, h[0]);
  }

  /** Before a vehicle was created the point-in-time query finds nothing. */
  lemma {:induction false} StateLogBeforeCreation(s: Store, id: int, t: nat)
    requires Inv(s)
    requires id in s.vehicles
    requires t < History(s.logs, id)[0].timestamp
    ensures forall e | e in s.logs :: !(e.vehicleId == id && e.timestamp <= t)
  {
    LatestAtBeforeFirst(s.logs, id, t);
  }

  /**
   * Asked about any time at or after the vehicle's latest transition, the
   * query answers with the current state, provided that transition was
   * recorded strictly after the one before it (entries with equal timestamps
   * are not ordered by the query).
   */
  lemma {:induction false} StateLogAtNow(s: Store, id: int, t: nat, e: StateLog)
    requires Inv(s)
    requires id in s.vehicles
    requires var h := History(s.logs, id);
      t >= h[|h| - 1].timestamp && (|h| == 1 || h[|h| - 2].timestamp < h[|h| - 1].timestamp)
    requires IsLatestAt(s.logs, e, id, t)
    ensures e.state == s.vehicles[id].state
  {
    LatestAtAfterLast(s.logs, id, t, e);
  }

  // ---- identity ----------------------------------------------------------

  /** Generated keys are unique: no two log entries share an id, and a vehicle's key is its id. */
  lemma {:induction false} KeysUnique(s: Store)
    requires Inv(s)
    ensures forall i, j | 0 <= i < |s.logs| && 0 <= j < |s.logs| && i != j :: s.logs[i].id != s.logs[j].id
    ensures forall id | id in s.vehicles :: s.vehicles[id].id == id
  {
    forall i, j | 0 <= i < |s.logs| && 0 <= j < |s.logs| && i != j
      ensures s.logs[i].id != s.logs[j].id
    {
      if i < j {
        assert s.logs[i].id < s.logs[j].id;
      } else {
        assert s.logs[j].id < s.logs[i].id;
      }
    }
  }

  /** The service over an in-memory copy of the two tables. */
  class VehicleService {
    var vehicles: map<int, Vehicle>
    var logs: seq<StateLog>
    var nextVehicleId: int
    var nextLogId: int
    var clock: nat

    /** The tables as one value. */
    function Snapshot(): Store
      reads this
    {
      Store(vehicles, logs, nextVehicleId, nextLogId, clock)
    }

    predicate Valid()
      reads this
    {
      Inv(Snapshot())
    }

    /** A service over an empty database whose clock reads `now`. */
    constructor (now: nat)
      ensures Valid()
      ensures Snapshot() == EmptyStore(now)
    {
      vehicles := map[];
      logs := [];
      nextVehicleId := 1;
      nextLogId := 1;
      clock := now;
    }

    /** Time passes between requests. */
    method AdvanceClock(dt: nat)
      requires Valid()
      modifies this
      ensures Valid()
      ensures Snapshot() == Tick(old(Snapshot()), dt)
    {
      clock := clock + dt;
    }

    /** `create`: save the vehicle, then its first log entry. */
    method Create(dto: CreateVehicleDto) returns (v: Vehicle)
      requires Valid()
      modifies this
      ensures Valid()
      ensures v == Created(old(Snapshot()), dto)
      ensures Snapshot() == AfterCreate(old(Snapshot()), dto)
    {
      ghost var s := Snapshot();
      CreatePreservesInv(s, dto);
      v := NewVehicle(nextVehicleId, dto.make, dto.model);
      vehicles := vehicles[v.id := v];
      nextVehicleId := nextVehicleId + 1;
      var stateLog := StateLog(nextLogId, v.id, v.state, clock);
      logs := logs + [stateLog];
      nextLogId := nextLogId + 1;
    }

    /** `findAll`: every stored vehicle, in no particular order. */
    method FindAll() returns (all: set<Vehicle>)
      requires Valid()
      ensures forall v :: v in all <==> v.id in vehicles && vehicles[v.id] == v
    {
      all := set id | id in vehicles :: vehicles[id];
    }

    /** `findOne`. */
    method FindOne(id: int) returns (r: Result<Vehicle, ServiceError>)
      ensures r.Ok? <==> id in vehicles
      ensures r.Ok? ==> r.value == vehicles[id]
      ensures r.Err? ==> r.error == NotFound(id)
    {
      if id !in vehicles {
        return Err(NotFound(id));
      }
      r := Ok(vehicles[id]);
    }

    /** `update`: look the vehicle up, assign the patch, save it, and log a genuine transition. */
    method Update(id: int, patch: UpdateVehicleDto) returns (r: Result<Vehicle, ServiceError>)
      requires Valid()
      modifies this
      ensures Valid()
      ensures r == UpdateResult(old(Snapshot()), id, patch)
      ensures Snapshot() == AfterUpdate(old(Snapshot()), id, patch)
    {
      ghost var s := Snapshot();
      UpdatePreservesInv(s, id, patch);
      if id !in vehicles {
        return Err(NotFound(id));
      }
      var vehicle := vehicles[id];
      var stateBeforeUpdate := vehicle.state;
      vehicle := ApplyPatch(vehicle, patch);
      vehicles := vehicles[id := vehicle];
      if patch.state.Some? && stateBeforeUpdate != patch.state.value {
        var stateLog := StateLog(nextLogId, id, vehicle.state, clock);
        logs := logs + [stateLog];
        nextLogId := nextLogId + 1;
      }
      r := Ok(vehicle);
      assert Snapshot() == AfterUpdate(s, id, patch);
    }

    /**
     * `findStateLog`: the stored vehicle with its state replaced by that of a
     * latest entry at or before `t`; NotFound when the id is unknown and when
     * no entry is that early.
     */
    method FindStateLog(id: int, t: nat) returns (r: Result<Vehicle, ServiceError>)
      ensures r.Err? <==> id !in vehicles || forall e | e in logs :: !(e.vehicleId == id && e.timestamp <= t)
      ensures r.Err? ==> r.error == NotFoundOn(id, t)
      ensures r.Ok? ==> id in vehicles && exists e :: IsLatestAt(logs, e, id, t) && r.value == vehicles[id].(state := e.state)
    {
      if id !in vehicles {
        return Err(NotFoundOn(id, t));
      }
      var stateLog := LatestAt(logs, id, t);
      if stateLog.None? {
        return Err(NotFoundOn(id, t));
      }
      var vehicle := vehicles[id];
      vehicle := vehicle.(state := stateLog.value.state);
      r := Ok(vehicle);
    }
  }

  /**
   * A client: create a BMW X5, read it back, sell it an hour later, and
   * re-assert the sale together with a new make.
   */
  method SaleScenario()
  {
    SaleStores();
    var service := new VehicleService(1000);
    var v := service.Create(CreateVehicleDto("BMW", "X5"));
    assert v == Vehicle(1, "BMW", "X5", Quoted);
    var found := service.FindOne(v.id);
    assert found == Ok(v);
    var missing := service.FindOne(2);
    assert missing == Err(NotFound(2));

    service.AdvanceClock(3600);
    var sold := service.Update(v.id, UpdateVehicleDto(None, None, Some(Sold)));
    assert sold == Ok(Vehicle(1, "BMW", "X5", Sold));
    assert service.logs == [StateLog(1, 1, Quoted, 1000), StateLog(2, 1, Sold, 4600)];
    var again := service.Update(v.id, UpdateVehicleDto(Some("M5"), None, Some(Sold)));
    assert again == Ok(Vehicle(1, "M5", "X5", Sold));
    assert service.logs == [StateLog(1, 1, Quoted, 1000), StateLog(2, 1, Sold, 4600)];
  }

  /** The stores of the sale: a BMW X5 created at time 1000, and the same store sold at time 4600. */
  lemma {:induction false} SaleStores()
    ensures AfterCreate(EmptyStore(1000), CreateVehicleDto("BMW", "X5"))
      == Store(map[1 := Vehicle(1, "BMW", "X5", Quoted)], [StateLog(1, 1, Quoted, 1000)], 2, 2, 1000)
    ensures AfterUpdate(Store(map[1 := Vehicle(1, "BMW", "X5", Quoted)], [StateLog(1, 1, Quoted, 1000)], 2, 2, 4600),
                        1, UpdateVehicleDto(None, None, Some(Sold)))
      == Store(map[1 := Vehicle(1, "BMW", "X5", Sold)],
               [StateLog(1, 1, Quoted, 1000), StateLog(2, 1, Sold, 4600)], 2, 3, 4600)
  {
    assert map[][1 := Vehicle(1, "BMW", "X5", Quoted)] == map[1 := Vehicle(1, "BMW", "X5", Quoted)];
  }

  /** A service holding one BMW X5, quoted at time 1000 and sold at 4600; the clock reads 4660. */
  method SoldVehicle() returns (service: VehicleService)
    ensures fresh(service)
    ensures service.logs == [StateLog(1, 1, Quoted, 1000), StateLog(2, 1, Sold, 4600)]
    ensures service.vehicles == map[1 := Vehicle(1, "BMW", "X5", Sold)]
  {
    SaleStores();
    service := new VehicleService(1000);
    var v := service.Create(CreateVehicleDto("BMW", "X5"));
    service.AdvanceClock(3600);
    var sold := service.Update(1, UpdateVehicleDto(None, None, Some(Sold)));
    service.AdvanceClock(60);
  }

  /**
   * A client of the point-in-time query: the sold vehicle asked about before
   * its creation, between creation and sale, after the sale, and an id that
   * does not exist.
   */
  method StateLogScenario()
  {
    var service := SoldVehicle();
    var e0, e1 := StateLog(1, 1, Quoted, 1000), StateLog(2, 1, Sold, 4600);
    var before := service.FindStateLog(1, 999);
    assert before == Err(NotFoundOn(1, 999));
    var between := service.FindStateLog(1, 2000);
    assert between == Ok(Vehicle(1, "BMW", "X5", Quoted));
    var after := service.FindStateLog(1, 5000);
    assert e1 in service.logs;
    assert after == Ok(Vehicle(1, "BMW", "X5", Sold));
    var missing := service.FindStateLog(999999, 5000);
    assert missing == Err(NotFoundOn(999999, 5000));
  }
}
