# Vehicle state history, modelled in Dafny

This project models the vehicle service of a small sales-tracking backend. A vehicle moves through
the lifecycle quoted → selling → sold. The service keeps two tables:

- the **Vehicle** table holds each vehicle's current make, model and state;
- the **StateLog** table is append-only and holds one timestamped entry per state the vehicle has entered.

The service offers five operations:

- `create` saves a vehicle in state quoted, together with its first log entry;
- `findAll` returns every vehicle;
- `findOne` returns one vehicle or fails with NotFound;
- `update` applies a partial patch and appends a log entry only for a genuine change of state;
- `findStateLog` rebuilds a vehicle's state at a point in time from the latest entry at or before that time.

The model also covers the request validators of the POST and PATCH bodies, and the two entity records.

Files:

- `wrappers.dfy` (module `Wrappers`): `Option` and `Result`.
- `entities.dfy` (module `Entities`): the `State` enum with its wire names, and the `Vehicle` and `StateLog` records.
- `dto.dfy` (module `Dto`): a loosely typed request field (`Missing | Str | Num`). It defines the two validators
  as functions that return the failed constraints of each property, the typed DTOs the service receives, and
  class-validator's default messages.
- `history.dfy` (module `StateHistory`): a vehicle's history (its `stateLogs`) as a filter of the log, and the
  point-in-time query `LatestAt` with its declarative characterisation `IsLatestAt`.
- `vehicle_service.dfy` (module `Vehicles`): the store as a value (`Store`) and its invariant (`Inv`). It gives
  the effect of create and update as functions of the store (`AfterCreate`, `AfterUpdate`, `UpdateResult`) with
  lemmas about them. The class `VehicleService` holds the vehicle map, the log sequence, one id counter per
  table and the clock, and its methods are proved to change those fields exactly as the functions say.
  Two client methods replay a sale. In `SaleScenario` a client creates a BMW X5 at time 1000. It reads the
  vehicle back, and looking up id 2 fails. At time 4600 it sets the state to sold, which appends a second log
  entry. Sending sold again with a new make changes the make and logs nothing. `StateLogScenario` queries the
  sold vehicle before its creation (NotFoundOn), between creation and sale (quoted) and after the sale (sold).
  It also queries an id that does not exist (NotFoundOn).

How the environment is modelled:

- The database's `CURRENT_TIMESTAMP` is the field `clock`. It only moves forward, through `AdvanceClock(dt)`,
  which stands for the time that passes between requests.
- Ids come from one counter per table, starting at 1 like a serial column.
- Timestamps are natural numbers.
- Each operation is atomic, as its transaction makes it in the source.
- The validated DTOs are the only input the service sees. A patch property is `Option`: `None` means the
  property is absent from the body. In the source the test `updateVehicleDto.state && …` is a presence test,
  because every enum value is a non-empty string.

Where the code and the intent stated elsewhere in the repository differ, the model follows the code:

- Nothing in the Vehicle entity or the service requires make and model to be non-empty. Only the request
  validators (`@IsNotEmpty` in src/vehicle/dto/create-vehicle.dto.ts:4-10) do, so the service stores
  whatever strings reach it.
- The end-to-end test expects a query made after a transition to give the new state
  (test/vehicle.e2e-spec.ts:369-376). This holds only when that transition was recorded strictly later than
  the one before it. The query orders by timestamp alone, so two entries with
  the same timestamp may come back in either order (`StateHistory.LatestAtAfterLast`, `Vehicles.StateLogAtNow`).

The audit-log invariant (`Vehicles.Inv`, part `AuditInv`) says that every stored vehicle has a non-empty
history. That history starts with quoted, ends with the vehicle's current state, and no two consecutive
entries carry the same state: one entry per genuine transition. Create, update and the passing of time keep
the invariant (`CreatePreservesInv`, `UpdatePreservesInv`, `TickPreservesInv`).

## Model

| member | source | states |
|---|---|---|
| `Entities.ParseState` | src/vehicle/entities/vehicle.entity.ts:17-22 | a text is accepted as a State exactly when it is that state's wire value (`quoted`, `selling`, `sold`, case-sensitive) |
| `Entities.NewVehicle` | src/vehicle/entities/vehicle.entity.ts:8-22 | a vehicle built from a create body keeps the given make and model, gets the generated id, and takes the column default state quoted |
| `Dto.ValidateCreate` | src/vehicle/dto/create-vehicle.dto.ts:3-11 | the create body has no error exactly when make and model are both non-empty strings; no error is reported on `state` |
| `Dto.ToCreateDto` | src/vehicle/dto/create-vehicle.dto.ts:3-11 | a body becomes a CreateVehicleDto exactly when it validates, carrying the same strings; otherwise the answer is the non-empty list of errors |
| `Dto.CreateRejectsEmptyMake` | src/vehicle/dto/create-vehicle.dto.ts:4-6 | a missing or empty make is the first error, with `isNotEmpty` among its constraints and the message "make should not be empty" |
| `Dto.CreateRejectsNonStringMake` | src/vehicle/dto/create-vehicle.dto.ts:5 | a numeric make is the first error, failing only `isString`, and yields "make must be a string" |
| `Dto.CreateRejectsEmptyModel` | src/vehicle/dto/create-vehicle.dto.ts:8-10 | with a valid make, a missing or empty model is the only error, with `isNotEmpty` and "model should not be empty" |
| `Dto.CreateRejectsNonStringModel` | src/vehicle/dto/create-vehicle.dto.ts:9 | with a valid make, a numeric model is the only error, exactly `isString` on model, and yields "model must be a string" |
| `Dto.CreateReportsEmptyModel` | src/vehicle/dto/create-vehicle.dto.ts:8-10 | whatever the make, a missing model is reported as `isNotEmpty` and `isString` on model, an empty one as `isNotEmpty` alone, with "model should not be empty" |
| `Dto.CreateReportsNonStringModel` | src/vehicle/dto/create-vehicle.dto.ts:9 | whatever the make, a numeric model is reported as exactly `isString` on model, with "model must be a string" |
| `Dto.ValidateUpdate` | src/vehicle/dto/update-vehicle.dto.ts:6-9 | the patch has no error exactly when each property is absent or valid: make and model non-empty strings, state a State's wire value |
| `Dto.ToUpdateDto` | src/vehicle/dto/update-vehicle.dto.ts:6-9 | a valid patch becomes an UpdateVehicleDto in which a property is None exactly when it was absent, and present values are the body's (the state parsed from its name) |
| `Dto.UpdateRejectsUnknownState` | src/vehicle/dto/update-vehicle.dto.ts:7-9 | a present state that is not an enum value is reported as exactly `isEnum` on state, with the message listing quoted, selling, sold |
| `Dto.UpdateRejectsNonStringMake` | src/vehicle/dto/update-vehicle.dto.ts:6 | a present numeric make is reported as exactly `isString`, with "make must be a string"; it is `errs[0]` under the model's make-first order |
| `Dto.UpdateRejectsNonStringModel` | src/vehicle/dto/update-vehicle.dto.ts:6 | a present numeric model is reported as exactly `isString`, with "model must be a string" |
| `Dto.UpdateRejectsEmptyMake` | src/vehicle/dto/update-vehicle.dto.ts:6 | an empty make is not "absent": it is refused with exactly `isNotEmpty` and "make should not be empty", as `errs[0]` under the model's make-first order |
| `Dto.UpdateRejectsEmptyModel` | src/vehicle/dto/update-vehicle.dto.ts:6 | an empty model is refused with exactly `isNotEmpty` and "model should not be empty" |
| `Dto.UpdateAcceptsOmitted` | src/vehicle/dto/update-vehicle.dto.ts:6-9 | patches that omit make, model, state or everything pass, and so does a patch with all three valid |
| `StateHistory.History` | src/vehicle/entities/vehicle.entity.ts:24-26 | a vehicle's `stateLogs` relation, as the log's entries for that vehicle in insertion order; its meaning is stated by `HistoryMember`, `HistoryAppend` and `HistoryOrdered` (its own ensures is only a length bound) |
| `StateHistory.HistoryMember` | src/vehicle/entities/vehicle.entity.ts:24-26 | a vehicle's `stateLogs` are exactly the log entries owned by that vehicle |
| `StateHistory.HistoryOrdered` | src/vehicle/entities/state-log.entity.ts:23-27 | when insertion-time stamps never decrease along the log, every vehicle's history is ordered by timestamp |
| `StateHistory.LatestAt` | src/vehicle/vehicle.service.ts:77-84 | a found entry belongs to the vehicle, is at or before t, and no entry of that vehicle at or before t is later; nothing is found exactly when no entry of the vehicle is at or before t |
| `StateHistory.LatestAtBeforeFirst` | src/vehicle/vehicle.service.ts:81-86 | before a vehicle's first entry the query finds nothing |
| `StateHistory.LatestAtAfterLast` | src/vehicle/vehicle.service.ts:81-84 | when the vehicle's last entry is at or before t and strictly later than the one before, every answer is that last entry, whatever other vehicles logged later |
| `Vehicles.EmptyStoreInv` | src/vehicle/vehicle.service.ts:11-17 | an empty database holds no vehicle and no entry and satisfies the invariant |
| `Vehicles.TickPreservesInv` | src/vehicle/entities/state-log.entity.ts:23-27 | time passing keeps the invariant, changes no row and never moves the clock back |
| `Vehicles.CreateEffect` | src/vehicle/vehicle.service.ts:19-33 | create gives a fresh id, the given make and model and state quoted; exactly one entry is appended, owned by the new vehicle, with its state, the current time and an unused id; the new vehicle's history is that entry; other vehicles and histories are unchanged; the saved vehicle is what a later findOne returns |
| `Vehicles.CreatePreservesInv` | src/vehicle/vehicle.service.ts:22-28 | create keeps the invariant: unique keys, foreign keys, ordered ids and timestamps, one entry per genuine transition, the latest entry equal to the current state |
| `Vehicles.ApplyPatch` | src/vehicle/vehicle.service.ts:56 | `Object.assign(vehicle, dto)`: its contract is given by `UpdateFields` (present properties overwrite, absent ones and the id are kept) |
| `Vehicles.IsTransition` | src/vehicle/vehicle.service.ts:60-63 | the guard of the log entry; its contract is given by `UpdateAuditLog` (the log grows exactly when the patch gives a state different from the state before) |
| `Vehicles.UpdateUnknownId` | src/vehicle/vehicle.service.ts:47-51 | update of an unknown id fails with NotFound(id) and leaves the whole store unchanged |
| `Vehicles.UpdateFields` | src/vehicle/vehicle.service.ts:55-58 | update of a stored vehicle succeeds for any patch; properties present in the patch are overwritten, absent ones and the id keep their values, and only that row of the table changes |
| `Vehicles.UpdateAuditLog` | src/vehicle/vehicle.service.ts:55-69 | the log changes if and only if the patch gives a state different from the state before; then exactly one entry is appended with the new state, the current time and an unused id, and only that vehicle's history grows by it |
| `Vehicles.UpdatePreservesInv` | src/vehicle/vehicle.service.ts:53-73 | update keeps the invariant, whether or not it logs |
| `Vehicles.StateLogFromCreation` | src/vehicle/vehicle.service.ts:77-86 | from the time of a vehicle's first entry on, the point-in-time query finds an entry |
| `Vehicles.StateLogBeforeCreation` | src/vehicle/vehicle.service.ts:81-89 | for a time before a stored vehicle's creation no entry qualifies, so findStateLog fails with NotFound |
| `Vehicles.StateLogAtNow` | src/vehicle/vehicle.service.ts:81-91 | asked about any time at or after the vehicle's latest transition, every answer carries the vehicle's current state, if that transition is strictly later than the one before |
| `Vehicles.KeysUnique` | src/vehicle/entities/state-log.entity.ts:13-14 | no two log entries share an id, and every vehicle is stored under its own id |
| `Vehicles.VehicleService.constructor` | src/vehicle/vehicle.service.ts:11-17 | a service over empty tables whose clock reads the given time satisfies the invariant |
| `Vehicles.VehicleService.AdvanceClock` | src/vehicle/entities/state-log.entity.ts:23-27 | the clock moves forward by dt, nothing else changes, and the invariant holds |
| `Vehicles.VehicleService.Create` | src/vehicle/vehicle.service.ts:19-33 | returns the created vehicle and changes the tables exactly as AfterCreate, keeping the invariant |
| `Vehicles.VehicleService.FindAll` | src/vehicle/vehicle.service.ts:35-37 | returns exactly the stored vehicles |
| `Vehicles.VehicleService.FindOne` | src/vehicle/vehicle.service.ts:39-45 | succeeds exactly when the id is stored, then with the stored vehicle; otherwise fails with NotFound(id) |
| `Vehicles.VehicleService.Update` | src/vehicle/vehicle.service.ts:47-74 | returns UpdateResult and changes the tables exactly as AfterUpdate, keeping the invariant |
| `Vehicles.VehicleService.FindStateLog` | src/vehicle/vehicle.service.ts:76-94 | fails with NotFoundOn(id, t) exactly when the id is unknown or no entry of it is at or before t; otherwise returns the stored vehicle with its state replaced by that of some latest entry at or before t; nothing is changed |

## Left out

- The HTTP controller (routing, `+params.id`, `new Date(timestamp)`) and the framework wiring: ValidationPipe
  with `whitelist`/`forbidNonWhitelisted`, the class serializer, dependency injection. These are framework
  behaviour, not service logic.
- `FindStateLogQuery` (ISO-8601 check by `IsDateString`) and `FindOneParams`: their grammars are not visible;
  timestamps are modelled as natural numbers and ids as integers.
- The exact NotFound texts, which embed JavaScript `Date` formatting. Only the error kind is modelled, with the
  id and the timestamp as its payload.
- Transactions, isolation and concurrent requests. Each operation is atomic. Storage failures have no error
  path in the model, because they come from the database, not from the service.
- The cascade on the owning vehicle: no delete operation exists. The model keeps only the foreign-key
  invariant (every entry belongs to a stored vehicle).
- The StateLog column default (quoted) is never used, because the service always supplies the state.
- JSON `null`, booleans, fractional numbers, objects and arrays as body values: the field type has only
  missing, string and integer.
- The order of `findAll`'s result is unspecified in the source, so the model returns a set.
- The order of errors across properties is the model's own choice: declaration order (make, model, state).
  class-validator is understood to list a class's own constraints before inherited ones, and
  `UpdateVehicleDto` inherits make and model through `PartialType`, so it would report `state` first. The
  library's source is not part of this model. When the state is also invalid, `Dto.UpdateRejectsNonStringMake`
  and `Dto.UpdateRejectsEmptyMake` place make at `errs[0]` only under the model's order.
- The tie-break among log entries with equal timestamps: `LatestAt` computes one answer, but the service
  promises only some entry with the greatest timestamp at or before t.
- StateHistory.LatestAtAfterLast: requires that the vehicle's last entry be strictly later than the one
  before, because the query orders by timestamp alone and may return either of two entries with equal times.
- Vehicles.StateLogAtNow: requires that the vehicle's last transition be strictly later than the one before,
  because with equal timestamps the source's query may return either entry.
