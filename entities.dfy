/**
 * The two persisted records, Vehicle and StateLog, and the enumeration of
 * lifecycle states that both store.
 */
module Entities {
  import opened Wrappers

  /** The sales lifecycle of a vehicle. */
  datatype State = Quoted | Selling | Sold

  /** Both enum columns default to `quoted`. */
  const DefaultState: State := Quoted

  /** The value of a State on the wire and in the database enum. */
  function StateName(s: State): string
  {
    match s
    case Quoted => "quoted"
    case Selling => "selling"
    case Sold => "sold"
  }

  /**
   * The membership test behind the enum column and `IsEnum`: a text names a
   * State exactly when it is that state's wire value (case-sensitive).
   */
  function ParseState(text: string): (r: Option<State>)
    ensures forall s: State :: r == Some(s) <==> StateName(s) == text
  {
    if text == "quoted" then Some(Quoted)
    else if text == "selling" then Some(Selling)
    else if text == "sold" then Some(Sold)
    else None
  }

  /**
   * A row of the Vehicle table. The one-to-many `stateLogs` relation is not a
   * field here: it is the vehicle's history in the log (StateHistory.History),
   * and it is never part of a returned vehicle.
   */
  datatype Vehicle = Vehicle(id: int, make: string, model: string, state: State)

  /**
   * A row of the StateLog table. `vehicleId` is the foreign key of the owning
   * vehicle; `timestamp` is the insertion time, never supplied by the service.
   */
  datatype StateLog = StateLog(id: int, vehicleId: int, state: State, timestamp: nat)

  /**
   * The vehicle as saving a create body stores it: make and model as given,
   * and the id and the state (its column default) both filled in by the save.
   */
  function NewVehicle(id: int, make: string, model: string): (v: Vehicle)
    ensures v.state == Quoted
    ensures v.id == id && v.make == make && v.model == model
  {
    Vehicle(id, make, model, DefaultState)
  }
}
