/**
 * The request validators of the two vehicle bodies. A body reaches the
 * service only when its validator reports no error; the validator then hands
 * the service a typed DTO.
 */
module Dto {
  import opened Wrappers
  import opened Entities

  /** One field of a request body as the JSON parser hands it over. */
  datatype Json = Missing | Str(text: string) | Num(number: int)

  /** The validated properties, in declaration order. */
  datatype Property = MakeProp | ModelProp | StateProp

  /** The class-validator constraints the DTOs declare. */
  datatype Constraint = IsNotEmpty | IsString | IsEnum

  /** One property that failed, with every constraint it failed. */
  datatype FieldError = FieldError(property: Property, constraints: set<Constraint>)

  /** A POST body. */
  datatype CreateBody = CreateBody(make: Json, model: Json)

  /** A PATCH body. */
  datatype UpdateBody = UpdateBody(make: Json, model: Json, state: Json)

  /** CreateVehicleDto once validated. */
  datatype CreateVehicleDto = CreateVehicleDto(make: string, model: string)

  /** UpdateVehicleDto once validated: None is a property absent from the body. */
  datatype UpdateVehicleDto = UpdateVehicleDto(make: Option<string>, model: Option<string>, state: Option<State>)

  /** class-validator's `isNotEmpty`: anything but an absent value and the empty string. */
  predicate NotEmpty(v: Json)
  {
    v != Missing && v != Str("")
  }

  /** The constraints that a property decorated `@IsNotEmpty() @IsString()` fails. */
  function TextFailures(v: Json): set<Constraint>
  {
    (if NotEmpty(v) then {} else {IsNotEmpty}) + (if v.Str? then {} else {IsString})
  }

  /** `@IsOptional()` (added to every property by `PartialType`) skips the checks of an absent value. */
  function OptionalTextFailures(v: Json): set<Constraint>
  {
    if v.Missing? then {} else TextFailures(v)
  }

  /** `@IsOptional() @IsEnum(VehicleStateEnum)`. */
  function StateFailures(v: Json): set<Constraint>
  {
    if v.Missing? then {}
    else if v.Str? && ParseState(v.text).Some? then {}
    else {IsEnum}
  }

  /** The error of one property, or none when it failed nothing. */
  function Report(p: Property, failed: set<Constraint>): seq<FieldError>
  {
    if failed == {} then [] else [FieldError(p, failed)]
  }

  /** Validation of CreateVehicleDto: make and model must each be a non-empty string. */
  function ValidateCreate(b: CreateBody): (errs: seq<FieldError>)
    ensures errs == [] <==>
      (b.make.Str? && b.make.text != "" && b.model.Str? && b.model.text != "")
    ensures forall e | e in errs :: e.constraints != {} && e.property != StateProp
  {
    Report(MakeProp, TextFailures(b.make)) + Report(ModelProp, TextFailures(b.model))
  }

  /**
   * Validation of UpdateVehicleDto: every property is optional, a present make
   * or model must be a non-empty string, a present state must name a State.
   */
  function ValidateUpdate(b: UpdateBody): (errs: seq<FieldError>)
    ensures errs == [] <==>
      && (b.make.Missing? || (b.make.Str? && b.make.text != ""))
      && (b.model.Missing? || (b.model.Str? && b.model.text != ""))
      && (b.state.Missing? || (b.state.Str? && ParseState(b.state.text).Some?))
    ensures forall e | e in errs :: e.constraints != {}
  {
    Report(MakeProp, OptionalTextFailures(b.make))
    + Report(ModelProp, OptionalTextFailures(b.model))
    + Report(StateProp, StateFailures(b.state))
  }

  /** The body as the service receives it, or the errors that answer it with 400. */
  function ToCreateDto(b: CreateBody): (r: Result<CreateVehicleDto, seq<FieldError>>)
    ensures r.Ok? <==> ValidateCreate(b) == []
    ensures r.Ok? ==> Str(r.value.make) == b.make && Str(r.value.model) == b.model
    ensures r.Err? ==> r.error == ValidateCreate(b) && r.error != []
  {
    var errs := ValidateCreate(b);
    if errs == [] then Ok(CreateVehicleDto(b.make.text, b.model.text)) else Err(errs)
  }

  /** The field of a patch: present or not. */
  function OptionalText(v: Json): Option<string>
    requires v.Missing? || v.Str?
  {
    if v.Missing? then None else Some(v.text)
  }

  /** The patch as the service receives it, or the errors that answer it with 400. */
  function ToUpdateDto(b: UpdateBody): (r: Result<UpdateVehicleDto, seq<FieldError>>)
    ensures r.Ok? <==> ValidateUpdate(b) == []
    ensures r.Ok? ==> (r.value.make.None? <==> b.make.Missing?)
    ensures r.Ok? ==> (r.value.model.None? <==> b.model.Missing?)
    ensures r.Ok? ==> (r.value.state.None? <==> b.state.Missing?)
    ensures r.Ok? && r.value.make.Some? ==> b.make == Str(r.value.make.value) && r.value.make.value != ""
    ensures r.Ok? && r.value.model.Some? ==> b.model == Str(r.value.model.value) && r.value.model.value != ""
    ensures r.Ok? && r.value.state.Some? ==> b.state == Str(StateName(r.value.state.value))
    ensures r.Err? ==> r.error == ValidateUpdate(b) && r.error != []
  {
    var errs := ValidateUpdate(b);
    if errs == [] then
      Ok(UpdateVehicleDto(OptionalText(b.make), OptionalText(b.model),
                          if b.state.Missing? then None else ParseState(b.state.text)))
    else Err(errs)
  }

  /** class-validator's default message for a failed constraint, with the property's name filled in. */
  function Message(p: Property, c: Constraint): string
  {
    match (p, c)
    case (MakeProp, IsNotEmpty) => "make should not be empty"
    case (MakeProp, IsString) => "make must be a string"
    case (MakeProp, IsEnum) => "make must be one of the following values: quoted, selling, sold"
    case (ModelProp, IsNotEmpty) => "model should not be empty"
    case (ModelProp, IsString) => "model must be a string"
    case (ModelProp, IsEnum) => "model must be one of the following values: quoted, selling, sold"
    case (StateProp, IsNotEmpty) => "state should not be empty"
    case (StateProp, IsString) => "state must be a string"
    case (StateProp, IsEnum) => "state must be one of the following values: quoted, selling, sold"
  }

  /** Every message of a 400 answer. */
  function Messages(errs: seq<FieldError>): set<string>
  {
    set e, c | e in errs && c in e.constraints :: Message(e.property, c)
  }

  /** A constraint that a reported property failed contributes its message. */
  lemma MessageOf(errs: seq<FieldError>, e: FieldError, c: Constraint)
    requires e in errs && c in e.constraints
    ensures Message(e.property, c) in Messages(errs)
  {
  }

  // ---- create body -------------------------------------------------------

  /** A missing or empty make is reported first, as `isNotEmpty` on make. */
  lemma CreateRejectsEmptyMake(b: CreateBody)
    requires b.make == Missing || b.make == Str("")
    ensures var errs := ValidateCreate(b);
      errs != [] && errs[0].property == MakeProp && IsNotEmpty in errs[0].constraints
      && "make should not be empty" in Messages(errs)
  {
    var errs := ValidateCreate(b);
    MessageOf(errs, errs[0], IsNotEmpty);
  }

  /** A non-string make is reported first, as `isString` on make. */
  lemma CreateRejectsNonStringMake(b: CreateBody)
    requires b.make.Num?
    ensures var errs := ValidateCreate(b);
      errs != [] && errs[0] == FieldError(MakeProp, {IsString})
      && "make must be a string" in Messages(errs)
  {
    var errs := ValidateCreate(b);
    MessageOf(errs, errs[0], IsString);
  }

  /** With a valid make, a missing or empty model is the only error, `isNotEmpty` on model. */
  lemma CreateRejectsEmptyModel(b: CreateBody)
    requires b.make.Str? && b.make.text != ""
    requires b.model == Missing || b.model == Str("")
    ensures var errs := ValidateCreate(b);
      |errs| == 1 && errs[0].property == ModelProp && IsNotEmpty in errs[0].constraints
      && "model should not be empty" in Messages(errs)
  {
    var errs := ValidateCreate(b);
    MessageOf(errs, errs[0], IsNotEmpty);
  }

  /** With a valid make, a non-string model is the only error, `isString` on model. */
  lemma CreateRejectsNonStringModel(b: CreateBody)
    requires b.make.Str? && b.make.text != ""
    requires b.model.Num?
    ensures var errs := ValidateCreate(b);
      errs == [FieldError(ModelProp, {IsString})] && "model must be a string" in Messages(errs)
  {
    var errs := ValidateCreate(b);
    assert TextFailures(b.model) == {IsString};
    MessageOf(errs, errs[0], IsString);
  }

  /**
   * Whatever the make, a missing model is reported as both `isNotEmpty` and
   * `isString` on model, and an empty model as `isNotEmpty` alone.
   */
  lemma CreateReportsEmptyModel(b: CreateBody)
    requires b.model == Missing || b.model == Str("")
    ensures var errs := ValidateCreate(b);
      && FieldError(ModelProp, if b.model == Missing then {IsNotEmpty, IsString} else {IsNotEmpty}) in errs
      && "model should not be empty" in Messages(errs)
  {
    var errs := ValidateCreate(b);
    var front := Report(MakeProp, TextFailures(b.make));
    var e := FieldError(ModelProp, if b.model == Missing then {IsNotEmpty, IsString} else {IsNotEmpty});
    assert errs[|front|] == e;
    MessageOf(errs, e, IsNotEmpty);
  }

  /** Whatever the make, a non-string model is reported as exactly `isString` on model. */
  lemma CreateReportsNonStringModel(b: CreateBody)
    requires b.model.Num?
    ensures var errs := ValidateCreate(b);
      FieldError(ModelProp, {IsString}) in errs && "model must be a string" in Messages(errs)
  {
    var errs := ValidateCreate(b);
    assert TextFailures(b.model) == {IsString};
    var front := Report(MakeProp, TextFailures(b.make));
    assert errs[|front|] == FieldError(ModelProp, {IsString});
    MessageOf(errs, errs[|front|], IsString);
  }

  // ---- update body -------------------------------------------------------

  /** A present state that is no State is reported as `isEnum` on state, with the enum's values. */
  lemma UpdateRejectsUnknownState(b: UpdateBody)
    requires b.state != Missing
    requires !b.state.Str? || ParseState(b.state.text).None?
    ensures var errs := ValidateUpdate(b);
      FieldError(StateProp, {IsEnum}) in errs
      && "state must be one of the following values: quoted, selling, sold" in Messages(errs)
  {
    var errs := ValidateUpdate(b);
    assert errs[|errs| - 1] == FieldError(StateProp, {IsEnum});
    MessageOf(errs, FieldError(StateProp, {IsEnum}), IsEnum);
  }

  /** A present but non-string make is reported as `isString` on make. */
  lemma UpdateRejectsNonStringMake(b: UpdateBody)
    requires b.make.Num?
    ensures var errs := ValidateUpdate(b);
      errs != [] && errs[0] == FieldError(MakeProp, {IsString}) && "make must be a string" in Messages(errs)
  {
    var errs := ValidateUpdate(b);
    assert TextFailures(b.make) == {IsString};
    MessageOf(errs, errs[0], IsString);
  }

  /** A present but non-string model is reported as `isString` on model. */
  lemma UpdateRejectsNonStringModel(b: UpdateBody)
    requires b.model.Num?
    ensures var errs := ValidateUpdate(b);
      FieldError(ModelProp, {IsString}) in errs && "model must be a string" in Messages(errs)
  {
    var errs := ValidateUpdate(b);
    assert TextFailures(b.model) == {IsString};
    var front := Report(MakeProp, OptionalTextFailures(b.make));
    assert errs[|front|] == FieldError(ModelProp, {IsString});
    MessageOf(errs, errs[|front|], IsString);
  }

  /** A present but empty make is refused with "should not be empty": optional is not the same as empty. */
  lemma UpdateRejectsEmptyMake(b: UpdateBody)
    requires b.make == Str("")
    ensures var errs := ValidateUpdate(b);
      errs != [] && errs[0] == FieldError(MakeProp, {IsNotEmpty}) && "make should not be empty" in Messages(errs)
  {
    var errs := ValidateUpdate(b);
    assert TextFailures(b.make) == {IsNotEmpty};
    MessageOf(errs, errs[0], IsNotEmpty);
  }

  /** A present but empty model is refused with "should not be empty". */
  lemma UpdateRejectsEmptyModel(b: UpdateBody)
    requires b.model == Str("")
    ensures var errs := ValidateUpdate(b);
      FieldError(ModelProp, {IsNotEmpty}) in errs && "model should not be empty" in Messages(errs)
  {
    var errs := ValidateUpdate(b);
    assert TextFailures(b.model) == {IsNotEmpty};
    var front := Report(MakeProp, OptionalTextFailures(b.make));
    assert errs[|front|] == FieldError(ModelProp, {IsNotEmpty});
    MessageOf(errs, errs[|front|], IsNotEmpty);
  }

  /** Each property may be left out: a body that omits any of them, the rest valid, passes. */
  lemma UpdateAcceptsOmitted(make: string, model: string, state: State)
    requires make != "" && model != ""
    ensures ValidateUpdate(UpdateBody(Missing, Str(model), Str(StateName(state)))) == []
    ensures ValidateUpdate(UpdateBody(Str(make), Missing, Str(StateName(state)))) == []
    ensures ValidateUpdate(UpdateBody(Str(make), Str(model), Missing)) == []
    ensures ValidateUpdate(UpdateBody(Missing, Missing, Missing)) == []
    ensures ValidateUpdate(UpdateBody(Str(make), Str(model), Str(StateName(state)))) == []
  {
  }
}
