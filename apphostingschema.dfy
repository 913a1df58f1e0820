/**
 * apphosting.yaml loading and validation (pkg/firebase/apphostingschema):
 * range checks on the optional run-config numbers, the value-xor-secret and
 * availability checks on each environment variable, and the policy that a
 * missing file is an empty schema rather than an error.
 *
 * The YAML library's structural decoding is a parameter; the custom
 * `UnmarshalYAML` hooks are the explicit validation pass that follows it.
 */
module AppHostingSchema {
  import opened Wrappers

  /** The availability tags an environment variable may carry. */
  const ValidAvailabilityValues: set<string> := {"BUILD", "RUNTIME"}

  /** `RunConfig`: every field may be absent (`None`), which is not the same as zero. */
  datatype RunConfig = RunConfig(
    cpu: Option<real>,
    memoryMiB: Option<int>,
    concurrency: Option<int>,
    maxInstances: Option<int>,
    minInstances: Option<int>)

  /** `EnvironmentVariable`: "" stands for an omitted `value` or `secret`. */
  datatype EnvironmentVariable = EnvironmentVariable(
    variable: string,
    value: string,
    secret: string,
    availability: seq<string>)

  /** `AppHostingSchema`, the decoded apphosting.yaml. */
  datatype AppHostingSchema = AppHostingSchema(runConfig: RunConfig, env: seq<EnvironmentVariable>)

  /** The zero value `AppHostingSchema{}`: no run config fields, no variables. */
  const EmptySchema := AppHostingSchema(RunConfig(None, None, None, None, None), [])

  /** The run-config check that failed first. */
  datatype RunConfigError =
    | CpuOutOfRange
    | MemoryOutOfRange
    | ConcurrencyOutOfRange
    | MaxInstancesOutOfRange
    | MinInstancesOutOfRange
  {
    /** The error text; the minInstances text names [1, 100] although 0 is accepted. */
    function Message(): string {
      match this
      case CpuOutOfRange => "runConfig.cpu field is not in valid range of [1, 8]"
      case MemoryOutOfRange => "runConfig.memory field is not in valid range of [512, 32768]"
      case ConcurrencyOutOfRange => "runConfig.concurrency field is not in valid range of [1, 1000]"
      case MaxInstancesOutOfRange => "runConfig.maxInstances field is not in valid range of [1, 100]"
      case MinInstancesOutOfRange => "runConfig.minInstances field is not in valid range of [1, 100]"
    }
  }

  /** The environment-variable check that failed first. */
  datatype EnvError =
    | BothValueAndSecret
    | NeitherValueNorSecret
    | InvalidAvailability(tag: string)
  {
    function Message(): string {
      match this
      case BothValueAndSecret => "both 'value' and 'secret' fields cannot be present"
      case NeitherValueNorSecret => "either 'value' or 'secret' field is required"
      case InvalidAvailability(tag) => "invalid value in 'availability': " + tag
    }
  }

  /** Why a document was rejected after it was read. */
  datatype SchemaError =
    | Malformed
    | RunConfigInvalid(runConfigError: RunConfigError)
    | EnvInvalid(envError: EnvError)

  /** The two errors `ReadAndValidateAppHostingSchemaFromFile` returns. */
  datatype LoadError =
    | ReadFailed(reason: string)
    | UnmarshalFailed(cause: SchemaError)

  /** What `os.ReadFile` gave: the file does not exist, another error, or its bytes. */
  datatype FileRead = NotExist | ReadError(reason: string) | Contents(data: string)

  // ---------------------------------------------------------------------
  // The accepted documents, stated field by field
  // ---------------------------------------------------------------------

  /** Every present run-config number lies in its documented range; absent ones are fine. */
  predicate RunConfigInRange(rc: RunConfig) {
    && (rc.cpu.Some? ==> 1.0 <= rc.cpu.value <= 8.0)
    && (rc.memoryMiB.Some? ==> 512 <= rc.memoryMiB.value <= 32768)
    && (rc.concurrency.Some? ==> 1 <= rc.concurrency.value <= 1000)
    && (rc.maxInstances.Some? ==> 1 <= rc.maxInstances.value <= 100)
    && (rc.minInstances.Some? ==> 0 <= rc.minInstances.value <= 100)
  }

  /** Exactly one of value and secret is given, and every availability tag is BUILD or RUNTIME. */
  predicate WellFormedVariable(ev: EnvironmentVariable) {
    && ((ev.value != "") != (ev.secret != ""))
    && forall tag | tag in ev.availability :: tag in ValidAvailabilityValues
  }

  predicate WellFormedSchema(s: AppHostingSchema) {
    RunConfigInRange(s.runConfig) && forall ev | ev in s.env :: WellFormedVariable(ev)
  }

  // ---------------------------------------------------------------------
  // The validation pass (the UnmarshalYAML hooks)
  // ---------------------------------------------------------------------

  /** A bound check on an optional integer: absent always passes. */
  predicate OutOfRange(x: Option<int>, lo: int, hi: int) {
    x.Some? && !(lo <= x.value && x.value <= hi)
  }

  /**
   * `RunConfig.UnmarshalYAML`: the checks in order cpu, memory, concurrency,
   * maxInstances, minInstances; the first violation is reported.
   */
  function ValidateRunConfig(rc: RunConfig): (r: Option<RunConfigError>)
    ensures r.None? <==> RunConfigInRange(rc)
    ensures r == Some(CpuOutOfRange) <==> rc.cpu.Some? && !(1.0 <= rc.cpu.value <= 8.0)
    ensures r == Some(MemoryOutOfRange) <==>
      (rc.cpu.Some? ==> 1.0 <= rc.cpu.value <= 8.0) &&
      rc.memoryMiB.Some? && !(512 <= rc.memoryMiB.value <= 32768)
    ensures r == Some(ConcurrencyOutOfRange) <==>
      (rc.cpu.Some? ==> 1.0 <= rc.cpu.value <= 8.0) &&
      (rc.memoryMiB.Some? ==> 512 <= rc.memoryMiB.value <= 32768) &&
      rc.concurrency.Some? && !(1 <= rc.concurrency.value <= 1000)
    ensures r == Some(MaxInstancesOutOfRange) <==>
      (rc.cpu.Some? ==> 1.0 <= rc.cpu.value <= 8.0) &&
      (rc.memoryMiB.Some? ==> 512 <= rc.memoryMiB.value <= 32768) &&
      (rc.concurrency.Some? ==> 1 <= rc.concurrency.value <= 1000) &&
      rc.maxInstances.Some? && !(1 <= rc.maxInstances.value <= 100)
    ensures r == Some(MinInstancesOutOfRange) <==>
      (rc.cpu.Some? ==> 1.0 <= rc.cpu.value <= 8.0) &&
      (rc.memoryMiB.Some? ==> 512 <= rc.memoryMiB.value <= 32768) &&
      (rc.concurrency.Some? ==> 1 <= rc.concurrency.value <= 1000) &&
      (rc.maxInstances.Some? ==> 1 <= rc.maxInstances.value <= 100) &&
      rc.minInstances.Some? && !(0 <= rc.minInstances.value <= 100)
  {
    if rc.cpu.Some? && !(1.0 <= rc.cpu.value && rc.cpu.value <= 8.0) then Some(CpuOutOfRange)
    else if OutOfRange(rc.memoryMiB, 512, 32768) then Some(MemoryOutOfRange)
    else if OutOfRange(rc.concurrency, 1, 1000) then Some(ConcurrencyOutOfRange)
    else if OutOfRange(rc.maxInstances, 1, 100) then Some(MaxInstancesOutOfRange)
    else if OutOfRange(rc.minInstances, 0, 100) then Some(MinInstancesOutOfRange)
    else None
  }

  /** The first availability tag that is neither BUILD nor RUNTIME. */
  function FirstInvalidAvailability(tags: seq<string>): (r: Option<string>)
    ensures r.None? <==> forall tag | tag in tags :: tag in ValidAvailabilityValues
    ensures r.Some? ==> r.value !in ValidAvailabilityValues
    ensures r.Some? ==> exists i | 0 <= i < |tags| ::
      (tags[i] == r.value && forall j | 0 <= j < i :: tags[j] in ValidAvailabilityValues)
  {
    if tags == [] then None
    else if tags[0] !in ValidAvailabilityValues then Some(tags[0])
    else
      var r := FirstInvalidAvailability(tags[1..]);
      assert forall tag | tag in tags :: tag == tags[0] || tag in tags[1..];
      if r.Some? then
        var i :| 0 <= i < |tags[1..]| && tags[1..][i] == r.value
          && r.value !in ValidAvailabilityValues
          && forall j | 0 <= j < i :: tags[1..][j] in ValidAvailabilityValues;
        assert tags[i + 1] == r.value;
        r
      else r
  }

  /**
   * `EnvironmentVariable.UnmarshalYAML`: both value and secret, then neither,
   * then the availability tags in order.
   */
  function ValidateVariable(ev: EnvironmentVariable): (r: Option<EnvError>)
    ensures r.None? <==> WellFormedVariable(ev)
    ensures r == Some(BothValueAndSecret) <==> ev.value != "" && ev.secret != ""
    ensures r == Some(NeitherValueNorSecret) <==> ev.value == "" && ev.secret == ""
    ensures r.Some? && r.value.InvalidAvailability? ==>
      && (ev.value != "") != (ev.secret != "")
      && r.value.tag in ev.availability
      && r.value.tag !in ValidAvailabilityValues
      && FirstInvalidAvailability(ev.availability) == Some(r.value.tag)
  {
    if ev.value != "" && ev.secret != "" then Some(BothValueAndSecret)
    else if ev.value == "" && ev.secret == "" then Some(NeitherValueNorSecret)
    else match FirstInvalidAvailability(ev.availability)
      case Some(tag) => Some(InvalidAvailability(tag))
      case None => None
  }

  /** The first environment variable error, in list order. */
  function FirstVariableError(env: seq<EnvironmentVariable>): (r: Option<EnvError>)
    ensures r.None? <==> forall ev | ev in env :: WellFormedVariable(ev)
    ensures r.Some? ==> exists i | 0 <= i < |env| ::
      (ValidateVariable(env[i]) == r && forall j | 0 <= j < i :: WellFormedVariable(env[j]))
  {
    if env == [] then None
    else match ValidateVariable(env[0])
      case Some(e) => Some(e)
      case None =>
        assert forall ev | ev in env :: ev == env[0] || ev in env[1..];
        var r := FirstVariableError(env[1..]);
        if r.Some? then
          var i :| 0 <= i < |env[1..]| && ValidateVariable(env[1..][i]) == r
            && forall j | 0 <= j < i :: WellFormedVariable(env[1..][j]);
          assert env[i + 1] == env[1..][i];
          assert forall j | 1 <= j < i + 1 :: env[j] == env[1..][j - 1];
          r
        else r
  }

  /** The whole validation pass over a structurally decoded document. */
  function ValidateSchema(s: AppHostingSchema): (r: Option<SchemaError>)
    ensures r.None? <==> WellFormedSchema(s)
    ensures r.Some? ==> r.value.RunConfigInvalid? || r.value.EnvInvalid?
    ensures !RunConfigInRange(s.runConfig) ==> r.Some? && r.value.RunConfigInvalid?
    ensures r.Some? && r.value.RunConfigInvalid? ==>
      ValidateRunConfig(s.runConfig) == Some(r.value.runConfigError)
    ensures r.Some? && r.value.EnvInvalid? ==>
      RunConfigInRange(s.runConfig) && FirstVariableError(s.env) == Some(r.value.envError)
  {
    match ValidateRunConfig(s.runConfig)
    case Some(e) => Some(RunConfigInvalid(e))
    case None =>
      match FirstVariableError(s.env)
      case Some(e) => Some(EnvInvalid(e))
      case None => None
  }

  /**
   * `ReadAndValidateAppHostingSchemaFromFile`: a missing file is the empty
   * schema; any other read error, a decode error or a validation error is an
   * error; otherwise the decoded document, unchanged.
   */
  function ReadAndValidate(read: FileRead, decode: string -> Option<AppHostingSchema>): (r: Result<AppHostingSchema, LoadError>)
    ensures read.NotExist? ==> r == Success(EmptySchema)
    ensures read.ReadError? ==> r == Failure(ReadFailed(read.reason))
    ensures read.Contents? && decode(read.data).None? ==> r == Failure(UnmarshalFailed(Malformed))
    ensures read.Contents? && decode(read.data).Some? ==>
      && (r.Success? <==> WellFormedSchema(decode(read.data).value))
      && (r.Success? ==> r.value == decode(read.data).value)
      && (r.Failure? ==> r.error.UnmarshalFailed?)
      && (r.Failure? ==> ValidateSchema(decode(read.data).value) == Some(r.error.cause))
    ensures r.Success? ==> WellFormedSchema(r.value)
  {
    match read
    case NotExist => Success(EmptySchema)
    case ReadError(reason) => Failure(ReadFailed(reason))
    case Contents(data) =>
      match decode(data)
      case None => Failure(UnmarshalFailed(Malformed))
      case Some(s) =>
        match ValidateSchema(s)
        case Some(e) => Failure(UnmarshalFailed(e))
        case None => Success(s)
  }

  // ---------------------------------------------------------------------
  // Examples and consequences
  // ---------------------------------------------------------------------

  /** A run config with no fields at all is accepted: absence never rejects. */
  lemma AbsentFieldsAccepted()
    ensures ValidateRunConfig(RunConfig(None, None, None, None, None)).None?
  {
  }

  /** CPU 0.5 and CPU 9 are rejected as CPU errors, whatever the other fields hold. */
  lemma CpuExamples(rc: RunConfig)
    ensures ValidateRunConfig(rc.(cpu := Some(0.5))) == Some(CpuOutOfRange)
    ensures ValidateRunConfig(rc.(cpu := Some(9.0))) == Some(CpuOutOfRange)
  {
  }

  /** MinInstances 0 is accepted, although the error text speaks of [1, 100]. */
  lemma MinInstancesZeroAccepted()
    ensures ValidateRunConfig(RunConfig(None, None, None, None, Some(0))).None?
    ensures ValidateRunConfig(RunConfig(None, None, None, None, Some(101))) == Some(MinInstancesOutOfRange)
  {
  }

  /** A variable with both value "x" and secret "y" fails; with neither it fails. */
  lemma ValueSecretExamples(name: string, tags: seq<string>)
    ensures ValidateVariable(EnvironmentVariable(name, "x", "y", tags)) == Some(BothValueAndSecret)
    ensures ValidateVariable(EnvironmentVariable(name, "", "", tags)) == Some(NeitherValueNorSecret)
  {
  }

  /** Availability ["BUILD"] and [] are accepted; ["STAGING"] is rejected naming "STAGING". */
  lemma AvailabilityExamples(name: string)
    ensures ValidateVariable(EnvironmentVariable(name, "x", "", ["BUILD"])).None?
    ensures ValidateVariable(EnvironmentVariable(name, "", "y", [])).None?
    ensures ValidateVariable(EnvironmentVariable(name, "x", "", ["STAGING"])) == Some(InvalidAvailability("STAGING"))
  {
    assert "STAGING" != "BUILD" && "STAGING" != "RUNTIME";
  }

  /** A missing file loads as the empty schema, whatever decoder would have been used. */
  lemma MissingFileIsEmpty(decode: string -> Option<AppHostingSchema>)
    ensures ReadAndValidate(NotExist, decode) == Success(EmptySchema)
    ensures WellFormedSchema(EmptySchema)
  {
  }
}
