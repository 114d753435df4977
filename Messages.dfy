/** The payloads the dashboard receives on `lab/drone/{id}/telemetry` and
    `lab/drone/{id}/commands`, as the handlers read them after JSON.parse.
    The handlers never check a payload against a schema: they read fields by
    name, and a field that is absent reads as `undefined`. These datatypes keep
    exactly the fields the handlers read, each as the JavaScript value found
    there. */
module Messages {
  import opened JsValues

  /** A `position` object, or the `args` object of a command: the `lat`,
      `lon` and `alt` found in it. */
  datatype Coords = Coords(lat: Value, lon: Value, alt: Value)

  /** A telemetry payload `{drone_id, position, status, speed_mps, battery_pct, ts}`.
      `NotAnObject` stands for a payload that is not a JSON object (null, a
      number, an array, or the raw string the transport hands over when
      JSON.parse fails): none of the fields can be read from it.
      `droneId` is the `drone_id` string, "" when it is absent or empty;
      `position` is None when `position` is absent or not an object. */
  datatype TelemetryMsg =
    | NotAnObject
    | Telemetry(droneId: string, position: Option<Coords>, status: Value,
                speed: Value, battery: Value, ts: Value)

  /** The `payload` object of a command envelope: its `cmd` and, when `args`
      is an object, the coordinates in it (None when `args` is falsy or not
      an object). */
  datatype CommandPayload = CommandPayload(cmd: Value, args: Option<Coords>)

  /** A command envelope `{payload, sig}`; `payload` is None when absent or
      not an object. The signature is for the drone and is not read here. */
  datatype CommandMsg = CommandMsg(payload: Option<CommandPayload>)

  /** Both `position.lat` and `position.lon` are numbers. */
  predicate HasNumericPosition(msg: TelemetryMsg)
  {
    && msg.Telemetry?
    && msg.position.Some?
    && IsNumber(msg.position.value.lat)
    && IsNumber(msg.position.value.lon)
  }
}
