# Thermostat widget node: validation and relay hooks

This project models the backend node of a dashboard thermostat widget (`ui-thermostat`) for a flow-based automation runtime. The node does three things, and the model covers all three:

- **beforeSend** runs before a message is pushed to the widget. It makes the payload an object and validates `currentTemp` ([-50, 100], default 20), `targetTemp` ([5, 50], default 22) and `heatingPercent` ([0, 100], default 0) with `validateNumericRange`.
- **onInput** saves an inbound message to the group's data store, forwards it unchanged and then signals completion.
- **widget-action** is the socket handler. It turns a user's set-point change into a new `{targetTemp, source: 'user'}` message, saves it, then sends it.

Modules:

- `Wrappers` (wrappers.dfy): `Option`.
- `JsValues` (js_values.dfy): JavaScript values, objects as maps, truthiness, property reads and `parseFloat`.
- `Validation` (validation.dfy): `Math.min`/`Math.max` clamping and the validator.
- `Effects` (effects.dfy): hooks as ordered effect traces (`Save`, `Send`, `Done`, `Warn`). `Run` gives a trace its meaning: the store keeps the last saved message, and the outbox gains exactly the sent messages.
- `Thermostat` (thermostat.dfy): the three hooks.
- `ThermostatProperties` (properties.dfy): idempotence, framing and concrete scenarios.

Numbers are finite reals. Clamping only selects one of its inputs and never rounds, so reals model it exactly. `parseFloat` is concrete for every kind of value except strings. A number parses to itself. NaN, `undefined`, `null`, booleans and plain objects fail to parse. For strings, the parse is an abstract parameter `text: string -> Option<real>`. The identifier the host generates for a user message is a parameter `id`. The optional `done` callback is a boolean saying whether one was supplied.

Two behaviours of the code shape the contracts:

- A value that parses is never rewritten. `validateNumericRange` computes the clamped number, but `beforeSend` only uses the result when `valid` is false. So `currentTemp: 150` goes out as 150, with no warning (`OutOfRangeReadingPassesThrough`). Outbound readings are therefore not guaranteed to lie in their ranges.
- A numeric string such as `"22.5"` is valid, and it is kept as the string (`NumericStringKept`). It is not converted to a number.

## Model

| member | source | states |
|---|---|---|
| Validation.Clamp | nodes/ui-thermostat.js:15 | `Math.min(Math.max(x, lo), hi)` returns one of its inputs and never exceeds `hi`. For `lo <= hi` it lies in `[lo, hi]`: it is `x` when `x` is in range, `lo` below the range and `hi` above it. An inverted range yields `hi`. |
| Validation.ValidateNumericRange | nodes/ui-thermostat.js:10-16 | Valid exactly when the value parses. Invalid gives the default, whatever min and max are. Valid gives a value within `[min, max]` when `min <= max`: the parsed number when in range, `min` below the range, `max` above it. Plain numbers are always valid. NaN, undefined, null, booleans and objects give `{valid: false, value: default}`. |
| Validation.ClampIsNearest | nodes/ui-thermostat.js:15 | The clamped value is the point of the range nearest to the input. |
| Validation.ValidatedValueIsFixedPoint | nodes/ui-thermostat.js:10-16 | Validating a valid result's value again gives the same result. |
| Effects.Run | nodes/ui-thermostat.js:66-96 | Performing a hook's effects leaves the store holding the last saved message (upsert), or unchanged if nothing was saved. The outbox grows by exactly the sent messages, in order. The log grows by exactly the warned field names, in order. Completion holds exactly when it held before or `Done` occurred. |
| Thermostat.NormalizePayload | nodes/ui-thermostat.js:35-37 | The falsy-or-not-`typeof object` test keeps exactly the object payloads. Everything else becomes an empty object. |
| Thermostat.CheckField | nodes/ui-thermostat.js:40-46 | A present field whose value does not parse becomes `Num(default)` with exactly one warning. Any other field, including an absent one or an out-of-range number, is unchanged and produces no warning. Every other key is untouched. |
| Thermostat.CheckFields | nodes/ui-thermostat.js:40-62 | Checking distinct fields in sequence handles each field as if checked alone against the original payload. It leaves all unchecked keys alone and warns once per invalid field, in field order. |
| Thermostat.BeforeSend | nodes/ui-thermostat.js:34-65 | The output payload is always an object. The three fields are each defaulted only when invalid, and otherwise kept. Other payload keys and all other message keys are unchanged. The warnings are exactly those for the invalid fields. |
| Thermostat.OnInput | nodes/ui-thermostat.js:66-76 | The first effect saves the message. Every forwarded message was saved earlier. Exactly the input message is forwarded, unchanged. The store ends holding it. Nothing is logged. The effects are exactly a save, a send and, when a callback was supplied, a final `Done`. |
| Thermostat.WidgetAction | nodes/ui-thermostat.js:78-96 | No effects exactly when the socket message is not an object whose object payload holds a defined `targetTemp`. Otherwise the effects are a save and then a send of the same new `{payload: {targetTemp, source: 'user'}, _msgid: id}` message, carrying the unvalidated `targetTemp`. Persist-before-forward holds. |
| ThermostatProperties.CheckFieldsFixesValidPayload | nodes/ui-thermostat.js:40-62 | A payload in which no present field fails to parse is returned as is, with no warnings. |
| ThermostatProperties.BeforeSendFixesValidMessage | nodes/ui-thermostat.js:34-65 | A message with an object payload whose fields all parse (or are absent) passes through beforeSend identically, without warnings. |
| ThermostatProperties.BeforeSendIdempotent | nodes/ui-thermostat.js:34-65 | Applying beforeSend to its own output changes nothing and warns about nothing. |
| ThermostatProperties.BeforeSendWarnsPerInvalidField | nodes/ui-thermostat.js:40-62 | The warning trace is exactly one `Warn` per invalid field, in the order currentTemp, targetTemp, heatingPercent. |
| ThermostatProperties.BeforeSendOnlyWarns | nodes/ui-thermostat.js:34-65 | beforeSend neither saves, nor sends, nor completes anything. |
| ThermostatProperties.NonObjectPayloadReplaced | nodes/ui-thermostat.js:35-37 | A missing or non-object payload becomes `{}`, and the rest of the message is kept, with no warnings. |
| ThermostatProperties.OutOfRangeReadingPassesThrough | nodes/ui-thermostat.js:40-46 | `currentTemp: 150` leaves unchanged and unwarned, outside its range. |
| ThermostatProperties.NumericStringKept | nodes/ui-thermostat.js:48-54 | A `targetTemp` of `"22.5"` that parses is kept as the string, with no warning. |
| ThermostatProperties.UnparseableReadingDefaulted | nodes/ui-thermostat.js:56-62 | `heatingPercent: "oops"` becomes 0, with one warning about heatingPercent. |
| ThermostatProperties.OnInputEffect | nodes/ui-thermostat.js:66-76 | After onInput the store holds the message, the outbox has gained exactly it and the log is unchanged. Completion is recorded exactly when a callback was supplied. |
| ThermostatProperties.WidgetActionEffect | nodes/ui-thermostat.js:78-96 | For every socket message that carries a defined targetTemp, the store ends up holding the new user-sourced message, which is the one message forwarded. Nothing is logged and completion is not signalled. |
| ThermostatProperties.UserTargetNotValidated | nodes/ui-thermostat.js:80-88 | A targetTemp of 1000 goes out as 1000 with source `user`. No range is applied. |
| ThermostatProperties.WidgetActionIgnored | nodes/ui-thermostat.js:80 | An empty payload, a string payload or an undefined message yields no effects and leaves the world as it was. |

## Left out

- Node registration and lifecycle are not modelled. This covers `createNode`, the group lookup, the missing-group error, `group.register` and `registerType`. It is host plumbing with no logic of its own.
- The store's persistence is reduced to "holds the last saved message". The store's own save, the send callbacks and the host's id generator are foreign calls, so they appear only as trace effects and an `id` parameter.
- The `base` and `node` arguments to save are left out. They are the same for every call.
- How `parseFloat` reads a string's numeric prefix is left as the abstract `text` parameter.
- Infinity is not modelled. Numbers are finite reals or NaN. In the code, `Infinity` parses and would be clamped to the bound.
- `parseFloat` of arrays, or of objects with a custom `toString`, is not modelled. Objects always fail to parse.
- Array and function values are not modelled. An array payload would be kept by beforeSend, since `typeof` gives 'object', and a function payload would be replaced by `{}`.
- The text of warning messages is not modelled: a warning records only the field name.
- In-place mutation and aliasing of the message object are not modelled. beforeSend returns the rewritten message as a new value.
- The front-end widget and the build configuration (vite.config.mjs) contain no node logic.
