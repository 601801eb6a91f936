/**
 * The thermostat widget node's event hooks: beforeSend normalises telemetry
 * on its way to the widget, onInput persists and relays inbound messages, and
 * the widget-action socket handler turns a user's set-point change into a
 * new flow message.
 */
module Thermostat {
  import opened Wrappers
  import opened JsValues
  import opened Validation
  import opened Effects

  /** The range and fallback the node applies to one telemetry field. */
  datatype FieldSpec = FieldSpec(name: string, min: real, max: real, default: real)

  const CurrentTemp := FieldSpec("currentTemp", -50.0, 100.0, 20.0)
  const TargetTemp := FieldSpec("targetTemp", 5.0, 50.0, 22.0)
  const HeatingPercent := FieldSpec("heatingPercent", 0.0, 100.0, 0.0)

  /** The fields beforeSend checks, in the order it checks them. */
  const Fields: seq<FieldSpec> := [CurrentTemp, TargetTemp, HeatingPercent]

  /** An object together with the effects that produced it. */
  datatype Rewritten = Rewritten(obj: Object, trace: seq<Effect>)

  predicate DistinctNames(specs: seq<FieldSpec>) {
    forall i, j :: 0 <= i < j < |specs| ==> specs[i].name != specs[j].name
  }

  /** Key `k` is not one of the checked fields. */
  predicate Unchecked(specs: seq<FieldSpec>, k: string) {
    forall i :: 0 <= i < |specs| ==> specs[i].name != k
  }

  /** Field `f` of payload `p` is present and its value does not parse. */
  predicate Invalid(p: Object, f: FieldSpec, text: string -> Option<real>) {
    !Get(p, f.name).Undefined? && ParseFloat(Get(p, f.name), text).None?
  }

  /** What happens to field `f` from payload `p` to payload `p'`: an invalid
      value is replaced by the field's default, anything else stays as it was. */
  predicate FieldHandled(p: Object, p': Object, f: FieldSpec, text: string -> Option<real>) {
    if Invalid(p, f, text) then f.name in p' && p'[f.name] == Num(f.default)
    else SameAt(p, p', f.name)
  }

  /** One warning per invalid field of `p`, in field order. */
  function Warnings(p: Object, specs: seq<FieldSpec>, text: string -> Option<real>): seq<Effect> {
    if specs == [] then []
    else (if Invalid(p, specs[0], text) then [Warn(specs[0].name)] else [])
         + Warnings(p, specs[1..], text)
  }

  /** The payload beforeSend works on: the message's payload when it is an
      object, a fresh empty object otherwise. */
  function PayloadOf(msg: Object): Object {
    NormalizePayload(Get(msg, "payload"))
  }

  /** `if (!payload || typeof payload !== 'object') payload = {}`: exactly the
      object payloads survive; `undefined`, `null`, numbers, strings, booleans
      and NaN become an empty object. */
  function NormalizePayload(v: Value): (p: Object)
    ensures v.Obj? ==> p == v.fields
    ensures !v.Obj? ==> p == map[]
  {
    if !Truthy(v) || !TypeofObject(v) then map[] else v.fields
  }

  /**
   * Check one field: when it is present, validate it against its range and,
   * only if the validator reports it invalid, warn and overwrite it with the
   * validator's value. A valid result is discarded, so a parseable value is
   * left as it was even when it lies outside the range.
   */
  function CheckField(p: Object, f: FieldSpec, text: string -> Option<real>): (r: Rewritten)
    ensures FieldHandled(p, r.obj, f, text)
    ensures forall k :: k != f.name ==> SameAt(p, r.obj, k)
    ensures r.trace == if Invalid(p, f, text) then [Warn(f.name)] else []
  {
    var v := Get(p, f.name);
    if !v.Undefined? then
      var result := ValidateNumericRange(v, f.min, f.max, f.default, text);
      if !result.valid then Rewritten(p[f.name := Num(result.value)], [Warn(f.name)])
      else Rewritten(p, [])
    else Rewritten(p, [])
  }

  /** Warnings depend only on the checked fields' values. */
  lemma {:induction false} WarningsAgree(p: Object, q: Object, specs: seq<FieldSpec>, text: string -> Option<real>)
    requires forall i :: 0 <= i < |specs| ==> Get(p, specs[i].name) == Get(q, specs[i].name)
    ensures Warnings(p, specs, text) == Warnings(q, specs, text)
    decreases |specs|
  {
    if specs != [] {
      assert Get(p, specs[0].name) == Get(q, specs[0].name);
      WarningsAgree(p, q, specs[1..], text);
    }
  }

  /** Check the fields one after another, each on the result of the last. */
  function CheckFields(p: Object, specs: seq<FieldSpec>, text: string -> Option<real>): (r: Rewritten)
    requires DistinctNames(specs)
    ensures forall i :: 0 <= i < |specs| ==> FieldHandled(p, r.obj, specs[i], text)
    ensures forall k :: Unchecked(specs, k) ==> SameAt(p, r.obj, k)
    ensures r.trace == Warnings(p, specs, text)
    decreases |specs|
  {
    if specs == [] then Rewritten(p, [])
    else
      var first := CheckField(p, specs[0], text);
      var rest := CheckFields(first.obj, specs[1..], text);
      assert Unchecked(specs[1..], specs[0].name);
      assert forall k :: Unchecked(specs, k) ==> k != specs[0].name && Unchecked(specs[1..], k);
      assert forall i :: 1 <= i < |specs| ==> specs[i] == specs[1..][i - 1];
      WarningsAgree(p, first.obj, specs[1..], text);
      Rewritten(rest.obj, first.trace + rest.trace)
  }

  /**
   * beforeSend: make the payload an object, then check currentTemp,
   * targetTemp and heatingPercent in that order. Only fields whose value does
   * not parse change (to the field's default, with one warning each); every
   * other payload key and every other message key is left alone.
   */
  function BeforeSend(msg: Object, text: string -> Option<real>): (r: Rewritten)
    ensures Get(r.obj, "payload").Obj?
    ensures forall k :: k != "payload" ==> SameAt(msg, r.obj, k)
    ensures FieldHandled(PayloadOf(msg), PayloadOf(r.obj), CurrentTemp, text)
    ensures FieldHandled(PayloadOf(msg), PayloadOf(r.obj), TargetTemp, text)
    ensures FieldHandled(PayloadOf(msg), PayloadOf(r.obj), HeatingPercent, text)
    ensures forall k :: Unchecked(Fields, k) ==> SameAt(PayloadOf(msg), PayloadOf(r.obj), k)
    ensures r.trace == Warnings(PayloadOf(msg), Fields, text)
  {
    var checked := CheckFields(PayloadOf(msg), Fields, text);
    assert Fields[0] == CurrentTemp && Fields[1] == TargetTemp && Fields[2] == HeatingPercent;
    Rewritten(msg["payload" := Obj(checked.obj)], checked.trace)
  }

  /** onInput(msg, send, done): save, forward the message unchanged, then
      signal completion when a `done` callback was supplied. */
  function OnInput(msg: Object, hasDone: bool): (r: seq<Effect>)
    ensures |r| == 2 + (if hasDone then 1 else 0)
    ensures r[0] == Save(msg)
    ensures PersistedBeforeForwarded(r)
    ensures Sent(r) == [msg]
    ensures LastSaved(r) == Some(msg)
    ensures Warned(r) == []
    ensures Done in r <==> hasDone
    ensures hasDone ==> r[|r| - 1] == Done
  {
    var relay := [Save(msg), Send(msg)];
    AppendOne([], Save(msg));
    AppendOne([Save(msg)], Send(msg));
    assert [] + [Save(msg)] + [Send(msg)] == relay;
    if hasDone then
      AppendOne(relay, Done);
      relay + [Done]
    else relay
  }

  /** The message a user's action produces: `{payload: {targetTemp, source: 'user'}, _msgid}`. */
  function ActionMessage(target: Value, id: string): Object {
    map["payload" := Obj(map["targetTemp" := target, "source" := Str("user")]), "_msgid" := Str(id)]
  }

  /** The socket message is an object whose payload is an object holding a defined targetTemp. */
  predicate CarriesTarget(msg: Value) {
    && msg.Obj?
    && Get(msg.fields, "payload").Obj?
    && !Get(Get(msg.fields, "payload").fields, "targetTemp").Undefined?
  }

  /**
   * The widget-action socket handler. `id` stands for the identifier the host
   * generates for the new message. A message with a targetTemp becomes a new
   * user-sourced message that is saved and then sent; the targetTemp is
   * passed on without validation. Anything else is ignored.
   */
  function WidgetAction(msg: Value, id: string): (r: seq<Effect>)
    ensures r == [] <==> !CarriesTarget(msg)
    ensures CarriesTarget(msg) ==>
      var m := ActionMessage(Get(Get(msg.fields, "payload").fields, "targetTemp"), id);
      r == [Save(m), Send(m)]
    ensures PersistedBeforeForwarded(r)
  {
    if Truthy(msg) && Truthy(Prop(msg, "payload")) && !Prop(Prop(msg, "payload"), "targetTemp").Undefined? then
      var action := ActionMessage(Prop(Prop(msg, "payload"), "targetTemp"), id);
      var r := [Save(action), Send(action)];
      assert r[0] == Save(r[1].msg);
      r
    else []
  }
}
