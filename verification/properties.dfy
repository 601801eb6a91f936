/** Properties of the thermostat node's hooks that relate several calls or fix concrete inputs. */
module ThermostatProperties {
  import opened Wrappers
  import opened JsValues
  import opened Effects
  import opened Thermostat

  lemma FieldNamesDistinct()
    ensures DistinctNames(Fields)
  {
  }

  /** With no invalid field there is nothing to warn about. */
  lemma {:induction false} NoWarningsWhenAllParse(p: Object, specs: seq<FieldSpec>, text: string -> Option<real>)
    requires forall i :: 0 <= i < |specs| ==> !Invalid(p, specs[i], text)
    ensures Warnings(p, specs, text) == []
    decreases |specs|
  {
    if specs != [] {
      assert !Invalid(p, specs[0], text);
      NoWarningsWhenAllParse(p, specs[1..], text);
    }
  }

  /** Warnings consist of Warn effects only. */
  lemma {:induction false} WarningsAreWarns(p: Object, specs: seq<FieldSpec>, text: string -> Option<real>)
    ensures forall i :: 0 <= i < |Warnings(p, specs, text)| ==> Warnings(p, specs, text)[i].Warn?
    decreases |specs|
  {
    if specs != [] {
      WarningsAreWarns(p, specs[1..], text);
    }
  }

  /** Checking a payload in which every present field parses changes nothing. */
  lemma {:induction false} CheckFieldsFixesValidPayload(p: Object, specs: seq<FieldSpec>, text: string -> Option<real>)
    requires DistinctNames(specs)
    requires forall i :: 0 <= i < |specs| ==> !Invalid(p, specs[i], text)
    ensures CheckFields(p, specs, text) == Rewritten(p, [])
  {
    var r := CheckFields(p, specs, text);
    NoWarningsWhenAllParse(p, specs, text);
    forall k
      ensures k in p <==> k in r.obj
      ensures k in p ==> p[k] == r.obj[k]
    {
      if !Unchecked(specs, k) {
        var i :| 0 <= i < |specs| && specs[i].name == k;
        assert FieldHandled(p, r.obj, specs[i], text);
      }
      assert SameAt(p, r.obj, k);
    }
  }

  /** beforeSend leaves a message whose fields all parse exactly as it is, without warning. */
  lemma BeforeSendFixesValidMessage(msg: Object, text: string -> Option<real>)
    requires Get(msg, "payload").Obj?
    requires forall i :: 0 <= i < |Fields| ==> !Invalid(PayloadOf(msg), Fields[i], text)
    ensures BeforeSend(msg, text) == Rewritten(msg, [])
  {
    FieldNamesDistinct();
    CheckFieldsFixesValidPayload(PayloadOf(msg), Fields, text);
    assert msg["payload" := Obj(PayloadOf(msg))] == msg;
  }

  /** beforeSend is idempotent: a second pass changes nothing and warns about nothing. */
  lemma BeforeSendIdempotent(msg: Object, text: string -> Option<real>)
    ensures var once := BeforeSend(msg, text);
      BeforeSend(once.obj, text) == Rewritten(once.obj, [])
  {
    var once := BeforeSend(msg, text);
    var p, p' := PayloadOf(msg), PayloadOf(once.obj);
    assert Fields[0] == CurrentTemp && Fields[1] == TargetTemp && Fields[2] == HeatingPercent;
    forall i | 0 <= i < |Fields|
      ensures !Invalid(p', Fields[i], text)
    {
      assert FieldHandled(p, p', Fields[i], text);
    }
    BeforeSendFixesValidMessage(once.obj, text);
  }

  /** beforeSend warns once for each invalid field and for nothing else, in field order. */
  lemma BeforeSendWarnsPerInvalidField(msg: Object, text: string -> Option<real>)
    ensures var p := PayloadOf(msg);
      BeforeSend(msg, text).trace
        == (if Invalid(p, CurrentTemp, text) then [Warn("currentTemp")] else [])
         + (if Invalid(p, TargetTemp, text) then [Warn("targetTemp")] else [])
         + (if Invalid(p, HeatingPercent, text) then [Warn("heatingPercent")] else [])
  {
    var p := PayloadOf(msg);
    assert Fields[1..] == [TargetTemp, HeatingPercent];
    assert Fields[1..][1..] == [HeatingPercent];
    assert Fields[1..][1..][1..] == [];
    assert Warnings(p, [HeatingPercent], text)
        == (if Invalid(p, HeatingPercent, text) then [Warn("heatingPercent")] else []) + Warnings(p, [], text);
    assert Warnings(p, [TargetTemp, HeatingPercent], text)
        == (if Invalid(p, TargetTemp, text) then [Warn("targetTemp")] else []) + Warnings(p, [HeatingPercent], text);
  }

  /** beforeSend touches neither the store nor the flow: its only effects are warnings. */
  lemma BeforeSendOnlyWarns(msg: Object, text: string -> Option<real>, w: World)
    ensures var r := Run(w, BeforeSend(msg, text).trace);
      r.stored == w.stored && r.outbox == w.outbox && r.completed == w.completed
  {
    WarningsAreWarns(PayloadOf(msg), Fields, text);
    OnlyWarnings(BeforeSend(msg, text).trace);
  }

  /** A missing or non-object payload becomes an empty object, and nothing is warned. */
  lemma NonObjectPayloadReplaced(msg: Object, text: string -> Option<real>)
    requires !Get(msg, "payload").Obj?
    ensures BeforeSend(msg, text) == Rewritten(msg["payload" := Obj(map[])], [])
  {
    FieldNamesDistinct();
    CheckFieldsFixesValidPayload(map[], Fields, text);
  }

  /** A numeric reading outside its range passes through unclamped and unwarned:
      currentTemp 150 leaves as 150 although the range is [-50, 100]. */
  lemma OutOfRangeReadingPassesThrough(text: string -> Option<real>)
    ensures var msg := map["payload" := Obj(map["currentTemp" := Num(150.0)])];
      BeforeSend(msg, text) == Rewritten(msg, [])
  {
    var msg := map["payload" := Obj(map["currentTemp" := Num(150.0)])];
    assert Fields[0] == CurrentTemp && Fields[1] == TargetTemp && Fields[2] == HeatingPercent;
    BeforeSendFixesValidMessage(msg, text);
  }

  /** A numeric string is valid and is kept as the string, not converted. */
  lemma NumericStringKept(text: string -> Option<real>)
    requires text("22.5") == Some(22.5)
    ensures var msg := map["payload" := Obj(map["targetTemp" := Str("22.5")])];
      BeforeSend(msg, text) == Rewritten(msg, [])
  {
    var msg := map["payload" := Obj(map["targetTemp" := Str("22.5")])];
    assert Fields[0] == CurrentTemp && Fields[1] == TargetTemp && Fields[2] == HeatingPercent;
    BeforeSendFixesValidMessage(msg, text);
  }

  /** A value that does not parse is replaced by its field's default, with one warning. */
  lemma UnparseableReadingDefaulted(text: string -> Option<real>)
    requires text("oops") == None
    ensures var msg := map["payload" := Obj(map["heatingPercent" := Str("oops")])];
      BeforeSend(msg, text)
        == Rewritten(map["payload" := Obj(map["heatingPercent" := Num(0.0)])], [Warn("heatingPercent")])
  {
    var msg := map["payload" := Obj(map["heatingPercent" := Str("oops")])];
    BeforeSendWarnsPerInvalidField(msg, text);
    var r := BeforeSend(msg, text);
    var p' := PayloadOf(r.obj);
    assert Fields[0] == CurrentTemp && Fields[1] == TargetTemp && Fields[2] == HeatingPercent;
    var expected := map["heatingPercent" := Num(0.0)];
    assert Invalid(PayloadOf(msg), HeatingPercent, text);
    assert FieldHandled(PayloadOf(msg), p', HeatingPercent, text);
    forall k
      ensures k in p' <==> k in expected
      ensures k in p' ==> p'[k] == expected[k]
    {
      if k == "currentTemp" {
        assert FieldHandled(PayloadOf(msg), p', CurrentTemp, text);
      } else if k == "targetTemp" {
        assert FieldHandled(PayloadOf(msg), p', TargetTemp, text);
      } else if k != "heatingPercent" {
        assert Unchecked(Fields, k);
        assert SameAt(PayloadOf(msg), p', k);
      }
    }
    assert p' == expected;
    forall k
      ensures k in r.obj <==> k in msg
    {
      if k != "payload" {
        assert SameAt(msg, r.obj, k);
      }
    }
  }

  /** onInput leaves the store holding the message and forwards it once, unchanged. */
  lemma OnInputEffect(msg: Object, hasDone: bool, w: World)
    ensures var r := Run(w, OnInput(msg, hasDone));
      && r.stored == Some(msg)
      && r.outbox == w.outbox + [msg]
      && r.warnings == w.warnings
      && r.completed == (w.completed || hasDone)
  {
  }

  /** A user's target change ends up stored and forwarded as a user-sourced
      message; nothing is logged and completion is not signalled. */
  lemma WidgetActionEffect(msg: Value, id: string, w: World)
    requires CarriesTarget(msg)
    ensures var m := ActionMessage(Get(Get(msg.fields, "payload").fields, "targetTemp"), id);
      var r := Run(w, WidgetAction(msg, id));
      && r.stored == Some(m)
      && r.outbox == w.outbox + [m]
      && r.warnings == w.warnings
      && r.completed == w.completed
  {
    var m := ActionMessage(Get(Get(msg.fields, "payload").fields, "targetTemp"), id);
    AppendOne([], Save(m));
    AppendOne([Save(m)], Send(m));
    assert [] + [Save(m)] + [Send(m)] == WidgetAction(msg, id);
  }

  /** The user's targetTemp is not validated: an out-of-range set point goes out as it came. */
  lemma UserTargetNotValidated(id: string)
    ensures var msg := Obj(map["payload" := Obj(map["targetTemp" := Num(1000.0)])]);
      var m := WidgetAction(msg, id)[1].msg;
      Get(PayloadOf(m), "targetTemp") == Num(1000.0) && Get(PayloadOf(m), "source") == Str("user")
  {
  }

  /** A socket message without a targetTemp, or with a payload that is not an object, is ignored. */
  lemma WidgetActionIgnored(id: string, w: World)
    ensures WidgetAction(Obj(map["payload" := Obj(map[])]), id) == []
    ensures WidgetAction(Obj(map["payload" := Str("26")]), id) == []
    ensures WidgetAction(Undefined, id) == []
    ensures Run(w, WidgetAction(Obj(map["payload" := Obj(map[])]), id)) == w
  {
  }
}
