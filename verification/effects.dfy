/**
 * The observable effects of the node's hooks, recorded as an ordered trace,
 * and the meaning of a trace: what the shared store holds afterwards, what
 * was forwarded into the flow, what was logged, whether completion was signalled.
 */
module Effects {
  import opened Wrappers
  import opened JsValues

  /** One effect, in the order a hook performs it. */
  datatype Effect =
    | Save(msg: Object)    // upsert into the widget's shared data store
    | Send(msg: Object)    // forward a message into the flow
    | Done                 // signal completion to the host
    | Warn(field: string)  // a warning-level log entry about one telemetry field

  /** What the effects act on. */
  datatype World = World(stored: Option<Object>, outbox: seq<Object>, warnings: seq<string>, completed: bool)

  function Step(w: World, e: Effect): World {
    match e
    case Save(m) => w.(stored := Some(m))
    case Send(m) => w.(outbox := w.outbox + [m])
    case Done => w.(completed := true)
    case Warn(f) => w.(warnings := w.warnings + [f])
  }

  /** The message of the last Save in a trace, if any. */
  function LastSaved(trace: seq<Effect>): Option<Object> {
    if trace == [] then None
    else if trace[|trace| - 1].Save? then Some(trace[|trace| - 1].msg)
    else LastSaved(trace[..|trace| - 1])
  }

  /** The messages a trace sends, in order. */
  function Sent(trace: seq<Effect>): seq<Object> {
    if trace == [] then []
    else Sent(trace[..|trace| - 1]) + (if trace[|trace| - 1].Send? then [trace[|trace| - 1].msg] else [])
  }

  /** The fields a trace warns about, in order. */
  function Warned(trace: seq<Effect>): seq<string> {
    if trace == [] then []
    else Warned(trace[..|trace| - 1]) + (if trace[|trace| - 1].Warn? then [trace[|trace| - 1].field] else [])
  }

  /**
   * Perform a trace, one effect after another. The store is an upsert: it
   * ends holding the last saved message; the outbox only grows, by exactly
   * the sent messages; the log grows by exactly the warned fields; completion
   * is never undone.
   */
  function Run(w: World, trace: seq<Effect>): (r: World)
    ensures r.stored == (if LastSaved(trace).Some? then LastSaved(trace) else w.stored)
    ensures r.outbox == w.outbox + Sent(trace)
    ensures r.warnings == w.warnings + Warned(trace)
    ensures w.completed ==> r.completed
    ensures r.completed <==> w.completed || Done in trace
    decreases |trace|
  {
    if trace == [] then w
    else
      var front := trace[..|trace| - 1];
      assert trace == front + [trace[|trace| - 1]];
      AppendOne(front, trace[|trace| - 1]);
      Step(Run(w, front), trace[|trace| - 1])
  }

  /** Appending one effect: how the sent messages, the warnings and the last save change. */
  lemma AppendOne(t: seq<Effect>, e: Effect)
    ensures Sent(t + [e]) == Sent(t) + (if e.Send? then [e.msg] else [])
    ensures Warned(t + [e]) == Warned(t) + (if e.Warn? then [e.field] else [])
    ensures LastSaved(t + [e]) == if e.Save? then Some(e.msg) else LastSaved(t)
  {
    assert (t + [e])[..|t + [e]| - 1] == t;
  }

  /** A trace of warnings alone saves nothing, sends nothing and completes nothing. */
  lemma {:induction false} OnlyWarnings(t: seq<Effect>)
    requires forall i :: 0 <= i < |t| ==> t[i].Warn?
    ensures Sent(t) == [] && LastSaved(t) == None && Done !in t
    decreases |t|
  {
    if t != [] {
      var front := t[..|t| - 1];
      assert t == front + [t[|t| - 1]];
      OnlyWarnings(front);
      AppendOne(front, t[|t| - 1]);
    }
  }

  /** Every forwarded message was saved to the store earlier in the trace. */
  predicate PersistedBeforeForwarded(trace: seq<Effect>) {
    forall j :: 0 <= j < |trace| && trace[j].Send? ==>
      exists i :: 0 <= i < j && trace[i] == Save(trace[j].msg)
  }
}
