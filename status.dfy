/**
  * The `Status` value of frontend/static/frontend/status.js: a status that
  * is "ok" or "err" and an arbitrary payload, compared with `===`, and its
  * JSON form `{"status": ..., "payload": ...}`.
  *
  * JSON is the value layer: `JSON.stringify` produces a `Json` value and
  * `JSON.parse` reads one back, creating new objects. An object payload is
  * a reference together with its JSON content.
  */
module Statuses {
  import opened Wrappers

  /** The JSON values `JSON.stringify` writes and `JSON.parse` reads; object members keep their order. */
  datatype Json =
    | JNull
    | JBool(b: bool)
    | JNum(n: int)
    | JStr(s: string)
    | JArr(items: seq<Json>)
    | JObj(props: seq<(string, Json)>)

  /** JavaScript values as a payload can hold them: primitives, or an object or array by reference. */
  datatype JsValue =
    | Undefined
    | Null
    | Bool(b: bool)
    | Num(n: int)
    | Str(s: string)
    | Object(ref: nat, content: Json)

  /** `a === b`: primitives by value, objects by reference. */
  predicate StrictEquals(a: JsValue, b: JsValue) {
    if a.Object? || b.Object? then a.Object? && b.Object? && a.ref == b.ref else a == b
  }

  type Tag = s: string | s == "ok" || s == "err" witness "ok"

  datatype Status = Status(status: Tag, payload: JsValue)

  /** The `TypeError` the constructor throws, and the one from reading a property of `null`. */
  datatype JsError = StatusTypeError | NullPropertyError

  /** `new Status(status, payload)`. */
  function NewStatus(status: JsValue, payload: JsValue): (r: Result<Status, JsError>)
    ensures r.Ok? <==> status == Str("ok") || status == Str("err")
    ensures r.Ok? ==> Str(r.value.status) == status && r.value.payload == payload
    ensures r.Err? ==> r.error == StatusTypeError
  {
    if status != Str("ok") && status != Str("err") then Err(StatusTypeError)
    else Ok(Status(status.s, payload))
  }

  /** `equals`: with primitive payloads it is equality of the two fields; with objects it is identity. */
  predicate Equals(a: Status, b: Status)
    ensures !a.payload.Object? && !b.payload.Object? ==> (Equals(a, b) <==> a == b)
    ensures a.payload.Object? && b.payload.Object? ==>
      (Equals(a, b) <==> a.status == b.status && a.payload.ref == b.payload.ref)
    ensures a.payload.Object? != b.payload.Object? ==> !Equals(a, b)
  {
    StrictEquals(Str(a.status), Str(b.status)) && StrictEquals(a.payload, b.payload)
  }

  predicate IsOk(s: Status) {
    s.status == "ok"
  }

  predicate IsErr(s: Status) {
    s.status == "err"
  }

  /** `Status.ok(payload)`. */
  function OkStatus(payload: JsValue): (s: Status)
    ensures IsOk(s) && !IsErr(s) && s.payload == payload
  {
    Status("ok", payload)
  }

  /** `Status.err(payload)`. */
  function ErrStatus(payload: JsValue): (s: Status)
    ensures IsErr(s) && !IsOk(s) && s.payload == payload
  {
    Status("err", payload)
  }

  /** Every status is ok or err, never both. */
  lemma OkXorErr(s: Status)
    ensures IsOk(s) != IsErr(s)
  {
  }

  /** The static helpers build what the constructor builds. */
  lemma HelpersAreConstructor(payload: JsValue)
    ensures NewStatus(Str("ok"), payload) == Ok(OkStatus(payload))
    ensures NewStatus(Str("err"), payload) == Ok(ErrStatus(payload))
  {
  }

  /* ---------------- to_json and from_json ---------------- */

  /** `JSON.stringify` of a defined value. */
  function Stringify(v: JsValue): Json
    requires !v.Undefined?
  {
    match v
    case Null => JNull
    case Bool(b) => JBool(b)
    case Num(n) => JNum(n)
    case Str(s) => JStr(s)
    case Object(_, content) => content
  }

  /** `JSON.parse`: primitives come back as themselves; objects and arrays as a new object `newRef`. */
  function Parse(j: Json, newRef: nat): JsValue {
    match j
    case JNull => Null
    case JBool(b) => Bool(b)
    case JNum(n) => Num(n)
    case JStr(s) => Str(s)
    case JArr(_) => Object(newRef, j)
    case JObj(_) => Object(newRef, j)
  }

  /**
    * `to_json`: an object whose "status" member is the status and whose
    * "payload" member is the stringified payload; an undefined payload is
    * left out, as `JSON.stringify` does.
    */
  function ToJson(s: Status): (j: Json)
    ensures j.JObj?
    ensures Member(j.props, "status") == Some(JStr(s.status))
    ensures Member(j.props, "payload") == if s.payload.Undefined? then None else Some(Stringify(s.payload))
  {
    var props := [("status", JStr(s.status))] + if s.payload.Undefined? then [] else [("payload", Stringify(s.payload))];
    assert props[..|props| - 1] == [] || props[..|props| - 1] == [("status", JStr(s.status))];
    JObj(props)
  }

  /** A member of a parsed object: the last one with that key, or None when there is none. */
  function Member(props: seq<(string, Json)>, key: string): (r: Option<Json>)
    ensures r.Some? ==> exists k | 0 <= k < |props| :: props[k] == (key, r.value)
    ensures r.None? <==> forall k | 0 <= k < |props| :: props[k].0 != key
  {
    if props == [] then None
    else if props[|props| - 1].0 == key then Some(props[|props| - 1].1)
    else
      var r := Member(props[..|props| - 1], key);
      assert forall k | 0 <= k < |props| - 1 :: props[k] == props[..|props| - 1][k];
      r
  }

  /** `json[key]` on the parsed document: undefined on a missing member or a non-object. */
  function Property(j: Json, key: string, newRef: nat): JsValue
    requires !j.JNull?
  {
    if !j.JObj? then Undefined
    else match Member(j.props, key)
      case None => Undefined
      case Some(v) => Parse(v, newRef)
  }

  /** `from_json` on a parsed document; `newRef` is the reference a parsed object payload receives. */
  function FromJson(j: Json, newRef: nat): (r: Result<Status, JsError>)
    ensures r.Err? ==> j.JNull? || Property(j, "status", newRef) !in {Str("ok"), Str("err")}
  {
    if j.JNull? then Err(NullPropertyError)
    else NewStatus(Property(j, "status", newRef), Property(j, "payload", newRef))
  }

  /** A document whose status is anything but "ok" or "err" is refused. */
  lemma FromJsonRejectsOtherStatus(props: seq<(string, Json)>, newRef: nat)
    requires Member(props, "status") != Some(JStr("ok")) && Member(props, "status") != Some(JStr("err"))
    ensures FromJson(JObj(props), newRef) == Err(StatusTypeError)
  {
  }

  /** `from_json(to_json(s))` gives back the status, and the payload when it is a primitive or undefined. */
  lemma RoundTripPrimitive(s: Status, newRef: nat)
    requires !s.payload.Object?
    ensures FromJson(ToJson(s), newRef) == Ok(s)
    ensures Equals(s, FromJson(ToJson(s), newRef).value)
  {
  }

  /**
    * An object payload comes back with its status and its content but as a
    * new object, so the result is never `equals` to the original.
    */
  lemma RoundTripObject(s: Status, newRef: nat)
    requires s.payload.Object? && newRef != s.payload.ref
    requires s.payload.content.JArr? || s.payload.content.JObj?
    ensures FromJson(ToJson(s), newRef).Ok?
    ensures var t := FromJson(ToJson(s), newRef).value;
      t.status == s.status && t.payload == Object(newRef, s.payload.content) && !Equals(s, t)
  {
  }
}
