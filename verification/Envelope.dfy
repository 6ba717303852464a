/**
 The event envelope products send, and its validation: every problem of the input is collected into a list of
 field errors, and only an empty list lets the envelope through.
 */
module Envelope {
  import opened Wrappers

  datatype Json =
    | Null
    | Bool(b: bool)
    | Num(n: int)
    | Str(s: string)
    | Arr(items: seq<Json>)
    | Obj(fields: map<string, Json>)

  datatype Visibility = Public | Shared | Private

  datatype Resource = Resource(id: string, kind: string, path: string, handle: string, owner: Option<string>,
                               visibility: Visibility, payload: Json, createdAt: string, updatedAt: string)

  datatype EventKind = Created | Updated | Deleted

  datatype EventEnvelope = EventEnvelope(eventId: string, appId: string, kind: EventKind, resource: Resource,
                                         idempotency: string, emittedAt: string)

  datatype FieldError = FieldError(field: string, message: string)

  const REQUIRED_STRING := "required string"
  const KIND_MESSAGE := "must be resource.created | resource.updated | resource.deleted"
  const VISIBILITY_MESSAGE := "must be public | shared | private"
  const MUST_BE_OBJECT := "must be object"
  const REQUIRED_OBJECT := "required object"

  // ---- Wire names ----

  function KindName(k: EventKind): string {
    match k case Created => "resource.created" case Updated => "resource.updated" case Deleted => "resource.deleted"
  }

  function VisibilityName(v: Visibility): string {
    match v case Public => "public" case Shared => "shared" case Private => "private"
  }

  /** The serialised form; an absent owner is left out. */
  function EncodeResource(r: Resource): Json {
    var fields := map["id" := Str(r.id), "type" := Str(r.kind), "path" := Str(r.path), "handle" := Str(r.handle),
                      "visibility" := Str(VisibilityName(r.visibility)), "payload" := r.payload,
                      "createdAt" := Str(r.createdAt), "updatedAt" := Str(r.updatedAt)];
    Obj(if r.owner.Some? then fields["owner" := Str(r.owner.value)] else fields)
  }

  function Encode(e: EventEnvelope): Json {
    Obj(map["event_id" := Str(e.eventId), "app_id" := Str(e.appId), "kind" := Str(KindName(e.kind)),
            "resource" := EncodeResource(e.resource), "idempotency" := Str(e.idempotency),
            "emitted_at" := Str(e.emittedAt)])
  }

  // ---- What a well-typed envelope is ----

  function Text(obj: map<string, Json>, key: string): Option<string> {
    if key in obj && obj[key].Str? then Some(obj[key].s) else None
  }

  function KindOf(obj: map<string, Json>): Option<EventKind> {
    match Text(obj, "kind")
    case None => None
    case Some(s) =>
      if s == "resource.created" then Some(Created)
      else if s == "resource.updated" then Some(Updated)
      else if s == "resource.deleted" then Some(Deleted)
      else None
  }

  function VisibilityOf(obj: map<string, Json>): Option<Visibility> {
    match Text(obj, "visibility")
    case None => None
    case Some(s) =>
      if s == "public" then Some(Public)
      else if s == "shared" then Some(Shared)
      else if s == "private" then Some(Private)
      else None
  }

  predicate HasPayload(obj: map<string, Json>) {
    "payload" in obj && obj["payload"].Obj?
  }

  predicate ResourceTyped(input: Json) {
    && input.Obj?
    && Text(input.fields, "id").Some? && Text(input.fields, "type").Some?
    && Text(input.fields, "path").Some? && Text(input.fields, "handle").Some?
    && VisibilityOf(input.fields).Some? && HasPayload(input.fields)
    && Text(input.fields, "createdAt").Some? && Text(input.fields, "updatedAt").Some?
  }

  predicate WellTyped(input: Json) {
    && input.Obj?
    && Text(input.fields, "event_id").Some? && Text(input.fields, "app_id").Some?
    && Text(input.fields, "idempotency").Some? && Text(input.fields, "emitted_at").Some?
    && KindOf(input.fields).Some?
    && "resource" in input.fields && ResourceTyped(input.fields["resource"])
  }

  /** Ingestion never takes an owner from the input. */
  function ReadResource(input: Json): Resource
    requires ResourceTyped(input)
  {
    var o := input.fields;
    Resource(Text(o, "id").value, Text(o, "type").value, Text(o, "path").value, Text(o, "handle").value, None,
             VisibilityOf(o).value, o["payload"], Text(o, "createdAt").value, Text(o, "updatedAt").value)
  }

  function Read(input: Json): EventEnvelope
    requires WellTyped(input)
  {
    var o := input.fields;
    EventEnvelope(Text(o, "event_id").value, Text(o, "app_id").value, KindOf(o).value, ReadResource(o["resource"]),
                  Text(o, "idempotency").value, Text(o, "emitted_at").value)
  }

  // ---- The error list ----

  function TextError(obj: map<string, Json>, key: string): seq<FieldError> {
    if Text(obj, key).Some? then [] else [FieldError(key, REQUIRED_STRING)]
  }

  function VisibilityError(o: map<string, Json>): seq<FieldError> {
    if VisibilityOf(o).Some? then [] else [FieldError("visibility", VISIBILITY_MESSAGE)]
  }

  function PayloadError(o: map<string, Json>): seq<FieldError> {
    if HasPayload(o) then [] else [FieldError("payload", MUST_BE_OBJECT)]
  }

  function KindError(o: map<string, Json>): seq<FieldError> {
    if KindOf(o).Some? then [] else [FieldError("kind", KIND_MESSAGE)]
  }

  function LocalErrors(o: map<string, Json>): seq<FieldError> {
    TextError(o, "id") + TextError(o, "type") + TextError(o, "path") + TextError(o, "handle")
    + VisibilityError(o) + PayloadError(o) + TextError(o, "createdAt") + TextError(o, "updatedAt")
  }

  function Prefixed(es: seq<FieldError>): (r: seq<FieldError>)
    ensures |r| == |es|
    ensures forall i :: 0 <= i < |es| ==> r[i] == FieldError("resource." + es[i].field, es[i].message)
  {
    if es == [] then [] else [FieldError("resource." + es[0].field, es[0].message)] + Prefixed(es[1..])
  }

  function ResourceErrors(input: Json): seq<FieldError> {
    if input.Obj? then Prefixed(LocalErrors(input.fields)) else [FieldError("resource", MUST_BE_OBJECT)]
  }

  function EnvelopeErrors(input: Json): seq<FieldError> {
    if !input.Obj? then [FieldError("", MUST_BE_OBJECT)]
    else
      var o := input.fields;
      TextError(o, "event_id") + TextError(o, "app_id") + TextError(o, "idempotency") + TextError(o, "emitted_at")
      + KindError(o)
      + (if "resource" in o then ResourceErrors(o["resource"]) else [FieldError("resource", REQUIRED_OBJECT)])
  }

  // ---- The validator ----

  /** A vector of errors that the checks below push onto. */
  class ErrorList {
    var items: seq<FieldError>

    constructor ()
      ensures items == []
    {
      items := [];
    }

    method Push(field: string, message: string)
      modifies this
      ensures items == old(items) + [FieldError(field, message)]
    {
      items := items + [FieldError(field, message)];
    }
  }

  method RequireStr(obj: map<string, Json>, key: string, errors: ErrorList) returns (v: Option<string>)
    modifies errors
    ensures v == Text(obj, key)
    ensures errors.items == old(errors.items) + TextError(obj, key)
  {
    if key in obj && obj[key].Str? {
      v := Some(obj[key].s);
    } else {
      errors.Push(key, REQUIRED_STRING);
      v := None;
    }
  }

  /** The parts of a resource, each looked at in turn; what is bad is pushed onto `local`. */
  method ReadParts(obj: map<string, Json>, local: ErrorList)
    returns (id: Option<string>, kind: Option<string>, path: Option<string>, handle: Option<string>,
             visibility: Option<Visibility>, payload: Json, createdAt: Option<string>, updatedAt: Option<string>)
    requires local.items == []
    modifies local
    ensures local.items == LocalErrors(obj)
    ensures id == Text(obj, "id") && kind == Text(obj, "type")
    ensures path == Text(obj, "path") && handle == Text(obj, "handle")
    ensures visibility == VisibilityOf(obj)
    ensures payload == if HasPayload(obj) then obj["payload"] else Null
    ensures createdAt == Text(obj, "createdAt") && updatedAt == Text(obj, "updatedAt")
  {
    id := RequireStr(obj, "id", local);
    assert local.items == TextError(obj, "id");
    kind := RequireStr(obj, "type", local);
    path := RequireStr(obj, "path", local);
    handle := RequireStr(obj, "handle", local);
    ghost var sofar := local.items;
    visibility := VisibilityOf(obj);
    if visibility.None? {
      local.Push("visibility", VISIBILITY_MESSAGE);
    }
    assert local.items == sofar + VisibilityError(obj);
    sofar := local.items;
    payload := Null;
    if "payload" in obj && obj["payload"].Obj? {
      payload := obj["payload"];
    } else {
      local.Push("payload", MUST_BE_OBJECT);
    }
    assert local.items == sofar + PayloadError(obj);
    createdAt := RequireStr(obj, "createdAt", local);
    updatedAt := RequireStr(obj, "updatedAt", local);
  }

  method ValidateResource(input: Json, errors: ErrorList) returns (r: Option<Resource>)
    modifies errors
    ensures r.Some? <==> ResourceTyped(input)
    ensures r.Some? ==> r.value == ReadResource(input)
    ensures errors.items == old(errors.items) + ResourceErrors(input)
  {
    if !input.Obj? {
      errors.Push("resource", MUST_BE_OBJECT);
      return None;
    }
    var local := new ErrorList();
    var id, kind, path, handle, visibility, payload, createdAt, updatedAt := ReadParts(input.fields, local);
    LocalErrorsEmpty(input.fields);
    if local.items == [] {
      return Some(Resource(id.value, kind.value, path.value, handle.value, None, visibility.value, payload,
                           createdAt.value, updatedAt.value));
    }
    MovePrefixed(local, errors);
    return None;
  }

  /** Move the local errors to the parent, each under its prefixed name. */
  method MovePrefixed(local: ErrorList, errors: ErrorList)
    requires local != errors
    modifies errors
    ensures errors.items == old(errors.items) + Prefixed(local.items)
  {
    for i := 0 to |local.items|
      invariant errors.items == old(errors.items) + Prefixed(local.items)[..i]
    {
      errors.Push("resource." + local.items[i].field, local.items[i].message);
    }
  }

  /** The value or every error, in the order the parts are looked at. */
  method ValidateEnvelope(input: Json) returns (r: Result<EventEnvelope, seq<FieldError>>)
    ensures r.Ok? <==> WellTyped(input)
    ensures r.Ok? ==> r.value == Read(input)
    ensures r.Err? ==> r.error == EnvelopeErrors(input)
  {
    if !input.Obj? {
      return Err([FieldError("", MUST_BE_OBJECT)]);
    }
    var errors := new ErrorList();
    var obj := input.fields;
    var eventId := RequireStr(obj, "event_id", errors);
    assert errors.items == TextError(obj, "event_id");
    var appId := RequireStr(obj, "app_id", errors);
    var idempotency := RequireStr(obj, "idempotency", errors);
    var emittedAt := RequireStr(obj, "emitted_at", errors);
    ghost var sofar := errors.items;
    var kind := KindOf(obj);
    if kind.None? {
      errors.Push("kind", KIND_MESSAGE);
    }
    assert errors.items == sofar + KindError(obj);
    var resource := None;
    if "resource" in obj {
      resource := ValidateResource(obj["resource"], errors);
    } else {
      errors.Push("resource", REQUIRED_OBJECT);
    }
    NoErrorsIffWellTyped(input);
    if errors.items != [] {
      return Err(errors.items);
    }
    return Ok(EventEnvelope(eventId.value, appId.value, kind.value, resource.value, idempotency.value,
                            emittedAt.value));
  }

  lemma LocalErrorsEmpty(o: map<string, Json>)
    ensures LocalErrors(o) == [] <==> ResourceTyped(Obj(o))
  {
  }

  /** The list is empty exactly for a well-typed envelope, so no part can be missing when it is unwrapped. */
  lemma NoErrorsIffWellTyped(input: Json)
    ensures EnvelopeErrors(input) == [] <==> WellTyped(input)
  {
    if input.Obj? && "resource" in input.fields && input.fields["resource"].Obj? {
      LocalErrorsEmpty(input.fields["resource"].fields);
    }
  }

  /** A kind or a visibility is read exactly from its own wire name; every other string, and no string, is refused. */
  lemma NamesReadExactly(obj: map<string, Json>, k: EventKind, v: Visibility)
    ensures KindOf(obj) == Some(k) <==> Text(obj, "kind") == Some(KindName(k))
    ensures VisibilityOf(obj) == Some(v) <==> Text(obj, "visibility") == Some(VisibilityName(v))
    ensures KindOf(obj).None? <==>
              Text(obj, "kind") !in {Some("resource.created"), Some("resource.updated"), Some("resource.deleted")}
    ensures VisibilityOf(obj).None? <==>
              Text(obj, "visibility") !in {Some("public"), Some("shared"), Some("private")}
  {
  }

  // ---- Errors name exactly the bad parts ----

  predicate Reported(es: seq<FieldError>, field: string) {
    exists i :: 0 <= i < |es| && es[i].field == field
  }

  predicate BadLocal(o: map<string, Json>, field: string) {
    || (field in {"id", "type", "path", "handle", "createdAt", "updatedAt"} && Text(o, field).None?)
    || (field == "visibility" && VisibilityOf(o).None?)
    || (field == "payload" && !HasPayload(o))
  }

  lemma ReportedSplit(a: seq<FieldError>, b: seq<FieldError>, field: string)
    ensures Reported(a + b, field) <==> Reported(a, field) || Reported(b, field)
  {
    if Reported(a, field) {
      var i :| 0 <= i < |a| && a[i].field == field;
      assert (a + b)[i].field == field;
    }
    if Reported(b, field) {
      var i :| 0 <= i < |b| && b[i].field == field;
      assert (a + b)[|a| + i].field == field;
    }
  }

  lemma PartReported(o: map<string, Json>, key: string, field: string)
    ensures Reported(TextError(o, key), field) <==> field == key && Text(o, key).None?
    ensures Reported(VisibilityError(o), field) <==> field == "visibility" && VisibilityOf(o).None?
    ensures Reported(PayloadError(o), field) <==> field == "payload" && !HasPayload(o)
    ensures Reported(KindError(o), field) <==> field == "kind" && KindOf(o).None?
  {
    if Text(o, key).None? { assert TextError(o, key)[0].field == key; }
    if VisibilityOf(o).None? { assert VisibilityError(o)[0].field == "visibility"; }
    if !HasPayload(o) { assert PayloadError(o)[0].field == "payload"; }
    if KindOf(o).None? { assert KindError(o)[0].field == "kind"; }
  }

  lemma LocalErrorsExact(o: map<string, Json>, field: string)
    ensures Reported(LocalErrors(o), field) <==> BadLocal(o, field)
  {
    var e2 := TextError(o, "id") + TextError(o, "type");
    var e4 := e2 + TextError(o, "path") + TextError(o, "handle");
    var e6 := e4 + VisibilityError(o) + PayloadError(o);
    ReportedSplit(TextError(o, "id"), TextError(o, "type"), field);
    ReportedSplit(e2, TextError(o, "path"), field);
    ReportedSplit(e2 + TextError(o, "path"), TextError(o, "handle"), field);
    ReportedSplit(e4, VisibilityError(o), field);
    ReportedSplit(e4 + VisibilityError(o), PayloadError(o), field);
    ReportedSplit(e6, TextError(o, "createdAt"), field);
    ReportedSplit(e6 + TextError(o, "createdAt"), TextError(o, "updatedAt"), field);
    PartReported(o, "id", field);
    PartReported(o, "type", field);
    PartReported(o, "path", field);
    PartReported(o, "handle", field);
    PartReported(o, "createdAt", field);
    PartReported(o, "updatedAt", field);
  }

  /** A part of the resource is reported under its prefixed name. */
  lemma ResourcePartsReported(o: map<string, Json>, field: string)
    ensures Reported(Prefixed(LocalErrors(o)), field)
            <==> exists part :: field == "resource." + part && BadLocal(o, part)
  {
    var es := LocalErrors(o);
    if Reported(Prefixed(es), field) {
      var i :| 0 <= i < |es| && Prefixed(es)[i].field == field;
      LocalErrorsExact(o, es[i].field);
      assert field == "resource." + es[i].field && BadLocal(o, es[i].field);
    }
    if part :| field == "resource." + part && BadLocal(o, part) {
      LocalErrorsExact(o, part);
      var i :| 0 <= i < |es| && es[i].field == part;
      assert Prefixed(es)[i].field == field;
    }
  }

  /** A missing or ill-typed part of the input, by the name it is reported under. */
  ghost predicate BadPart(o: map<string, Json>, field: string) {
    || (field in {"event_id", "app_id", "idempotency", "emitted_at"} && Text(o, field).None?)
    || (field == "kind" && KindOf(o).None?)
    || (field == "resource" && ("resource" !in o || !o["resource"].Obj?))
    || ("resource" in o && o["resource"].Obj?
        && exists part :: field == "resource." + part && BadLocal(o["resource"].fields, part))
  }

  /** The error list of an object names exactly its bad parts: none is missed and none is invented. */
  lemma ErrorsExact(o: map<string, Json>, field: string)
    ensures Reported(EnvelopeErrors(Obj(o)), field) <==> BadPart(o, field)
  {
    var e2 := TextError(o, "event_id") + TextError(o, "app_id");
    var e4 := e2 + TextError(o, "idempotency") + TextError(o, "emitted_at");
    var last := if "resource" in o then ResourceErrors(o["resource"]) else [FieldError("resource", REQUIRED_OBJECT)];
    ReportedSplit(TextError(o, "event_id"), TextError(o, "app_id"), field);
    ReportedSplit(e2, TextError(o, "idempotency"), field);
    ReportedSplit(e2 + TextError(o, "idempotency"), TextError(o, "emitted_at"), field);
    ReportedSplit(e4, KindError(o), field);
    ReportedSplit(e4 + KindError(o), last, field);
    PartReported(o, "event_id", field);
    PartReported(o, "app_id", field);
    PartReported(o, "idempotency", field);
    PartReported(o, "emitted_at", field);
    LastReported(o, last, field);
  }

  lemma LastReported(o: map<string, Json>, last: seq<FieldError>, field: string)
    requires last ==
      if "resource" in o then ResourceErrors(o["resource"]) else [FieldError("resource", REQUIRED_OBJECT)]
    ensures Reported(last, field) <==>
      (field == "resource" && ("resource" !in o || !o["resource"].Obj?))
      || ("resource" in o && o["resource"].Obj?
          && exists part :: field == "resource." + part && BadLocal(o["resource"].fields, part))
  {
    if "resource" in o && o["resource"].Obj? {
      ResourcePartsReported(o["resource"].fields, field);
    } else {
      assert last[0].field == "resource";
    }
  }

  // ---- Round trip ----

  lemma NamesDecode(o: map<string, Json>, k: EventKind, v: Visibility)
    ensures Text(o, "kind") == Some(KindName(k)) ==> KindOf(o) == Some(k)
    ensures Text(o, "visibility") == Some(VisibilityName(v)) ==> VisibilityOf(o) == Some(v)
  {
  }

  /** The serialised form names an owner exactly when there is one. */
  lemma OwnerWritten(r: Resource)
    ensures Text(EncodeResource(r).fields, "owner") == r.owner
  {
  }

  lemma ResourceRoundTrip(r: Resource)
    requires r.payload.Obj?
    ensures ResourceTyped(EncodeResource(r)) && ReadResource(EncodeResource(r)) == r.(owner := None)
  {
    NamesDecode(EncodeResource(r).fields, Created, r.visibility);
  }

  lemma EnvelopeRoundTrip(e: EventEnvelope)
    requires e.resource.payload.Obj?
    ensures WellTyped(Encode(e)) && Read(Encode(e)) == e.(resource := e.resource.(owner := None))
  {
    var o := Encode(e).fields;
    NamesDecode(o, e.kind, Public);
    ResourceRoundTrip(e.resource);
    assert o["resource"] == EncodeResource(e.resource);
  }

  /**
   Validating the serialised form of an envelope gives the envelope back without its owner. The form is accepted
   exactly when the payload is an object.
   */
  lemma EncodeRoundTrip(e: EventEnvelope)
    ensures WellTyped(Encode(e)) <==> e.resource.payload.Obj?
    ensures WellTyped(Encode(e)) ==> Read(Encode(e)) == e.(resource := e.resource.(owner := None))
  {
    if e.resource.payload.Obj? {
      EnvelopeRoundTrip(e);
    } else {
      assert Encode(e).fields["resource"] == EncodeResource(e.resource);
      assert EncodeResource(e.resource).fields["payload"] == e.resource.payload;
    }
  }

  /** Whatever was accepted once is accepted again, unchanged, after a trip over the wire. */
  lemma AcceptedIsStable(input: Json)
    requires WellTyped(input)
    ensures WellTyped(Encode(Read(input))) && Read(Encode(Read(input))) == Read(input)
  {
    EncodeRoundTrip(Read(input));
  }
}
