/** The five `/api/v1/todos` handlers, each a pure function from the request
    and the table before it to the response and the table after it. A
    handler that fails returns the table it was given: nothing is committed. */
module Routes {
  import opened Wrappers
  import opened Json
  import opened TodoModel
  import opened TodoStore

  /** The failures a handler reports, each with the message it sends. */
  datatype Failure = ExtraFieldsDetected | TitleNotGiven | InvalidDeadlineAt | TodoNotFound | IdNotChangeable {
    function Message(): string {
      match this
      case ExtraFieldsDetected => "Extra fields are detected."
      case TitleNotGiven => "Title field is not given in request body"
      case InvalidDeadlineAt => "Invalid 'deadline_at' datetime"
      case TodoNotFound => "Todo not found"
      case IdNotChangeable => "Not allowed to change the 'id' field of a todo"
    }
  }

  /** What a response carries: a JSON document, or a failure, which is sent
      as the object `{"error": <message>}`. */
  datatype Payload = Document(json: Json) | Error(failure: Failure) {
    function Wire(): (j: Json)
      ensures Document? ==> j == json
      ensures Error? ==> j.JObject? && j.fields.Keys == {"error"}
                         && j.fields["error"] == JStr(failure.Message())
    {
      match this
      case Document(json) => json
      case Error(failure) => JObject(map["error" := JStr(failure.Message())])
    }
  }

  /** An HTTP status code and the payload sent with it. */
  datatype Response = Response(status: int, payload: Payload)

  /** The body keys POST and PUT accept. */
  const AllowedFields: set<string> := {"title", "description", "completed", "deadline_at"}

  const ExtraFields: Response := Response(400, Error(ExtraFieldsDetected))
  const TitleMissing: Response := Response(400, Error(TitleNotGiven))
  const InvalidDeadline: Response := Response(404, Error(InvalidDeadlineAt))
  const NotFound: Response := Response(404, Error(TodoNotFound))
  const IdChange: Response := Response(400, Error(IdNotChangeable))

  /** The status and wire body of every failure the handlers report. */
  lemma FailureResponses()
    ensures ExtraFields.status == 400
    ensures ExtraFields.payload.Wire() == JObject(map["error" := JStr("Extra fields are detected.")])
    ensures TitleMissing.status == 400
    ensures TitleMissing.payload.Wire() == JObject(map["error" := JStr("Title field is not given in request body")])
    ensures InvalidDeadline.status == 404
    ensures InvalidDeadline.payload.Wire() == JObject(map["error" := JStr("Invalid 'deadline_at' datetime")])
    ensures NotFound.status == 404
    ensures NotFound.payload.Wire() == JObject(map["error" := JStr("Todo not found")])
    ensures IdChange.status == 400
    ensures IdChange.payload.Wire() == JObject(map["error" := JStr("Not allowed to change the 'id' field of a todo")])
  {
  }

  /** The `completed` query parameter as the framework converts it with
      `type=bool`: Python truthiness of the raw string, so only the empty
      string means false, and `completed=false` selects completed todos. */
  function CompletedArg(raw: Option<string>): (c: Option<bool>)
    ensures c.None? <==> raw.None?
    ensures c == Some(false) <==> raw == Some("")
    ensures raw == Some("false") ==> c == Some(true)
  {
    match raw
    case None => None
    case Some(text) => Some(text != "")
  }

  /** The filter GET /todos applies: `completed` equality when the parameter
      is given, and deadlines strictly before `window` days after `now` when
      `window` is given. */
  function ListFilter(completed: Option<string>, window: Option<int>, now: Timestamp): (f: Filter)
    ensures f.completed == CompletedArg(completed)
    ensures f.before.Some? <==> window.Some?
    ensures window.Some? ==> f.before == Some(now + window.value * SecondsPerDay)
  {
    Filter(CompletedArg(completed),
           if window.Some? then Some(now + window.value * SecondsPerDay) else None)
  }

  /** The rows under `ids`, serialised in that order. */
  function SerialiseAll(s: Store, ids: seq<int>, format: Timestamp -> string): (items: seq<Json>)
    requires forall i :: 0 <= i < |ids| ==> ids[i] in s.rows
    ensures |items| == |ids|
    ensures forall i :: 0 <= i < |ids| ==> items[i] == ToDict(s.rows[ids[i]], format)
  {
    seq(|ids|, i requires 0 <= i < |ids| => ToDict(s.rows[ids[i]], format))
  }

  /** GET /todos: 200 with the serialisations of exactly the rows that pass
      the filter, in ascending key order. */
  function GetTodos(s: Store, completed: Option<string>, window: Option<int>,
                    now: Timestamp, iso: IsoCodec): (r: Response)
    ensures r.status == 200 && r.payload.Document? && r.payload.json.JArray?
    ensures forall p :: p in r.payload.json.items ==>
      exists k :: k in s.rows && Matches(s.rows[k], ListFilter(completed, window, now))
                  && p == ToDict(s.rows[k], iso.format)
    ensures forall k :: k in s.rows && Matches(s.rows[k], ListFilter(completed, window, now))
                        ==> ToDict(s.rows[k], iso.format) in r.payload.json.items
  {
    var ids := Select(s, ListFilter(completed, window, now));
    Response(200, Document(JArray(SerialiseAll(s, ids, iso.format))))
  }

  /** GET /todos/<id>: the row's serialisation, or 404 when there is none. */
  function GetTodo(s: Store, id: int, iso: IsoCodec): (r: Response)
    ensures r.status == 200 <==> id in s.rows
    ensures id in s.rows ==> r.payload == Document(ToDict(s.rows[id], iso.format))
    ensures id !in s.rows ==> r == NotFound
  {
    match Find(s, id)
    case None => NotFound
    case Some(t) => Response(200, Document(ToDict(t, iso.format)))
  }

  /** What POST makes of the body's `deadline_at`: null (or absent) is no
      deadline, a string must parse, and anything else is rejected as
      `fromisoformat` rejects a non-string. None means rejected. */
  function ParseDeadline(v: Json, iso: IsoCodec): (d: Option<Deadline>)
    ensures v == JNull ==> d == Some(NoDeadline)
    ensures d.Some? && v != JNull ==> v.JStr? && d.value.Parsed? && iso.parse(v.text) == Some(d.value.at)
    ensures v.JStr? && iso.parse(v.text).Some? ==> d.Some?
    ensures d.Some? ==> !d.value.Unparsed?
  {
    match v
    case JNull => Some(NoDeadline)
    case JStr(text) =>
      (match iso.parse(text)
       case None => None
       case Some(t) => Some(Parsed(t)))
    case _ => None
  }

  /** POST /todos. Checks, in order: every key is allowed (400), the title is
      present and non-null (400), the deadline parses (404). On success one
      row is inserted under a fresh key and returned with 201. */
  function CreateTodo(s: Store, body: Body, now: Timestamp, iso: IsoCodec): (out: (Response, Store))
    ensures out.0.status in {201, 400, 404}
    ensures out.0.status != 201 ==> out.1 == s
    ensures HasKeyOutside(body, AllowedFields) ==> out.0 == ExtraFields
    ensures !HasKeyOutside(body, AllowedFields) && Get(body, "title", JNull) == JNull
            ==> out.0 == TitleMissing
    ensures out.0 == InvalidDeadline <==>
              !HasKeyOutside(body, AllowedFields) && Get(body, "title", JNull) != JNull
              && ParseDeadline(Get(body, "deadline_at", JNull), iso).None?
    ensures !HasKeyOutside(body, AllowedFields) && Get(body, "title", JNull) != JNull
            && ParseDeadline(Get(body, "deadline_at", JNull), iso).Some?
            ==> out.0.status == 201
    ensures out.0.status == 201 ==>
      && !HasKeyOutside(body, AllowedFields)
      && out.1.rows.Keys == s.rows.Keys + {s.nextId}
      && out.1.nextId > s.nextId
      && (Valid(s) ==> s.nextId !in s.rows && Valid(out.1))
      && (Valid(s) ==> forall k :: k in s.rows ==> out.1.rows[k] == s.rows[k])
      && var t := out.1.rows[s.nextId];
         && t.id == s.nextId
         && "title" in body && t.title == body["title"] != JNull
         && t.description == Get(body, "description", JNull)
         && t.completed == (if Get(body, "completed", JNull) == JNull then JBool(false) else body["completed"])
         && Some(t.deadline) == ParseDeadline(Get(body, "deadline_at", JNull), iso)
         && t.createdAt == now && t.updatedAt == now
         && out.0.payload == Document(ToDict(t, iso.format))
  {
    if HasKeyOutside(body, AllowedFields) then (ExtraFields, s)
    else
      var title := Get(body, "title", JNull);
      if title == JNull then (TitleMissing, s)
      else
        match ParseDeadline(Get(body, "deadline_at", JNull), iso)
        case None => (InvalidDeadline, s)
        case Some(deadline) =>
          var draft := NewTodo(s.nextId, title, Get(body, "description", JNull),
                               Get(body, "completed", JBool(false)), deadline, now);
          var (row, s') := Insert(s, draft);
          (Response(201, Document(ToDict(row, iso.format))), s')
  }

  /** PUT /todos/<id>. The allow-list is checked before the row is looked up,
      so an unknown key wins over a missing row; since "id" is not an allowed
      key, the explicit "id" check behind the lookup can never fire. On
      success the patched row replaces the old one and is returned. */
  function UpdateTodo(s: Store, id: int, body: Body, now: Timestamp, iso: IsoCodec): (out: (Response, Store))
    ensures out.0.status in {200, 400, 404}
    ensures out.0.status != 200 ==> out.1 == s
    ensures HasKeyOutside(body, AllowedFields) ==> out.0 == ExtraFields
    ensures !HasKeyOutside(body, AllowedFields) && id !in s.rows ==> out.0 == NotFound
    ensures !HasKeyOutside(body, AllowedFields) && id in s.rows ==> out.0.status == 200
    ensures "id" in body ==> out.0 == ExtraFields
    ensures out.0 != IdChange
    ensures out.0.status == 200 ==>
      && !HasKeyOutside(body, AllowedFields) && id in s.rows
      && out.1.rows.Keys == s.rows.Keys && out.1.nextId == s.nextId
      && (forall k :: k in s.rows && k != id ==> out.1.rows[k] == s.rows[k])
      && out.1.rows[id] == Patch(s.rows[id], body, now)
      && out.0.payload == Document(ToDict(out.1.rows[id], iso.format))
  {
    if HasKeyOutside(body, AllowedFields) then (ExtraFields, s)
    else
      match Find(s, id)
      case None => (NotFound, s)
      case Some(prev) =>
        if Get(body, "id", JNull) != JNull then (IdChange, s)
        else
          var t := Patch(prev, body, now);
          (Response(200, Document(ToDict(t, iso.format))), Replace(s, id, t))
  }

  /** DELETE /todos/<id>. Always 200: the removed row's serialisation, or an
      empty object (and no change) when there was no such row. */
  function DeleteTodo(s: Store, id: int, iso: IsoCodec): (out: (Response, Store))
    ensures out.0.status == 200
    ensures id !in s.rows ==> out.0.payload == Document(JObject(map[])) && out.1 == s
    ensures id in s.rows ==> out.0.payload == Document(ToDict(s.rows[id], iso.format))
    ensures out.1.rows.Keys == s.rows.Keys - {id} && out.1.nextId == s.nextId
    ensures forall k :: k in out.1.rows ==> out.1.rows[k] == s.rows[k]
  {
    match Find(s, id)
    case None => (Response(200, Document(JObject(map[]))), s)
    case Some(t) => (Response(200, Document(ToDict(t, iso.format))), Remove(s, id))
  }

  /** A request to the todo API. */
  datatype Request =
    | ListTodos(completed: Option<string>, window: Option<int>)
    | GetOne(id: int)
    | Create(body: Body)
    | Update(id: int, body: Body)
    | Delete(id: int)

  /** A request together with the time the server's clock reads while
      handling it. */
  datatype Call = Call(request: Request, now: Timestamp)

  /** Dispatch: the response and the table after one request. */
  function Handle(s: Store, req: Request, now: Timestamp, iso: IsoCodec): (out: (Response, Store))
    ensures (req.ListTodos? || req.GetOne?) ==> out.1 == s
    ensures out.1.nextId >= s.nextId
    ensures Valid(s) ==> Valid(out.1)
  {
    match req
    case ListTodos(completed, window) => (GetTodos(s, completed, window, now, iso), s)
    case GetOne(id) => (GetTodo(s, id, iso), s)
    case Create(body) => CreateTodo(s, body, now, iso)
    case Update(id, body) => UpdateTodo(s, id, body, now, iso)
    case Delete(id) => DeleteTodo(s, id, iso)
  }

  /** The table after handling `calls` one after another. */
  function Run(s: Store, calls: seq<Call>, iso: IsoCodec): Store
    decreases |calls|
  {
    if |calls| == 0 then s
    else Run(Handle(s, calls[0].request, calls[0].now, iso).1, calls[1..], iso)
  }
}
