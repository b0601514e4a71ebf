/** The `Todo` record: its columns, the defaults the table fills in on insert,
    the partial update PUT applies to it, and its JSON serialisation. */
module TodoModel {
  import opened Wrappers
  import opened Json

  /** A point in time, in whole seconds. The service only ever compares,
      offsets and prints timestamps. */
  type Timestamp = int

  const SecondsPerDay: int := 86400

  /** ISO-8601 conversion, left abstract: `parse` stands for
      `datetime.fromisoformat` (None where it raises), `format` for
      `datetime.isoformat`. */
  datatype IsoCodec = IsoCodec(parse: string -> Option<Timestamp>, format: Timestamp -> string)

  /** True when printing then parsing gives every timestamp back, as the
      Python standard library promises for its own ISO output. */
  ghost predicate RoundTrips(iso: IsoCodec) {
    forall t :: iso.parse(iso.format(t)) == Some(t)
  }

  /** The `deadline_at` column: no deadline (NULL), a timestamp that POST
      parsed, or a non-null body value that PUT stored without parsing. */
  datatype Deadline = NoDeadline | Parsed(at: Timestamp) | Unparsed(raw: Json)

  /** One row of the `todo` table. `title`, `description` and `completed`
      hold the JSON values the handlers assign to them; a null
      `description` is the column's NULL. */
  datatype Todo = Todo(
    id: int,
    title: Json,
    description: Json,
    completed: Json,
    deadline: Deadline,
    createdAt: Timestamp,
    updatedAt: Timestamp)

  /** The keys `to_dict` emits, and no others. */
  const SerialisedKeys: set<string> :=
    {"id", "title", "description", "completed", "deadline_at", "created_at", "updated_at"}

  /** The row POST inserts under `id` at time `now`. A `completed` that is
      null (or was absent) is left to the column default, false; both
      timestamp columns take their default, the insertion time. */
  function NewTodo(id: int, title: Json, description: Json, completed: Json,
                   deadline: Deadline, now: Timestamp): (t: Todo)
    ensures t.id == id && t.title == title && t.description == description
    ensures t.deadline == deadline
    ensures completed == JNull ==> t.completed == JBool(false)
    ensures completed != JNull ==> t.completed == completed
    ensures t.createdAt == now && t.updatedAt == now
  {
    Todo(id, title, description, if completed == JNull then JBool(false) else completed,
         deadline, now, now)
  }

  /** What assigning a body value to `deadline_at` stores: null clears the
      deadline, anything else is kept as it came. */
  function StoredDeadline(v: Json): (d: Deadline)
    ensures d.NoDeadline? <==> v == JNull
    ensures d.Unparsed? ==> d.raw == v
    ensures !d.Parsed?
  {
    if v == JNull then NoDeadline else Unparsed(v)
  }

  /** True when two rows agree on every column the update statement writes
      from the body, i.e. everything except `updated_at`. */
  predicate SameColumns(a: Todo, b: Todo) {
    a.(updatedAt := b.updatedAt) == b
  }

  /** The row after PUT applies `body` at time `now`: every field whose key
      is present takes the body's value (null included), every absent key
      keeps the previous value. `updated_at` is refreshed when the update changes
      some column (the table's on-update default fires only when an UPDATE
      is issued); `id` and `created_at` are never touched. */
  function Patch(prev: Todo, body: Body, now: Timestamp): (t: Todo)
    ensures "title" in body ==> t.title == body["title"]
    ensures "title" !in body ==> t.title == prev.title
    ensures "description" in body ==> t.description == body["description"]
    ensures "description" !in body ==> t.description == prev.description
    ensures "completed" in body ==> t.completed == body["completed"]
    ensures "completed" !in body ==> t.completed == prev.completed
    ensures "deadline_at" in body ==> t.deadline == StoredDeadline(body["deadline_at"])
    ensures "deadline_at" !in body ==> t.deadline == prev.deadline
    ensures t.id == prev.id && t.createdAt == prev.createdAt
    ensures SameColumns(t, prev) ==> t == prev
    ensures !SameColumns(t, prev) ==> t.updatedAt == now
  {
    var patched := prev.(
      title := Get(body, "title", prev.title),
      description := Get(body, "description", prev.description),
      completed := Get(body, "completed", prev.completed),
      deadline := if "deadline_at" in body then StoredDeadline(body["deadline_at"]) else prev.deadline);
    if patched == prev then prev else patched.(updatedAt := now)
  }

  /** How `to_dict` prints the deadline: null without one, the ISO string of
      a parsed one; a value PUT stored unparsed is echoed. */
  function DeadlineJson(d: Deadline, format: Timestamp -> string): (v: Json)
    ensures d.NoDeadline? ==> v == JNull
    ensures d.Parsed? ==> v == JStr(format(d.at))
  {
    match d
    case NoDeadline => JNull
    case Parsed(t) => JStr(format(t))
    case Unparsed(raw) => raw
  }

  /** `Todo.to_dict`: exactly seven keys. The `updated_at` slot is filled from
      `created_at`, so the stored `updated_at` never reaches a client. */
  function ToDict(t: Todo, format: Timestamp -> string): (d: Json)
    ensures d.JObject? && d.fields.Keys == SerialisedKeys
    ensures d.fields["id"] == JNum(t.id)
    ensures d.fields["title"] == t.title
    ensures d.fields["description"] == t.description
    ensures d.fields["completed"] == t.completed
    ensures t.deadline.NoDeadline? ==> d.fields["deadline_at"] == JNull
    ensures t.deadline.Parsed? ==> d.fields["deadline_at"] == JStr(format(t.deadline.at))
    ensures d.fields["created_at"] == JStr(format(t.createdAt))
    ensures d.fields["updated_at"] == d.fields["created_at"]
  {
    JObject(map[
      "id" := JNum(t.id),
      "title" := t.title,
      "description" := t.description,
      "completed" := t.completed,
      "deadline_at" := DeadlineJson(t.deadline, format),
      "created_at" := JStr(format(t.createdAt)),
      "updated_at" := JStr(format(t.createdAt))])
  }

  /** The serialisation does not depend on the stored `updated_at` at all:
      two rows that differ only there print identically. */
  lemma ToDictIgnoresUpdatedAt(t: Todo, u: Timestamp, format: Timestamp -> string)
    ensures ToDict(t.(updatedAt := u), format) == ToDict(t, format)
  {
  }

  /** Distinct ids serialise differently, so a list of serialised rows with
      distinct ids has no repeated entry. */
  lemma ToDictSeparatesIds(a: Todo, b: Todo, format: Timestamp -> string)
    requires a.id != b.id
    ensures ToDict(a, format) != ToDict(b, format)
  {
  }
}
