/** Properties that relate several requests, or that hold over any sequence
    of requests: round trips through GET, idempotence of DELETE and PUT, the
    exact contents of the list, and the table invariants (unique keys that
    are never reused, `id` and `created_at` never rewritten). */
module RouteProperties {
  import opened Wrappers
  import opened Json
  import opened TodoModel
  import opened TodoStore
  import opened Routes

  /** POST then GET: the row a successful POST created is served back by
      GET exactly as POST returned it. */
  lemma CreateThenGet(s: Store, body: Body, now: Timestamp, iso: IsoCodec)
    requires CreateTodo(s, body, now, iso).0.status == 201
    ensures GetTodo(CreateTodo(s, body, now, iso).1, s.nextId, iso)
            == Response(200, CreateTodo(s, body, now, iso).0.payload)
  {
  }

  /** POST with nothing but a title: 201 with `completed` false, null
      description and deadline, and equal `created_at` and `updated_at`. */
  lemma CreateWithTitleOnly(s: Store, title: Json, now: Timestamp, iso: IsoCodec)
    requires title != JNull
    ensures var r := CreateTodo(s, map["title" := title], now, iso).0;
      && r.status == 201
      && r.payload.Document? && r.payload.json.JObject?
      && var d := r.payload.json.fields;
         && d.Keys == SerialisedKeys
         && d["title"] == title
         && d["completed"] == JBool(false)
         && d["description"] == JNull
         && d["deadline_at"] == JNull
         && d["created_at"] == d["updated_at"] == JStr(iso.format(now))
  {
  }

  /** A deadline written by the ISO printer is accepted by POST and is
      served back as the same string. */
  lemma CreateWithPrintedDeadline(s: Store, title: Json, deadline: Timestamp, now: Timestamp, iso: IsoCodec)
    requires RoundTrips(iso) && title != JNull
    ensures var body := map["title" := title, "deadline_at" := JStr(iso.format(deadline))];
      var out := CreateTodo(s, body, now, iso);
      && out.0.status == 201
      && out.1.rows[s.nextId].deadline == Parsed(deadline)
      && out.0.payload.json.fields["deadline_at"] == body["deadline_at"]
  {
  }

  /** A body that only differs from an accepted one by an extra key is
      refused, whatever the title or deadline say. */
  lemma CreateRejectsAnyExtraKey(s: Store, body: Body, key: string, v: Json, now: Timestamp, iso: IsoCodec)
    requires key !in AllowedFields
    ensures CreateTodo(s, body[key := v], now, iso) == (ExtraFields, s)
  {
  }

  /** PUT then GET: a successful PUT's response is what GET serves next. */
  lemma UpdateThenGet(s: Store, id: int, body: Body, now: Timestamp, iso: IsoCodec)
    requires UpdateTodo(s, id, body, now, iso).0.status == 200
    ensures GetTodo(UpdateTodo(s, id, body, now, iso).1, id, iso)
            == UpdateTodo(s, id, body, now, iso).0
  {
  }

  /** The same PUT twice: the second changes nothing and answers as the first
      did, since every column already holds the body's value and so
      `updated_at` is not refreshed either. */
  lemma UpdateIdempotent(s: Store, id: int, body: Body, now1: Timestamp, now2: Timestamp, iso: IsoCodec)
    requires UpdateTodo(s, id, body, now1, iso).0.status == 200
    ensures var (r1, s1) := UpdateTodo(s, id, body, now1, iso);
            UpdateTodo(s1, id, body, now2, iso) == (r1, s1)
  {
    var s1 := UpdateTodo(s, id, body, now1, iso).1;
    var t1 := s1.rows[id];
    var t2 := Patch(t1, body, now2);
    assert t2.title == t1.title && t2.description == t1.description;
    assert t2.completed == t1.completed && t2.deadline == t1.deadline;
    assert SameColumns(t2, t1);
    assert s1.rows[id := t2] == s1.rows;
  }

  /** A PUT never shows its refresh of `updated_at`: the response's
      `updated_at` is the row's unchanged creation time. */
  lemma UpdateHidesRefresh(s: Store, id: int, body: Body, now: Timestamp, iso: IsoCodec)
    requires UpdateTodo(s, id, body, now, iso).0.status == 200
    ensures UpdateTodo(s, id, body, now, iso).0.payload.json.fields["updated_at"]
            == JStr(iso.format(s.rows[id].createdAt))
  {
  }

  /** DELETE then GET: the row is gone. */
  lemma DeleteThenGet(s: Store, id: int, iso: IsoCodec)
    ensures GetTodo(DeleteTodo(s, id, iso).1, id, iso) == NotFound
  {
  }

  /** DELETE twice: the second answers `{}` and changes nothing. */
  lemma DeleteTwice(s: Store, id: int, iso: IsoCodec)
    ensures var s1 := DeleteTodo(s, id, iso).1;
            DeleteTodo(s1, id, iso) == (Response(200, Document(JObject(map[]))), s1)
  {
  }

  /** The list holds a stored row's serialisation exactly when the row passes
      the filter (keys being unique, no other row prints the same). */
  lemma ListedIffMatches(s: Store, completed: Option<string>, window: Option<int>,
                         now: Timestamp, iso: IsoCodec, k: int)
    requires Valid(s) && k in s.rows
    ensures ToDict(s.rows[k], iso.format) in GetTodos(s, completed, window, now, iso).payload.json.items
            <==> Matches(s.rows[k], ListFilter(completed, window, now))
  {
  }

  /** The list is ordered by strictly ascending `id`, so no row appears twice. */
  lemma ListAscendingById(s: Store, completed: Option<string>, window: Option<int>,
                          now: Timestamp, iso: IsoCodec)
    requires Valid(s)
    ensures var items := GetTodos(s, completed, window, now, iso).payload.json.items;
            forall i, j :: 0 <= i < j < |items| ==>
              items[i].JObject? && items[j].JObject?
              && items[i].fields["id"].number < items[j].fields["id"].number
  {
  }

  /** With `window` given, a row without a deadline is never listed. */
  lemma WindowExcludesNoDeadline(s: Store, completed: Option<string>, days: int,
                                 now: Timestamp, iso: IsoCodec, k: int)
    requires Valid(s) && k in s.rows && s.rows[k].deadline.NoDeadline?
    ensures ToDict(s.rows[k], iso.format) !in GetTodos(s, completed, Some(days), now, iso).payload.json.items
  {
  }

  /** `?completed=true` lists exactly the rows whose `completed` is true. */
  lemma CompletedTrueFilter(s: Store, now: Timestamp, iso: IsoCodec, k: int)
    requires Valid(s) && k in s.rows
    ensures ToDict(s.rows[k], iso.format) in GetTodos(s, Some("true"), None, now, iso).payload.json.items
            <==> s.rows[k].completed == JBool(true)
  {
  }

  /** The table invariant survives any sequence of requests. */
  lemma {:induction false} RunPreservesValid(s: Store, calls: seq<Call>, iso: IsoCodec)
    requires Valid(s)
    ensures Valid(Run(s, calls, iso))
    decreases |calls|
  {
    if |calls| > 0 {
      RunPreservesValid(Handle(s, calls[0].request, calls[0].now, iso).1, calls[1..], iso);
    }
  }

  /** One request never re-creates a key that was handed out before and is
      no longer in use. */
  lemma HandleKeepsGone(s: Store, req: Request, now: Timestamp, iso: IsoCodec, id: int)
    requires id < s.nextId && id !in s.rows
    ensures var s1 := Handle(s, req, now, iso).1;
            id < s1.nextId && id !in s1.rows
  {
  }

  /** Keys are never reused: once deleted, a key stays free forever. */
  lemma {:induction false} RunKeepsGone(s: Store, calls: seq<Call>, iso: IsoCodec, id: int)
    requires id < s.nextId && id !in s.rows
    ensures id !in Run(s, calls, iso).rows
    decreases |calls|
  {
    if |calls| > 0 {
      HandleKeepsGone(s, calls[0].request, calls[0].now, iso, id);
      RunKeepsGone(Handle(s, calls[0].request, calls[0].now, iso).1, calls[1..], iso, id);
    }
  }

  /** One request leaves `id` and `created_at` of every surviving row alone. */
  lemma HandleKeepsIdentity(s: Store, req: Request, now: Timestamp, iso: IsoCodec, id: int)
    requires Valid(s) && id in s.rows
    ensures var s1 := Handle(s, req, now, iso).1;
            id in s1.rows ==> s1.rows[id].id == id && s1.rows[id].createdAt == s.rows[id].createdAt
  {
  }

  /** Across any sequence of requests, a row present at both ends is the same
      row: same `id`, same `created_at`. Keys are not reused, so it was never
      deleted and re-created in between. */
  lemma {:induction false} RunKeepsIdentity(s: Store, calls: seq<Call>, iso: IsoCodec, id: int)
    requires Valid(s) && id in s.rows && id in Run(s, calls, iso).rows
    ensures Run(s, calls, iso).rows[id].id == id
    ensures Run(s, calls, iso).rows[id].createdAt == s.rows[id].createdAt
    decreases |calls|
  {
    if |calls| > 0 {
      var s1 := Handle(s, calls[0].request, calls[0].now, iso).1;
      HandleKeepsIdentity(s, calls[0].request, calls[0].now, iso, id);
      if id in s1.rows {
        RunKeepsIdentity(s1, calls[1..], iso, id);
      } else {
        RunKeepsGone(s1, calls[1..], iso, id);
      }
    }
  }
}
