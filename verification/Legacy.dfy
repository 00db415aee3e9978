/** docker/src/app/business.py: the first version, a store in Redis alone, and its agreement with the second. */
module Legacy {
  import opened Wrappers
  import opened TtlCache
  import opened Records
  import opened Listings
  import opened Storage
  import opened Refinement

  datatype Json = Null | Bool(b: bool) | Number(n: real) | Text(text: string) | List(items: seq<Json>)
                | Object(fields: map<string, Json>)

  /** A JSON object, stored or sent: any fields at all. */
  type Doc = map<string, Json>

  type Docs = map<string, Doc>

  datatype Request =
    | ListItems
    | GetItem(id: string)
    | CreateItem(id: string, data: Doc)
    | UpdateItem(id: string, data: Doc)
    | DeleteItem(id: string)

  /** `Nothing` is Python's `None`; `KeyError` is raised. */
  datatype Response = Items(docs: Docs) | One(item: Doc) | Nothing | Deletion(done: bool) | KeyError

  /** The id as it appears in the key: text is itself; how Python prints other values is a parameter. */
  function Shown(id: Json, show: Json -> string): string {
    if id.Text? then id.text else show(id)
  }

  function NewItem(id: string, data: Doc): Doc
    requires "title" in data
  {
    map["id" := Text(id), "title" := data["title"],
        "description" := if "description" in data then data["description"] else Text(""), "done" := Bool(false)]
  }

  function Serve(docs: Docs, req: Request, show: Json -> string): (Docs, Response) {
    match req
    case ListItems => (docs, Items(docs))
    case GetItem(id) => (docs, if id in docs then One(docs[id]) else Nothing)
    case CreateItem(id, data) =>
      if "title" !in data then (docs, Nothing) else (docs[id := NewItem(id, data)], One(NewItem(id, data)))
    case UpdateItem(id, data) =>
      if id !in docs then (docs, Nothing)
      else
        var item := docs[id] + data;
        if "id" !in item then (docs, KeyError) else (docs[Shown(item["id"], show) := item], One(item))
    case DeleteItem(id) =>
      if id !in docs then (docs, Deletion(false)) else (docs - {id}, Deletion(true))
  }

  class Business {
    const show: Json -> string
    var docs: Docs

    constructor (docs: Docs, show: Json -> string)
      ensures this.docs == docs && this.show == show
    {
      this.docs, this.show := docs, show;
    }

    method GetAllContexts() returns (list: seq<Doc>)
      ensures Lists(list, docs)
    {
      assert docs - {} == docs;
      list := ListRows(docs, {});
    }

    method GetContextById(id: string) returns (r: Option<Doc>)
      ensures (if r.Some? then One(r.value) else Nothing) == Serve(docs, GetItem(id), show).1
    {
      if id !in docs {
        return None;
      }
      return Some(docs[id]);
    }

    method CreateNewContext(id: string, data: Doc) returns (r: Option<Doc>)
      modifies this
      ensures (docs, if r.Some? then One(r.value) else Nothing) == Serve(old(docs), CreateItem(id, data), show)
    {
      if "title" !in data {
        return None;
      }
      var description := Text("");
      if "description" in data {
        description := data["description"];
      }
      var item := map["id" := Text(id), "title" := data["title"], "description" := description, "done" := Bool(false)];
      docs := docs[id := item];
      return Some(item);
    }

    /** `raised` reports the `KeyError` of a document without an id. */
    method UpdateExistingContext(id: string, data: Doc) returns (raised: bool, r: Option<Doc>)
      modifies this
      ensures (docs, if raised then KeyError else if r.Some? then One(r.value) else Nothing) ==
              Serve(old(docs), UpdateItem(id, data), show)
    {
      if id !in docs {
        return false, None;
      }
      var item := docs[id];
      item := item + data;
      if "id" !in item {
        return true, None;
      }
      docs := docs[Shown(item["id"], show) := item];
      return false, Some(item);
    }

    method DeleteContextById(id: string) returns (deleted: bool)
      modifies this
      ensures (docs, Deletion(deleted)) == Serve(old(docs), DeleteItem(id), show)
    {
      if id !in docs {
        return false;
      }
      docs := docs - {id};
      return true;
    }
  }

  /** An update of a document filed under its own id amends that document and no other exactly when the payload
      carries no id, or one that is shown as the same; otherwise the document stays and another key is written. */
  lemma UpdateStaysPutIff(docs: Docs, id: string, data: Doc, show: Json -> string)
    requires id in docs && "id" in docs[id] && docs[id]["id"] == Text(id)
    ensures Serve(docs, UpdateItem(id, data), show).0 == docs[id := docs[id] + data] <==>
            ("id" in data ==> Shown(data["id"], show) == id)
  {
    var item, docs' := docs[id] + data, Serve(docs, UpdateItem(id, data), show).0;
    if "id" in data && Shown(data["id"], show) != id {
      assert docs'[id] == docs[id] && item["id"] != docs[id]["id"];
      assert docs[id := item][id] == item;
    }
  }

  /** The failing case happens: an update of document "a" that carries the id "b" leaves "a" as it was and overwrites "b". */
  lemma UpdateMovesAway(a: Doc, b: Doc, show: Json -> string)
    requires "id" in a && a["id"] == Text("a") && "id" in b && b["id"] == Text("b")
    ensures var docs := map["a" := a, "b" := b]; var item := a["id" := Text("b")];
            Serve(docs, UpdateItem("a", map["id" := Text("b")]), show) == (map["a" := a, "b" := item], One(item))
  {
    var docs, data: Doc := map["a" := a, "b" := b], map["id" := Text("b")];
    assert docs["a"] + data == a["id" := Text("b")];
    assert docs["b" := a["id" := Text("b")]] == map["a" := a, "b" := a["id" := Text("b")]];
  }

  /** A create without a title does nothing; one with only a title files a document with an empty description. */
  lemma CreateByTitle(docs: Docs, id: string, data: Doc, show: Json -> string)
    ensures "title" !in data ==> Serve(docs, CreateItem(id, data), show) == (docs, Nothing)
    ensures data.Keys == {"title"} ==>
              var item := map["id" := Text(id), "title" := data["title"], "description" := Text(""), "done" := Bool(false)];
              Serve(docs, CreateItem(id, data), show) == (docs[id := item], One(item))
  {
  }

  /** An update raises if and only if the document is there and neither it nor the payload has an id, and then writes
      nothing; an id that is not text is filed under what it is shown as. */
  lemma UpdateRaisesIff(docs: Docs, id: string, data: Doc, show: Json -> string)
    ensures var (docs', r) := Serve(docs, UpdateItem(id, data), show);
            && (r == KeyError <==> id in docs && "id" !in docs[id] && "id" !in data)
            && (r == KeyError ==> docs' == docs)
            && (id in docs && "id" in data && !data["id"].Text? ==> docs' == docs[show(data["id"]) := docs[id] + data])
  {
  }

  // ----- Agreement -----

  /** The payload of an update that sets these fields. */
  function Payload(u: Changes): Doc {
    (if u.title.Some? then map["title" := Text(u.title.value)] else map[]) +
    (if u.description.Some? then map["description" := Text(u.description.value)] else map[]) +
    (if u.done.Some? then map["done" := Bool(u.done.value)] else map[])
  }

  function AsRequest(op: Op): Request {
    match op
    case GetAll => ListItems
    case Get(id) => GetItem(id)
    case Create(id, title, description) =>
      CreateItem(id, map["title" := Text(title), "description" := Text(description)])
    case Update(id, changes) => UpdateItem(id, Payload(changes))
    case Delete(id) => DeleteItem(id)
  }

  /** The fields both versions have. */
  function Project(r: Record): Doc {
    map["id" := Text(r.id), "title" := Text(r.title), "description" := Text(r.description), "done" := Bool(r.done)]
  }

  function ProjectAll(m: Table): Docs {
    map k | k in m :: Project(m[k])
  }

  function ProjectReply(op: Op, r: Reply): Response {
    match r
    case Listing(table) => Items(ProjectAll(table))
    case Found(rec) => One(Project(rec))
    case Missing => if op.Delete? then Deletion(false) else Nothing
    case Gone => Deletion(true)
  }

  ghost predicate WellKeyed(m: Table) {
    forall k :: k in m ==> m[k].id == k
  }

  lemma PayloadFields(u: Changes)
    ensures var p := Payload(u);
            && p.Keys <= {"title", "description", "done"}
            && ("title" in p <==> u.title.Some?) && ("title" in p ==> p["title"] == Text(u.title.value))
            && ("description" in p <==> u.description.Some?) && ("description" in p ==> p["description"] == Text(u.description.value))
            && ("done" in p <==> u.done.Some?) && ("done" in p ==> p["done"] == Bool(u.done.value))
  {
  }

  lemma PayloadAmends(r: Record, u: Changes, stamp: Stamp)
    ensures Project(r) + Payload(u) == Project(Amend(r, u, stamp))
  {
    PayloadFields(u);
    var a, b := Project(r) + Payload(u), Project(Amend(r, u, stamp));
    assert a.Keys == {"id", "title", "description", "done"} == b.Keys;
    assert a["id"] == b["id"] && a["title"] == b["title"] && a["description"] == b["description"] && a["done"] == b["done"];
  }

  lemma ProjectPut(m: Table, k: string, rec: Record)
    ensures ProjectAll(m[k := rec]) == ProjectAll(m)[k := Project(rec)]
  {
  }

  lemma CreateAgrees(m: Table, op: Op, stamp: Stamp, show: Json -> string)
    requires WellKeyed(m) && op.Create?
    ensures var (m', r) := PlainStep(m, op, stamp);
            Serve(ProjectAll(m), AsRequest(op), show) == (ProjectAll(m'), ProjectReply(op, r))
  {
    ProjectPut(m, op.id, NewRecord(op.id, op.title, op.description, stamp));
  }

  lemma UpdateAgrees(m: Table, op: Op, stamp: Stamp, show: Json -> string)
    requires WellKeyed(m) && op.Update?
    ensures var (m', r) := PlainStep(m, op, stamp);
            Serve(ProjectAll(m), AsRequest(op), show) == (ProjectAll(m'), ProjectReply(op, r))
  {
    if op.id in m {
      PayloadAmends(m[op.id], op.changes, stamp);
      ProjectPut(m, op.id, Amend(m[op.id], op.changes, stamp));
    }
  }

  lemma PlainAgrees(m: Table, op: Op, stamp: Stamp, show: Json -> string)
    requires WellKeyed(m)
    ensures var (m', r) := PlainStep(m, op, stamp);
            && WellKeyed(m')
            && Serve(ProjectAll(m), AsRequest(op), show) == (ProjectAll(m'), ProjectReply(op, r))
  {
    match op
    case GetAll =>
    case Get(id) =>
    case Create(_, _, _) => CreateAgrees(m, op, stamp, show);
    case Update(_, _) => UpdateAgrees(m, op, stamp, show);
    case Delete(id) =>
      assert ProjectAll(m - {id}) == ProjectAll(m) - {id};
  }

  function ServeAll(docs: Docs, events: seq<Event>, show: Json -> string): (r: (Docs, seq<Response>))
    ensures |r.1| == |events|
    decreases |events|
  {
    if events == [] then (docs, [])
    else
      var (docs1, response) := Serve(docs, AsRequest(events[0].op), show);
      var (docs2, responses) := ServeAll(docs1, events[1..], show);
      (docs2, [response] + responses)
  }

  function ProjectReplies(events: seq<Event>, replies: seq<Reply>): (r: seq<Response>)
    requires |events| == |replies|
    ensures |r| == |events|
    decreases |events|
  {
    if events == [] then [] else [ProjectReply(events[0].op, replies[0])] + ProjectReplies(events[1..], replies[1..])
  }

  /** With Redis as the only backend and no faults, both versions started on the same documents give the same
      responses to every sequence of operations, and end with the same documents, cache included. */
  lemma {:induction false} VersionsAgree(cfg: Config, s: State, events: seq<Event>, from: Instant, show: Json -> string)
    requires !cfg.pgUp && cfg.redisUp && AuthorityInv(cfg, s, from) && WellKeyed(s.redis) && Ordered(events, from)
    requires forall e :: e in events ==> AuthorityHolds(cfg, e) && e.faults.unreadable == {}
    ensures var (s', replies) := Run(cfg, s, events);
            ServeAll(ProjectAll(s.redis), events, show) == (ProjectAll(s'.redis), ProjectReplies(events, replies))
    decreases |events|
  {
    if events != [] {
      var e := events[0];
      AuthorityStep(cfg, s, e);
      PlainAgrees(s.redis, e.op, e.stamp, show);
      var (s1, r) := Step(cfg, s, e);
      var replies := Run(cfg, s1, events[1..]).1;
      VersionsAgree(cfg, s1, events[1..], e.now, show);
      assert ([r] + replies)[1..] == replies;
    }
  }
}
