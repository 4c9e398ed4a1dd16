/** The backend's `tasks` table and its five request handlers. The SQLite
    table is a map from id to row; `nextId` is the id the next INSERT gets,
    and `now` is the value of `CURRENT_TIMESTAMP` at the time of a request. */
module Backend {
  import opened Api

  datatype Row = Row(title: string, description: string, createdAt: string, updatedAt: string)

  /** `dict(row)` of one result row. */
  datatype Record = Record(id: int, title: string, description: string, createdAt: string, updatedAt: string)

  datatype Body =
    | ErrorBody(error: string)
    | MessageBody(message: string)
    | CreatedBody(message: string, id: int)
    | RecordBody(record: Record)
    | ListBody(records: seq<Record>)

  datatype Reply = Reply(status: int, body: Body)

  const RequiredMessage := "Title and description are required"
  const NotFoundMessage := "Task not found"

  function AsRecord(id: int, row: Row): Record
  {
    Record(id, row.title, row.description, row.createdAt, row.updatedAt)
  }

  /** Python's truth test on `data.get(key)` for a JSON string: the key is
      present and the string is not empty. */
  predicate Provided(field: Option<string>)
    ensures Provided(field) <==> field !in {None, Some("")}
  {
    field.Some? && field.value != ""
  }

  predicate StrictlyIncreasingIds(records: seq<Record>)
  {
    forall i, j :: 0 <= i < j < |records| ==> records[i].id < records[j].id
  }

  class TaskTable {
    var rows: map<int, Row>
    var nextId: int

    /** Every stored id was handed out before `nextId`, so `nextId` itself
        is free. */
    ghost predicate Valid()
      reads this
      ensures Valid() ==> nextId !in rows
    {
      1 <= nextId && forall id :: id in rows ==> 1 <= id < nextId
    }

    constructor()
      ensures Valid() && rows == map[] && nextId == 1
    {
      rows := map[];
      nextId := 1;
    }

    /** The rows with ids from `lo` below `nextId`, each once, in id order. */
    function RecordsFrom(lo: int): (r: seq<Record>)
      reads this
      ensures forall x :: x in r <==> lo <= x.id < nextId && x.id in rows && x == AsRecord(x.id, rows[x.id])
      ensures StrictlyIncreasingIds(r)
      decreases nextId - lo
    {
      if lo >= nextId then []
      else
        var rest := RecordsFrom(lo + 1);
        var head := if lo in rows then [AsRecord(lo, rows[lo])] else [];
        assert forall j :: 0 <= j < |rest| ==> rest[j] in rest;
        head + rest
    }

    /** `GET /api/tasks/`: every row, each once. */
    method GetTasks() returns (reply: Reply)
      requires Valid()
      ensures reply.status == 200 && reply.body.ListBody?
      ensures forall r :: r in reply.body.records <==> r.id in rows && r == AsRecord(r.id, rows[r.id])
      ensures StrictlyIncreasingIds(reply.body.records)
    {
      reply := Reply(200, ListBody(RecordsFrom(1)));
    }

    /** `POST /api/tasks/`: validate, then insert under a fresh id. */
    method CreateTask(title: Option<string>, description: Option<string>, now: string) returns (reply: Reply)
      requires Valid()
      modifies this`rows, this`nextId
      ensures Valid()
      ensures !(Provided(title) && Provided(description)) ==>
        reply == Reply(400, ErrorBody(RequiredMessage)) && rows == old(rows) && nextId == old(nextId)
      ensures Provided(title) && Provided(description) ==>
        && reply.status == 201 && reply.body.CreatedBody?
        && reply.body.message == "Task created"
        && reply.body.id !in old(rows)
        && rows == old(rows)[reply.body.id := Row(title.value, description.value, now, now)]
    {
      if !(Provided(title) && Provided(description)) {
        return Reply(400, ErrorBody(RequiredMessage));
      }
      var id := nextId;
      rows := rows[id := Row(title.value, description.value, now, now)];
      nextId := nextId + 1;
      reply := Reply(201, CreatedBody("Task created", id));
    }

    /** `PUT /api/tasks/<id>`: validate first, then update the row or answer
        404 when there is none. */
    method UpdateTask(id: int, title: Option<string>, description: Option<string>, now: string) returns (reply: Reply)
      requires Valid()
      modifies this`rows
      ensures Valid()
      ensures !(Provided(title) && Provided(description)) ==>
        reply == Reply(400, ErrorBody(RequiredMessage)) && rows == old(rows)
      ensures Provided(title) && Provided(description) && id !in old(rows) ==>
        reply == Reply(404, ErrorBody(NotFoundMessage)) && rows == old(rows)
      ensures Provided(title) && Provided(description) && id in old(rows) ==>
        && reply == Reply(200, MessageBody("Task updated"))
        && rows == old(rows)[id := Row(title.value, description.value, old(rows)[id].createdAt, now)]
    {
      if !(Provided(title) && Provided(description)) {
        return Reply(400, ErrorBody(RequiredMessage));
      }
      var updated := 0;
      if id in rows {
        rows := rows[id := rows[id].(title := title.value, description := description.value, updatedAt := now)];
        updated := 1;
      }
      if updated == 0 {
        return Reply(404, ErrorBody(NotFoundMessage));
      }
      reply := Reply(200, MessageBody("Task updated"));
    }

    /** `DELETE /api/tasks/<id>`: remove the row if there is one; the answer
        is the same either way. */
    method DeleteTask(id: int) returns (reply: Reply)
      requires Valid()
      modifies this`rows
      ensures Valid()
      ensures rows == old(rows) - {id}
      ensures reply == Reply(200, MessageBody("Task deleted"))
    {
      rows := rows - {id};
      reply := Reply(200, MessageBody("Task deleted"));
    }

    /** `GET /api/tasks/<id>`. */
    method GetTaskById(id: int) returns (reply: Reply)
      ensures id in rows ==> reply.status == 200 && reply.body == RecordBody(AsRecord(id, rows[id]))
      ensures id !in rows ==> reply == Reply(404, ErrorBody(NotFoundMessage))
      ensures reply.status == 200 || reply.status == 404
    {
      if id !in rows {
        return Reply(404, ErrorBody(NotFoundMessage));
      }
      reply := Reply(200, RecordBody(AsRecord(id, rows[id])));
    }
  }

  /** A get right after a create finds the new row, stamped with the create
      time. */
  method CreateThenGet(table: TaskTable, title: string, description: string, now: string)
    returns (created: Reply, fetched: Reply)
    requires table.Valid() && title != "" && description != ""
    modifies table
    ensures created.status == 201 && created.body.CreatedBody?
    ensures fetched == Reply(200, RecordBody(Record(created.body.id, title, description, now, now)))
  {
    created := table.CreateTask(Some(title), Some(description), now);
    fetched := table.GetTaskById(created.body.id);
  }

  /** A get after a successful update sees the new values and time, and the
      original creation time. */
  method UpdateThenGet(table: TaskTable, id: int, title: string, description: string, now: string)
    returns (updated: Reply, fetched: Reply)
    requires table.Valid() && id in table.rows && title != "" && description != ""
    modifies table
    ensures updated.status == 200
    ensures fetched == Reply(200, RecordBody(Record(id, title, description, old(table.rows[id].createdAt), now)))
  {
    updated := table.UpdateTask(id, Some(title), Some(description), now);
    fetched := table.GetTaskById(id);
  }

  /** After a delete the id is gone, whether or not it was there. */
  method DeleteThenGet(table: TaskTable, id: int) returns (deleted: Reply, fetched: Reply)
    requires table.Valid()
    modifies table
    ensures deleted.status == 200
    ensures fetched == Reply(404, ErrorBody(NotFoundMessage))
  {
    deleted := table.DeleteTask(id);
    fetched := table.GetTaskById(id);
  }
}
