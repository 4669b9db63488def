/** The `fto_requests` datastore: one record type keyed by `request_id`.
    The store itself is a platform service; here it is a map that the
    app's calls update, each call succeeding or not as the platform says. */
module FtoRequestsDatastore {
  import opened Wrappers

  /** One stored FTO request. `approved` is not a declared attribute, yet the
      lookup reads it: absent means pending. */
  datatype Request = Request(
    requestId: string,
    employee: string,
    manager: string,
    startDate: string,
    endDate: string,
    reason: Option<string>,
    approved: Option<bool>)

  /** Every record is stored under its own primary key. */
  ghost predicate Keyed(records: map<string, Request>)
  {
    forall id :: id in records ==> records[id].requestId == id
  }

  /** `items` is a possible answer to the query `employee = e`: every
      matching record, each once, in some order. */
  ghost predicate IsQueryResult(records: map<string, Request>, employee: string, items: seq<Request>)
  {
    && (forall i :: 0 <= i < |items| ==>
          items[i].requestId in records && records[items[i].requestId] == items[i] && items[i].employee == employee)
    && (forall id :: id in records && records[id].employee == employee ==> records[id] in items)
    && (forall i, j :: 0 <= i < j < |items| ==> items[i].requestId != items[j].requestId)
  }

  class RequestStore {
    var records: map<string, Request>

    ghost predicate Valid()
      reads this
    {
      Keyed(records)
    }

    constructor ()
      ensures Valid() && records == map[]
    {
      records := map[];
    }

    /** `datastore.put`: inserts or overwrites the record at its key; a failed
        call writes nothing. */
    method Put(item: Request, reply: Response<()>)
      requires Valid()
      modifies this
      ensures Valid()
      ensures records == if reply.Success? then old(records)[item.requestId := item] else old(records)
    {
      if reply.Success? {
        records := records[item.requestId := item];
      }
    }

    /** `datastore.delete`: removes the record if there is one. */
    method Delete(id: string, reply: Response<()>)
      requires Valid()
      modifies this
      ensures Valid()
      ensures records == if reply.Success? then old(records) - {id} else old(records)
    {
      if reply.Success? {
        records := records - {id};
      }
    }
  }
}
