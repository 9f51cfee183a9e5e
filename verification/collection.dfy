/** A reference model of one content-API collection (services, issues,
    statement templates and the rest): records stored by id, answered in
    the single-entry envelope `{"data": {"id": n, "attributes": {...}}}`.
    It is not part of the front end; it is the independent definition
    against which the REST client's generic create, update, get and delete
    are stated. A record type is given by an encoder to JSON and a decoder
    back. */
module Collection {
  import opened Common
  import opened Json
  import opened Strapi

  /** The stored records of one collection, by id. */
  type Store<T> = map<int, T>

  /** The backend's single-entry answer for a record stored under `id`. */
  function EntryDocument(id: int, attributes: Json): Json {
    JObj([("data", JObj([("id", JNum(id)), ("attributes", attributes)]))])
  }

  /** The binding of `StrapiSingleResponse<T>` a record decoder gives: a
      missing or null `data` is an empty envelope; otherwise `data` needs a
      numeric `id`, and its `attributes`, when present and not null, are
      bound by `decode`. Anything else fails to bind. */
  function BindEntry<T>(j: Json, decode: Json -> Option<T>): Option<SingleEnvelope<T>> {
    if !j.JObj? then None
    else
      match Member(j.members, "data")
      case None => Some(SingleEnvelope(None))
      case Some(d) =>
        if d == JNull then Some(SingleEnvelope(None))
        else if !d.JObj? then None
        else
          match Member(d.members, "id")
          case Some(JNum(n)) =>
            (match Member(d.members, "attributes")
             case None => Some(SingleEnvelope(Some(Entry(n, None))))
             case Some(a) =>
               if a == JNull then Some(SingleEnvelope(Some(Entry(n, None))))
               else
                 match decode(a)
                 case Some(t) => Some(SingleEnvelope(Some(Entry(n, Some(t)))))
                 case None => None)
          case _ => None
  }

  function EntryBinder<T>(decode: Json -> Option<T>): Json -> Option<SingleEnvelope<T>> {
    (j: Json) => BindEntry(j, decode)
  }

  /** The entry document of a record binds to that record's entry whenever
      the record encodes as an object and the decoder reads back what the
      encoder wrote. */
  lemma EntryDocumentBinds<T>(id: int, record: T, encode: T -> Json, decode: Json -> Option<T>)
    requires encode(record).JObj? && decode(encode(record)) == Some(record)
    ensures BindEntry(EntryDocument(id, encode(record)), decode)
            == Some(SingleEnvelope(Some(Entry(id, Some(record)))))
  {
    var a := encode(record);
    var inner := [("id", JNum(id)), ("attributes", a)];
    var outer := [("data", JObj(inner))];
    assert inner[0].0 == "id" && inner[1].0 == "attributes";
    assert Member(outer, "data") == Some(JObj(inner)) by {
      assert outer[1..] == [];
    }
    assert Member(inner, "id") == Some(JNum(id)) by {
      assert inner[1..] == [("attributes", a)];
      assert inner[1..][1..] == [];
    }
    assert Member(inner, "attributes") == Some(a) by {
      assert inner[1..] == [("attributes", a)];
      assert inner[1..][1..] == [];
    }
  }

  /** A create or update against a backend that stores the record and
      answers with its entry: the request's `data` is the encoded record,
      and the client returns the record it sent. */
  lemma WriteRoundTrip<T>(resource: string, id: int, record: T, encode: T -> Json,
                          decode: Json -> Option<T>, status: int)
    requires IsSuccessStatus(status)
    requires encode(record).JObj? && decode(encode(record)) == Some(record)
    ensures var reply := Answer(status, Document(EntryDocument(id, encode(record))));
      var created := CreateRecord(resource, record, encode, reply, EntryBinder(decode));
      var updated := UpdateRecord(resource, id, record, encode, reply, EntryBinder(decode));
      created.result == Ok(record) && updated.result == Ok(record)
      && TryGetProperty(created.sent[0].body.value, "data") == Ok(Some(encode(record)))
      && TryGetProperty(updated.sent[0].body.value, "data") == Ok(Some(encode(record)))
  {
    EntryDocumentBinds(id, record, encode, decode);
    EnvelopeRoundTrip(encode(record));
  }

  /** When the backend answers a write with the record as it stored it
      (say, with fields it fills in), the client returns the stored record,
      not the one it sent. */
  lemma WriteReturnsStored<T>(resource: string, id: int, sent: T, stored: T, encode: T -> Json,
                              decode: Json -> Option<T>, status: int)
    requires IsSuccessStatus(status)
    requires encode(stored).JObj? && decode(encode(stored)) == Some(stored)
    ensures var reply := Answer(status, Document(EntryDocument(id, encode(stored))));
      CreateRecord(resource, sent, encode, reply, EntryBinder(decode)).result == Ok(stored)
      && UpdateRecord(resource, id, sent, encode, reply, EntryBinder(decode)).result == Ok(stored)
  {
    EntryDocumentBinds(id, stored, encode, decode);
  }

  /** How the collection answers a get by id: the entry of a stored record,
      else 404. */
  function GetReply<T>(store: Store<T>, id: int, encode: T -> Json): Reply {
    if id in store then Answer(200, Document(EntryDocument(id, encode(store[id]))))
    else Answer(404, Garbled)
  }

  /** How the collection answers a delete: 200 for a stored record, else
      404. */
  function DeleteReply<T>(store: Store<T>, id: int): Reply {
    if id in store then Answer(200, Document(JNull)) else Answer(404, Garbled)
  }

  /** The collection after a delete. */
  function Remove<T>(store: Store<T>, id: int): (s: Store<T>)
    ensures id !in s && forall k :: k in s <==> k in store && k != id
  {
    map k | k in store && k != id :: store[k]
  }

  /** A get against the collection returns exactly the stored record, and
      absent for an id with no record. */
  lemma GetAgainstStore<T>(resource: string, id: int, store: Store<T>, encode: T -> Json,
                           decode: Json -> Option<T>)
    requires forall k :: k in store ==> encode(store[k]).JObj? && decode(encode(store[k])) == Some(store[k])
    ensures var got := GetRecord(resource, id, GetReply(store, id, encode), EntryBinder(decode)).result;
      got == Ok(if id in store then Some(store[id]) else None)
  {
    if id in store {
      EntryDocumentBinds(id, store[id], encode, decode);
    }
  }

  /** A delete succeeds exactly when the record is stored, and a get
      afterwards finds nothing. */
  lemma DeleteAgainstStore<T>(resource: string, id: int, store: Store<T>, encode: T -> Json,
                              decode: Json -> Option<T>)
    ensures DeleteRecord(resource, id, DeleteReply(store, id)).result.Ok? <==> id in store
    ensures GetRecord(resource, id, GetReply(Remove(store, id), id, encode), EntryBinder(decode)).result == Ok(None)
  {
  }
}
