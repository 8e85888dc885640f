/** The data shared by the contact form and the inbox: the row the remote
    store keeps for each contact message, the body of a create request, and
    the requests the client sends to the store. */
module Records {

  datatype Option<+T> = None | Some(value: T)

  /** Identifier the store assigns to a row; the client never invents one. */
  type Id = nat

  /** The instant a message was created. The client sends it as an ISO-8601
      stamp; only the instant it denotes matters here. */
  type Timestamp = nat

  /** One row of the `contacts` table. `read` is the only field the client
      ever changes after creation. */
  datatype Message = Message(
    id: Id,
    name: string,
    email: string,
    message: string,
    createdAt: Timestamp,
    read: bool)

  /** Body of the create request: the three form fields and the creation stamp. */
  datatype Payload = Payload(name: string, email: string, message: string, createdAt: Timestamp)

  /** A request the client sends to the store. */
  datatype Request =
    | Create(body: Payload)       // POST   /rest/v1/contacts
    | List                        // GET    /rest/v1/contacts?order=created_at.desc
    | Patch(id: Id, read: bool)   // PATCH  /rest/v1/contacts?id=eq.<id>, body {read}
    | Delete(id: Id)              // DELETE /rest/v1/contacts?id=eq.<id>

  /** The order the list request asks the store for: `created_at` descending. */
  ghost predicate NewestFirst(ms: seq<Message>) {
    forall i, j :: 0 <= i < j < |ms| ==> ms[i].createdAt >= ms[j].createdAt
  }

  /** No two rows share an identifier. */
  ghost predicate UniqueIds(ms: seq<Message>) {
    forall i, j :: 0 <= i < j < |ms| ==> ms[i].id != ms[j].id
  }
}
