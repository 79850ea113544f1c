/** The data model shared by the validation schemas and the client service:
    the status enumeration, a stored client row, the insert and update payloads,
    and the list filters. */
module Records {
  import opened Options

  /** Row identifier. The table issues them from a counter and never reuses one. */
  type Id = nat

  /** The three-value client status enumeration. */
  datatype Status = Active | Inactive | Pending

  /** The literal string the enumeration uses for each status. */
  function StatusName(st: Status): string {
    match st
    case Active => "active"
    case Inactive => "inactive"
    case Pending => "pending"
  }

  /** Parses one of the three literals; any other string is not a status. */
  function ParseStatus(s: string): (r: Option<Status>)
    ensures r.Some? <==> exists st :: StatusName(st) == s
    ensures r.Some? ==> StatusName(r.value) == s
  {
    if s == StatusName(Active) then Some(Active)
    else if s == StatusName(Inactive) then Some(Inactive)
    else if s == StatusName(Pending) then Some(Pending)
    else None
  }

  /** A stored row of the `clients` table. `None` in an optional column is SQL NULL.
      Timestamps are instants (milliseconds); their ISO strings sort the same way. */
  datatype Client = Client(
    id: Id,
    name: string,
    email: string,
    phone: Option<string>,
    company: Option<string>,
    address: Option<string>,
    status: Status,
    createdAt: int,
    updatedAt: int)

  /** An optional, nullable text field of a payload: the key may be left out,
      set to null, or set to a string. Leaving it out and setting it to null
      are different for an update. */
  datatype Nullable = Omitted | Null | Text(s: string)

  /** The value a nullable field stores: NULL unless a string was given. */
  function Stored(n: Nullable): Option<string> {
    if n.Text? then Some(n.s) else None
  }

  /** The payload of an insert. Timestamps the caller may supply are ignored. */
  datatype Insert = Insert(
    name: string,
    email: string,
    phone: Nullable,
    company: Nullable,
    address: Nullable,
    status: Status,
    createdAt: Option<int>,
    updatedAt: Option<int>)

  /** The payload of an update: every column is optional and only the
      supplied ones are written. */
  datatype Patch = Patch(
    name: Option<string>,
    email: Option<string>,
    phone: Nullable,
    company: Nullable,
    address: Nullable,
    status: Option<Status>,
    createdAt: Option<int>,
    updatedAt: Option<int>)

  /** The list filters: free-text search, status, and the limit/offset window. */
  datatype Filters = Filters(
    search: Option<string>,
    status: Option<Status>,
    limit: Option<int>,
    offset: Option<int>)
}
