/** The client service: list, fetch, create, update and delete over the
    `clients` table, each answering a uniform envelope. The remote storage
    service is replaced by an in-memory table (`ClientTable`) that holds the
    rows and the id counter. Whether the call reaches the table is the
    `Transport` parameter: the service may answer with an error object, or the
    call may throw.

    Each operation is specified by a pure step function over the table's state
    (`Store`), and the lemmas below state what the operations promise. */
module ClientRepository {
  import opened Options
  import opened Records
  import opened ClientQuery

  /** The message every operation reports when the call throws. */
  const UnexpectedError: string := "Unexpected error occurred"
  /** The storage service's error when a single-row request matches no row. */
  const NotSingleError: string := "JSON object requested, multiple (or no) rows returned"
  /** The storage service's error for a negative offset or row count. */
  const NegativeWindowError: string := "LIMIT and OFFSET must not be negative"
  /** The storage service's error for an offset past the last matching row. */
  const RangeError: string := "Requested range not satisfiable"

  /** The message the storage service reports when it refuses a window. */
  function RefusalMessage(why: Refusal): string {
    match why
    case NegativeWindow => NegativeWindowError
    case RangeNotSatisfiable => RangeError
  }

  /** How a call to the storage service ends: it reaches the table, the service
      answers with an error object carrying `message`, or the call throws. */
  datatype Transport = Delivered | Fails(message: string) | Throws

  /** What the storage service hands back: rows, an exact count and an error
      object, each possibly null; or a thrown fault. */
  datatype Reply<T> = Answered(data: Option<T>, count: Option<int>, error: Option<string>) | Threw

  datatype ListResponse = ListResponse(data: seq<Client>, count: int, error: Option<string>)
  datatype ItemResponse = ItemResponse(data: Option<Client>, error: Option<string>)
  datatype DeleteResponse = DeleteResponse(success: bool, error: Option<string>)

  /** The reply of a call that does not reach the table. */
  function Failed<T>(link: Transport): (r: Reply<T>)
    requires !link.Delivered?
    ensures link.Throws? <==> r.Threw?
    ensures link.Fails? ==> r.error == Some(link.message) && r.data.None?
  {
    if link.Throws? then Threw else Answered(None, None, Some(link.message))
  }

  // ---------------------------------------------------------------- envelopes

  /** The list envelope: an error comes with no rows and a zero count; on
      success a null row list is `[]` and a null count is 0. */
  function ShapeList(reply: Reply<seq<Client>>): (r: ListResponse)
    ensures r.error.Some? ==> r.data == [] && r.count == 0
    ensures r.error.None? <==> reply.Answered? && reply.error.None?
    ensures reply.Threw? ==> r.error == Some(UnexpectedError)
    ensures reply.Answered? && reply.error.Some? ==> r.error == reply.error
    ensures r.error.None? && reply.data.Some? ==> r.data == reply.data.value
    ensures r.error.None? && reply.data.None? ==> r.data == []
    ensures r.error.None? ==> r.count == reply.count.GetOr(0)
  {
    match reply
    case Threw => ListResponse([], 0, Some(UnexpectedError))
    case Answered(data, count, error) =>
      if error.Some? then ListResponse([], 0, Some(error.value))
      else ListResponse(data.GetOr([]), count.GetOr(0), None)
  }

  /** The single-row envelope: an error comes with no row. */
  function ShapeItem(reply: Reply<Client>): (r: ItemResponse)
    ensures r.error.Some? ==> r.data.None?
    ensures r.error.None? <==> reply.Answered? && reply.error.None?
    ensures reply.Threw? ==> r.error == Some(UnexpectedError)
    ensures reply.Answered? && reply.error.Some? ==> r.error == reply.error
    ensures r.error.None? ==> r.data == reply.data
  {
    match reply
    case Threw => ItemResponse(None, Some(UnexpectedError))
    case Answered(data, _, error) =>
      if error.Some? then ItemResponse(None, Some(error.value)) else ItemResponse(data, None)
  }

  /** The delete envelope: success exactly when no error was reported. */
  function ShapeDelete(reply: Reply<()>): (r: DeleteResponse)
    ensures r.success <==> r.error.None?
    ensures r.success <==> reply.Answered? && reply.error.None?
    ensures reply.Threw? ==> r.error == Some(UnexpectedError)
    ensures reply.Answered? && reply.error.Some? ==> r.error == reply.error
  {
    match reply
    case Threw => DeleteResponse(false, Some(UnexpectedError))
    case Answered(_, _, error) =>
      if error.Some? then DeleteResponse(false, Some(error.value)) else DeleteResponse(true, None)
  }

  // ---------------------------------------------------------------- listing

  /** The ids whose rows satisfy every predicate of a descriptor. */
  function Matching(t: map<Id, Client>, ps: seq<Predicate>): set<Id> {
    set k | k in t && HoldsAll(ps, t[k])
  }

  /** The ids whose rows a filter admits. */
  function Hits(t: map<Id, Client>, f: Filters): set<Id> {
    set k | k in t && Admits(f, t[k])
  }

  /** The storage engine running a list query with an exact count: the count
      covers every matching row, the rows are listed newest first and then
      windowed. */
  function Execute(t: map<Id, Client>, q: Query, link: Transport): (r: Reply<seq<Client>>)
    ensures link.Delivered? ==> r.Answered?
    ensures r.Answered? && r.error.None? ==>
              && r.count == Some(|Matching(t, q.predicates)|)
              && r.data.Some? && |r.data.value| <= r.count.value
  {
    if !link.Delivered? then Failed(link)
    else
      var hits := Matching(t, q.predicates);
      match Slice(Rows(t, Rank(t, hits)), q.window)
      case Refused(why) => Answered(None, None, Some(RefusalMessage(why)))
      case Kept(page) => Answered(Some(page), Some(|hits|), None)
  }

  /** What listing with filters `f` answers: the admitted rows newest first,
      windowed as `f` asks, with the count of all admitted rows. */
  function ListClients(t: map<Id, Client>, f: Filters, link: Transport): (r: ListResponse)
    ensures r.error.Some? ==> r.data == [] && r.count == 0
    ensures r.error.None? ==> r.count == |Hits(t, f)| && |r.data| <= r.count
    ensures r.error.None? <==> link.Delivered? && 0 <= Start(f) <= |Hits(t, f)| && (Truthy(f.offset) ==> PageSize(f) >= 0)
                                 && (!Truthy(f.offset) && Truthy(f.limit) ==> f.limit.value >= 0)
  {
    if !link.Delivered? then ShapeList(Failed(link))
    else
      var hits := Hits(t, f);
      match Page(Rows(t, Rank(t, hits)), f)
      case Refused(why) => ShapeList(Answered(None, None, Some(RefusalMessage(why))))
      case Kept(page) => ShapeList(Answered(Some(page), Some(|hits|), None))
  }

  /** A successful listing answers the page the filter cuts from the ranked
      admitted rows, and its count is the number of admitted rows. */
  lemma ListedIsPage(t: map<Id, Client>, f: Filters, link: Transport)
    requires ListClients(t, f, link).error.None?
    ensures link.Delivered?
    ensures Page(Rows(t, Rank(t, Hits(t, f))), f) == Kept(ListClients(t, f, link).data)
    ensures ListClients(t, f, link).count == |Hits(t, f)|
  {
    var hits := Hits(t, f);
    match Page(Rows(t, Rank(t, hits)), f)
    case Refused(why) =>
      assert false;
    case Kept(page) =>
      assert ListClients(t, f, link) == ShapeList(Answered(Some(page), Some(|hits|), None));
  }

  /** Every listed row is a stored row that the filter admits: it has the
      requested status, and it mentions the search text in its name, email or
      company. */
  lemma ListedRowsMatch(t: map<Id, Client>, f: Filters, link: Transport, i: int)
    requires 0 <= i < |ListClients(t, f, link).data|
    ensures var row := ListClients(t, f, link).data[i];
            && row in t.Values
            && (f.status.Some? ==> row.status == f.status.value)
            && (Searching(f) ==> Mentions(row, f.search.value))
  {
    var hits := Hits(t, f);
    var ranked := Rank(t, hits);
    var ordered := Rows(t, ranked);
    PageIsRun(ordered, f);
    var k := ranked[Start(f) + i];
    assert ListClients(t, f, link).data[i] == t[k];
  }

  /** A successful listing is exactly the window of the ranked admitted rows:
      the rows at positions `Start(f)`, `Start(f) + 1`, ... of the newest-first
      ranking, with none repeated and none skipped. */
  lemma ListedWindow(t: map<Id, Client>, f: Filters, link: Transport)
    requires ListClients(t, f, link).error.None?
    ensures var r := ListClients(t, f, link);
            var ranked := Rank(t, Hits(t, f));
            && 0 <= Start(f) && Start(f) + |r.data| <= |ranked|
            && forall i :: 0 <= i < |r.data| ==> r.data[i] == t[ranked[Start(f) + i]]
  {
    var ranked := Rank(t, Hits(t, f));
    ListedIsPage(t, f, link);
    PageIsRun(Rows(t, ranked), f);
  }

  /** With neither a limit nor an offset, every admitted row is listed. */
  lemma UnwindowedListsEveryHit(t: map<Id, Client>, f: Filters, link: Transport, k: Id)
    requires ListClients(t, f, link).error.None?
    requires !Truthy(f.offset) && !Truthy(f.limit)
    requires k in Hits(t, f)
    ensures t[k] in ListClients(t, f, link).data
  {
    var ranked := Rank(t, Hits(t, f));
    ListedWindow(t, f, link);
    var i :| 0 <= i < |ranked| && ranked[i] == k;
    assert ListClients(t, f, link).data[i] == t[k];
  }

  /** The rows are listed newest first. */
  lemma ListedNewestFirst(t: map<Id, Client>, f: Filters, link: Transport)
    ensures ListedNewest(ListClients(t, f, link).data)
  {
    var hits := Hits(t, f);
    var ordered := Rows(t, Rank(t, hits));
    if link.Delivered? && Page(ordered, f).Kept? {
      RankedNewestFirst(t, hits);
      PageKeepsNewestFirst(ordered, f);
    }
  }

  /** On success the count is the number of admitted rows, whatever the window,
      and the window holds: with an offset, up to the limit (or 10) rows from
      the offset on; with only a limit, up to the limit; with neither, all of
      them. */
  lemma ListCounts(t: map<Id, Client>, f: Filters, link: Transport)
    requires ListClients(t, f, link).error.None?
    ensures var r := ListClients(t, f, link);
            var n := |Hits(t, f)|;
            && r.count == n
            && (Truthy(f.offset) ==> f.offset.value <= n && |r.data| == Min(PageSize(f), n - f.offset.value))
            && (!Truthy(f.offset) && Truthy(f.limit) ==> |r.data| == Min(f.limit.value, n))
            && (!Truthy(f.offset) && !Truthy(f.limit) ==> |r.data| == n)
  {
    ListedIsPage(t, f, link);
    PageIsRun(Rows(t, Rank(t, Hits(t, f))), f);
  }

  /** The count ignores the window. */
  lemma CountIgnoresWindow(t: map<Id, Client>, f: Filters, link: Transport)
    requires ListClients(t, f, link).error.None?
    ensures ListClients(t, f, link).count == ListClients(t, f.(limit := None, offset := None), link).count
  {
    assert Hits(t, f) == Hits(t, f.(limit := None, offset := None));
  }

  /** An error comes only from the transport or from a window the storage
      engine refuses, and always with no rows and a zero count. An offset past
      the last admitted row is refused as an unsatisfiable range. */
  lemma ListErrors(t: map<Id, Client>, f: Filters, link: Transport)
    ensures var r := ListClients(t, f, link);
            && (r.error.Some? ==> r.data == [] && r.count == 0)
            && (link.Throws? ==> r.error == Some(UnexpectedError))
            && (link.Fails? ==> r.error == Some(link.message))
            && (link.Delivered? ==> (r.error.Some? <==> Page(Rows(t, Rank(t, Hits(t, f))), f).Refused?))
            && (link.Delivered? ==> (r.error == Some(RangeError) <==>
                  Truthy(f.offset) && 0 <= f.offset.value && 0 <= PageSize(f) && |Hits(t, f)| < f.offset.value))
  {
    PageRefused(Rows(t, Rank(t, Hits(t, f))), f);
  }

  /** A worked case: asking for five pending clients from offset 10 when only
      three are pending is refused, and answers no rows and a zero count. */
  lemma OffsetPastEnd(t: map<Id, Client>)
    requires |Hits(t, Filters(None, Some(Pending), Some(5), Some(10)))| == 3
    ensures ListClients(t, Filters(None, Some(Pending), Some(5), Some(10)), Delivered)
            == ListResponse([], 0, Some(RangeError))
  {
    ListErrors(t, Filters(None, Some(Pending), Some(5), Some(10)), Delivered);
  }

  // ---------------------------------------------------------------- fetching one row

  /** Fetching by id through a single-row request: the row when it exists; a
      missing id is an ordinary error envelope with no row. */
  function GetClientById(t: map<Id, Client>, id: Id, link: Transport): (r: ItemResponse)
    ensures r.error.None? <==> link.Delivered? && id in t
    ensures r.error.None? ==> r.data == Some(t[id])
    ensures r.error.Some? ==> r.data.None?
    ensures link.Delivered? && id !in t ==> r.error == Some(NotSingleError)
    ensures link.Throws? ==> r.error == Some(UnexpectedError)
    ensures link.Fails? ==> r.error == Some(link.message)
  {
    if !link.Delivered? then ShapeItem(Failed(link))
    else if id in t then ShapeItem(Answered(Some(t[id]), None, None))
    else ShapeItem(Answered(None, None, Some(NotSingleError)))
  }

  // ---------------------------------------------------------------- table state and steps

  /** The table's state: its rows by id and the next id to issue. */
  datatype Store = Store(rows: map<Id, Client>, nextId: nat)

  /** The state after an operation and the envelope it answers. */
  datatype Step<R> = Step(next: Store, response: R)

  /** Every row is stored under its own id, and every id was issued. */
  ghost predicate Consistent(s: Store) {
    forall k :: k in s.rows ==> k < s.nextId && s.rows[k].id == k
  }

  /** The row an insert stores: the caller's columns, NULL for a left-out
      nullable column, the issued id, and the two clock readings as timestamps. */
  function NewRow(input: Insert, id: Id, createdAt: int, updatedAt: int): (r: Client)
    ensures r.id == id && r.createdAt == createdAt && r.updatedAt == updatedAt
    ensures r.name == input.name && r.email == input.email && r.status == input.status
    ensures (r.phone.Some? <==> input.phone.Text?) && (r.company.Some? <==> input.company.Text?)
            && (r.address.Some? <==> input.address.Text?)
  {
    Client(id, input.name, input.email, Stored(input.phone), Stored(input.company), Stored(input.address),
           input.status, createdAt, updatedAt)
  }

  /** The value an update writes into a nullable column. */
  function Overwrite(current: Option<string>, n: Nullable): Option<string> {
    match n
    case Omitted => current
    case Null => None
    case Text(s) => Some(s)
  }

  /** A row after an update: the supplied columns overwritten, the others kept,
      and `updated_at` set to the clock reading. */
  function Patched(row: Client, p: Patch, now: int): (r: Client)
    ensures r.id == row.id && r.updatedAt == now
    ensures (p.name.None? ==> r.name == row.name) && (p.name.Some? ==> r.name == p.name.value)
    ensures (p.email.None? ==> r.email == row.email) && (p.email.Some? ==> r.email == p.email.value)
    ensures (p.phone.Omitted? ==> r.phone == row.phone) && (!p.phone.Omitted? ==> r.phone == Stored(p.phone))
    ensures (p.company.Omitted? ==> r.company == row.company) && (!p.company.Omitted? ==> r.company == Stored(p.company))
    ensures (p.address.Omitted? ==> r.address == row.address) && (!p.address.Omitted? ==> r.address == Stored(p.address))
    ensures (p.status.None? ==> r.status == row.status) && (p.status.Some? ==> r.status == p.status.value)
    ensures (p.createdAt.None? ==> r.createdAt == row.createdAt) && (p.createdAt.Some? ==> r.createdAt == p.createdAt.value)
  {
    Client(row.id, p.name.GetOr(row.name), p.email.GetOr(row.email),
           Overwrite(row.phone, p.phone), Overwrite(row.company, p.company), Overwrite(row.address, p.address),
           p.status.GetOr(row.status), p.createdAt.GetOr(row.createdAt), now)
  }

  /** `createClient` on the table's state: a delivered insert adds one row under
      the next id and answers it; otherwise nothing changes. */
  function CreateStep(s: Store, input: Insert, createdAt: int, updatedAt: int, link: Transport): (r: Step<ItemResponse>)
    ensures r.response.error.None? <==> link.Delivered?
    ensures r.response.error.Some? ==> r.next == s
    ensures r.response.error.None? ==> r.next.rows.Keys == s.rows.Keys + {s.nextId} && r.next.nextId == s.nextId + 1
                                       && r.response.data == Some(r.next.rows[s.nextId])
  {
    if !link.Delivered? then Step(s, ShapeItem(Failed(link)))
    else
      var row := NewRow(input, s.nextId, createdAt, updatedAt);
      Step(Store(s.rows[s.nextId := row], s.nextId + 1), ShapeItem(Answered(Some(row), None, None)))
  }

  /** `updateClient` on the table's state: a delivered update of a stored id
      rewrites that row and answers it; otherwise nothing changes. */
  function UpdateStep(s: Store, id: Id, p: Patch, now: int, link: Transport): (r: Step<ItemResponse>)
    ensures r.response.error.None? <==> link.Delivered? && id in s.rows
    ensures r.response.error.Some? ==> r.next == s && r.response.data.None?
    ensures r.next.rows.Keys == s.rows.Keys && r.next.nextId == s.nextId
    ensures r.response.error.None? ==> r.response.data == Some(r.next.rows[id])
  {
    if !link.Delivered? then Step(s, ShapeItem(Failed(link)))
    else if id !in s.rows then Step(s, ShapeItem(Answered(None, None, Some(NotSingleError))))
    else
      var row := Patched(s.rows[id], p, now);
      Step(s.(rows := s.rows[id := row]), ShapeItem(Answered(Some(row), None, None)))
  }

  /** `deleteClient` on the table's state. */
  function DeleteStep(s: Store, id: Id, link: Transport): (r: Step<DeleteResponse>)
    ensures r.response.success <==> link.Delivered?
    ensures r.next.rows.Keys == if link.Delivered? then s.rows.Keys - {id} else s.rows.Keys
    ensures r.next.nextId == s.nextId
  {
    if !link.Delivered? then Step(s, ShapeDelete(Failed(link)))
    else Step(s.(rows := s.rows - {id}), ShapeDelete(Answered(None, None, None)))
  }

  /** `deleteClients` on the table's state. */
  function DeleteManyStep(s: Store, ids: seq<Id>, link: Transport): (r: Step<DeleteResponse>)
    ensures r.response.success <==> link.Delivered?
    ensures forall k :: k in r.next.rows <==> k in s.rows && !(link.Delivered? && k in ids)
    ensures r.next.nextId == s.nextId
  {
    if !link.Delivered? then Step(s, ShapeDelete(Failed(link)))
    else Step(s.(rows := s.rows - set k | k in ids), ShapeDelete(Answered(None, None, None)))
  }

  // ---------------------------------------------------------------- create

  /** A delivered insert stores exactly one new row under an id never issued
      before, leaves every other row as it was, and answers the stored row. */
  lemma CreateAddsOneRow(s: Store, input: Insert, createdAt: int, updatedAt: int)
    requires Consistent(s)
    ensures var st := CreateStep(s, input, createdAt, updatedAt, Delivered);
            var id := s.nextId;
            && id !in s.rows
            && (forall k :: k in s.rows ==> k < id)
            && st.next.rows.Keys == s.rows.Keys + {id}
            && (forall k :: k in s.rows ==> st.next.rows[k] == s.rows[k])
            && st.response == ItemResponse(Some(st.next.rows[id]), None)
            && st.next.rows[id].id == id
            && Consistent(st.next)
  {
  }

  /** The stored row carries the caller's columns unchanged, and its timestamps
      are the clock readings whatever the caller supplied. */
  lemma CreateStampsTimes(s: Store, input: Insert, createdAt: int, updatedAt: int, callerCreated: Option<int>, callerUpdated: Option<int>)
    ensures var row := CreateStep(s, input, createdAt, updatedAt, Delivered).next.rows[s.nextId];
            var row' := CreateStep(s, input.(createdAt := callerCreated, updatedAt := callerUpdated), createdAt, updatedAt, Delivered).next.rows[s.nextId];
            && row == row'
            && row.createdAt == createdAt && row.updatedAt == updatedAt
            && row.name == input.name && row.email == input.email && row.status == input.status
            && row.phone == Stored(input.phone) && row.company == Stored(input.company) && row.address == Stored(input.address)
  {
  }

  /** A created row can be fetched back by its id. */
  lemma CreateThenGet(s: Store, input: Insert, createdAt: int, updatedAt: int)
    ensures var st := CreateStep(s, input, createdAt, updatedAt, Delivered);
            GetClientById(st.next.rows, s.nextId, Delivered) == st.response
  {
  }

  /** Ids are never reused, even after the row that had one was deleted. */
  lemma IdsNeverReused(s: Store, input: Insert, createdAt: int, updatedAt: int, gone: Id, link: Transport)
    requires Consistent(s)
    requires gone in s.rows
    ensures var s' := DeleteStep(s, gone, link).next;
            CreateStep(s', input, createdAt, updatedAt, Delivered).next.rows[s'.nextId].id != gone
  {
  }

  // ---------------------------------------------------------------- update

  /** A delivered update of an existing row overwrites exactly the supplied
      columns and `updated_at`, and no other row changes. */
  lemma UpdateTouchesOneRow(s: Store, id: Id, p: Patch, now: int)
    requires Consistent(s)
    requires id in s.rows
    ensures var st := UpdateStep(s, id, p, now, Delivered);
            var before, after := s.rows[id], st.next.rows[id];
            && st.next.rows.Keys == s.rows.Keys && st.next.nextId == s.nextId
            && (forall k :: k in s.rows && k != id ==> st.next.rows[k] == s.rows[k])
            && after.id == id && after.updatedAt == now
            && (p.name.None? ==> after.name == before.name) && (p.name.Some? ==> after.name == p.name.value)
            && (p.email.None? ==> after.email == before.email) && (p.email.Some? ==> after.email == p.email.value)
            && (p.phone.Omitted? ==> after.phone == before.phone) && (!p.phone.Omitted? ==> after.phone == Stored(p.phone))
            && (p.company.Omitted? ==> after.company == before.company) && (!p.company.Omitted? ==> after.company == Stored(p.company))
            && (p.address.Omitted? ==> after.address == before.address) && (!p.address.Omitted? ==> after.address == Stored(p.address))
            && (p.status.None? ==> after.status == before.status) && (p.status.Some? ==> after.status == p.status.value)
            && (p.createdAt.None? ==> after.createdAt == before.createdAt)
            && (p.createdAt.Some? ==> after.createdAt == p.createdAt.value)
            && st.response == ItemResponse(Some(after), None)
            && Consistent(st.next)
  {
  }

  /** Updating a missing id answers the single-row error and changes nothing;
      in particular no row is created. */
  lemma UpdateMissingId(s: Store, id: Id, p: Patch, now: int)
    requires id !in s.rows
    ensures var st := UpdateStep(s, id, p, now, Delivered);
            && st.next == s
            && st.response == ItemResponse(None, Some(NotSingleError))
            && id !in st.next.rows
  {
  }

  /** Applying the same update twice is the same as applying it once. */
  lemma UpdateIdempotent(row: Client, p: Patch, now: int)
    ensures Patched(Patched(row, p, now), p, now) == Patched(row, p, now)
  {
  }

  /** A patch that supplies no column only refreshes `updated_at`. */
  lemma EmptyPatchOnlyStamps(row: Client, now: int, callerUpdated: Option<int>)
    ensures Patched(row, Patch(None, None, Omitted, Omitted, Omitted, None, None, callerUpdated), now)
            == row.(updatedAt := now)
  {
  }

  // ---------------------------------------------------------------- delete

  /** A delivered delete removes exactly the row with that id, if any, leaves the
      others untouched, and succeeds whether or not a row matched. */
  lemma DeleteRemovesExactly(s: Store, id: Id)
    requires Consistent(s)
    ensures var st := DeleteStep(s, id, Delivered);
            && st.response == DeleteResponse(true, None)
            && (forall k :: k in st.next.rows <==> k in s.rows && k != id)
            && (forall k :: k in st.next.rows ==> st.next.rows[k] == s.rows[k])
            && st.next.nextId == s.nextId
            && Consistent(st.next)
  {
  }

  /** Deleting the same id twice succeeds both times; the second call changes
      nothing further. */
  lemma DeleteTwice(s: Store, id: Id)
    ensures var first := DeleteStep(s, id, Delivered);
            var second := DeleteStep(first.next, id, Delivered);
            && first.response.success && second.response.success
            && second.next == first.next
  {
    var first := DeleteStep(s, id, Delivered);
    assert first.next.rows - {id} == first.next.rows;
  }

  /** A delivered batch delete removes exactly the rows whose ids are listed,
      leaves the others untouched, and succeeds even when none matched. */
  lemma DeleteManyRemovesExactly(s: Store, ids: seq<Id>)
    requires Consistent(s)
    ensures var st := DeleteManyStep(s, ids, Delivered);
            && st.response == DeleteResponse(true, None)
            && (forall k :: k in st.next.rows <==> k in s.rows && k !in ids)
            && (forall k :: k in st.next.rows ==> st.next.rows[k] == s.rows[k])
            && Consistent(st.next)
  {
  }

  // ---------------------------------------------------------------- faults

  /** A call that does not reach the table changes nothing, and the envelope
      carries the service's message, or the generic message when the call
      throws. */
  lemma FaultsChangeNothing(s: Store, link: Transport, id: Id, ids: seq<Id>, input: Insert, p: Patch, t1: int, t2: int)
    requires !link.Delivered?
    ensures var msg := if link.Throws? then UnexpectedError else link.message;
            && CreateStep(s, input, t1, t2, link) == Step(s, ItemResponse(None, Some(msg)))
            && UpdateStep(s, id, p, t1, link) == Step(s, ItemResponse(None, Some(msg)))
            && DeleteStep(s, id, link) == Step(s, DeleteResponse(false, Some(msg)))
            && DeleteManyStep(s, ids, link) == Step(s, DeleteResponse(false, Some(msg)))
            && GetClientById(s.rows, id, link) == ItemResponse(None, Some(msg))
            && ListClients(s.rows, Filters(None, None, None, None), link) == ListResponse([], 0, Some(msg))
  {
  }

  // ---------------------------------------------------------------- the table

  /** The in-memory stand-in for the `clients` table of the storage service. */
  class ClientTable {
    var rows: map<Id, Client>
    var nextId: nat

    function State(): Store
      reads this
    {
      Store(rows, nextId)
    }

    ghost predicate Valid()
      reads this
    {
      Consistent(State())
    }

    constructor ()
      ensures Valid() && rows == map[] && nextId == 0
    {
      rows := map[];
      nextId := 0;
    }

    /** `getClients`: builds the query descriptor from the filters, runs it,
        and shapes the envelope. The answer is the one the filters ask for. */
    method GetClients(f: Filters, link: Transport) returns (r: ListResponse)
      ensures r == ListClients(rows, f, link)
    {
      var query := BuildQuery(f);
      var reply := Execute(rows, query, link);
      assert Matching(rows, query.predicates) == Hits(rows, f);
      r := ShapeList(reply);
    }

    /** `createClient`: inserts the payload with both timestamps taken from the
        clock readings, and answers the stored row. */
    method CreateClient(input: Insert, createdAt: int, updatedAt: int, link: Transport) returns (r: ItemResponse)
      requires Valid()
      modifies this
      ensures Valid()
      ensures State() == CreateStep(old(State()), input, createdAt, updatedAt, link).next
      ensures r == CreateStep(old(State()), input, createdAt, updatedAt, link).response
    {
      if link.Delivered? {
        var row := NewRow(input, nextId, createdAt, updatedAt);
        rows := rows[nextId := row];
        nextId := nextId + 1;
        r := ShapeItem(Answered(Some(row), None, None));
      } else {
        r := ShapeItem(Failed(link));
      }
    }

    /** `updateClient`: overwrites the supplied columns of the row with that id
        and refreshes `updated_at`; a missing id is the single-row error. */
    method UpdateClient(id: Id, p: Patch, now: int, link: Transport) returns (r: ItemResponse)
      requires Valid()
      modifies this
      ensures Valid()
      ensures State() == UpdateStep(old(State()), id, p, now, link).next
      ensures r == UpdateStep(old(State()), id, p, now, link).response
    {
      if !link.Delivered? {
        r := ShapeItem(Failed(link));
      } else if id !in rows {
        r := ShapeItem(Answered(None, None, Some(NotSingleError)));
      } else {
        var row := Patched(rows[id], p, now);
        rows := rows[id := row];
        r := ShapeItem(Answered(Some(row), None, None));
      }
    }

    /** `deleteClient`: removes the row with that id, if any. */
    method DeleteClient(id: Id, link: Transport) returns (r: DeleteResponse)
      requires Valid()
      modifies this
      ensures Valid()
      ensures State() == DeleteStep(old(State()), id, link).next
      ensures r == DeleteStep(old(State()), id, link).response
    {
      if link.Delivered? {
        rows := rows - {id};
        r := ShapeDelete(Answered(None, None, None));
      } else {
        r := ShapeDelete(Failed(link));
      }
    }

    /** `deleteClients`: removes every row whose id is listed. */
    method DeleteClients(ids: seq<Id>, link: Transport) returns (r: DeleteResponse)
      requires Valid()
      modifies this
      ensures Valid()
      ensures State() == DeleteManyStep(old(State()), ids, link).next
      ensures r == DeleteManyStep(old(State()), ids, link).response
    {
      if link.Delivered? {
        rows := rows - set k | k in ids;
        r := ShapeDelete(Answered(None, None, None));
      } else {
        r := ShapeDelete(Failed(link));
      }
    }
  }
}
