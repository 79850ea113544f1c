/** Validation composed with the client service. The service itself never runs
    the schemas: the create and edit forms validate their input first and pass
    only an accepted payload on. The members here state what that composition
    of the two parts guarantees; they are not behaviour of the service's
    operations on their own. */
module Composition {
  import opened Options
  import opened Records
  import Schemas
  import ClientQuery
  import ClientRepository

  /** A stored row that meets every bound of the create schema. */
  ghost predicate Conforms(row: Client, isEmail: Schemas.EmailSyntax) {
    && 1 <= |row.name| <= Schemas.NameMax
    && 1 <= |row.email| <= Schemas.EmailMax && isEmail(row.email)
    && (row.phone.Some? ==> |row.phone.value| <= Schemas.PhoneMax)
    && (row.company.Some? ==> |row.company.value| <= Schemas.CompanyMax)
    && (row.address.Some? ==> |row.address.value| <= Schemas.AddressMax)
  }

  /** Creating from form input accepted by the create schema stores a row that
      meets the schema's bounds, with `active` when the form left the status
      out. */
  lemma AcceptedCreateConforms(s: ClientRepository.Store, c: Schemas.Candidate, isEmail: Schemas.EmailSyntax, createdAt: int, updatedAt: int)
    requires Schemas.ValidateCreate(c, isEmail).Accepted?
    ensures var input := Schemas.ValidateCreate(c, isEmail).value;
            var row := ClientRepository.CreateStep(s, input, createdAt, updatedAt, ClientRepository.Delivered).next.rows[s.nextId];
            && Conforms(row, isEmail)
            && (c.status.Missing? ==> row.status == Active)
  {
    var input := Schemas.ValidateCreate(c, isEmail).value;
    ClientRepository.CreateStampsTimes(s, input, createdAt, updatedAt, None, None);
  }

  /** Updating a conforming row with form input accepted by the update schema
      keeps it conforming and keeps its creation time. */
  lemma AcceptedUpdateConforms(row: Client, c: Schemas.Candidate, isEmail: Schemas.EmailSyntax, now: int)
    requires Conforms(row, isEmail)
    requires Schemas.ValidateUpdate(c, isEmail).Accepted?
    ensures var p := Schemas.ValidateUpdate(c, isEmail).value;
            var row' := ClientRepository.Patched(row, p, now);
            && Conforms(row', isEmail)
            && row'.createdAt == row.createdAt
            && row'.id == row.id
  {
  }

  /** A hypothetical composition: the list view passes its filters to the
      service without running the filter schema, so this states what the
      schema would guarantee if a caller did. Filters accepted by the filter
      schema never make the storage engine refuse the window for a negative value: the only refusal left is an
      offset past the last admitted row. When the filters carry a limit the
      page holds at most that many rows, so at most 100. */
  lemma AcceptedFiltersList(t: map<Id, Client>, c: Schemas.FilterCandidate)
    requires Schemas.ValidateFilters(c).Accepted?
    ensures var f := Schemas.ValidateFilters(c).value;
            var r := ClientRepository.ListClients(t, f, ClientRepository.Delivered);
            && (r.error.None? <==> ClientQuery.Start(f) <= |ClientRepository.Hits(t, f)|)
            && (r.error.Some? ==> r.error == Some(ClientRepository.RangeError))
            && (r.error.None? ==> r.count == |ClientRepository.Hits(t, f)|)
            && (f.limit.Some? ==> |r.data| <= f.limit.value <= Schemas.LimitMax)
            && (f.limit.None? && f.offset.Some? && f.offset.value != 0 ==> |r.data| <= ClientQuery.DefaultPageSize)
  {
    var f := Schemas.ValidateFilters(c).value;
    var ordered := ClientQuery.Rows(t, ClientQuery.Rank(t, ClientRepository.Hits(t, f)));
    ClientQuery.PageRefused(ordered, f);
    ClientRepository.ListErrors(t, f, ClientRepository.Delivered);
    if ClientRepository.ListClients(t, f, ClientRepository.Delivered).error.None? {
      ClientRepository.ListCounts(t, f, ClientRepository.Delivered);
    }
  }

  /** The create form's flow: validate the input, and only when it is accepted
      hand the payload to the service. Rejected input leaves the table as it
      was and reports the schema's violations. */
  method SubmitCreate(table: ClientRepository.ClientTable, c: Schemas.Candidate, isEmail: Schemas.EmailSyntax,
                      createdAt: int, updatedAt: int, link: ClientRepository.Transport)
    returns (r: Schemas.Checked<ClientRepository.ItemResponse>)
    requires table.Valid()
    modifies table
    ensures table.Valid()
    ensures Schemas.ValidateCreate(c, isEmail).Rejected? ==>
              && r == Schemas.Rejected(Schemas.ValidateCreate(c, isEmail).violations)
              && table.State() == old(table.State())
    ensures Schemas.ValidateCreate(c, isEmail).Accepted? ==>
              var st := ClientRepository.CreateStep(old(table.State()), Schemas.ValidateCreate(c, isEmail).value, createdAt, updatedAt, link);
              && table.State() == st.next
              && r == Schemas.Accepted(st.response)
  {
    var checked := Schemas.ValidateCreate(c, isEmail);
    if checked.Rejected? {
      r := Schemas.Rejected(checked.violations);
    } else {
      var response := table.CreateClient(checked.value, createdAt, updatedAt, link);
      r := Schemas.Accepted(response);
    }
  }

  /** The edit form's flow: validate the input against the update schema, and
      only when it is accepted hand the patch to the service. */
  method SubmitUpdate(table: ClientRepository.ClientTable, id: Id, c: Schemas.Candidate, isEmail: Schemas.EmailSyntax,
                      now: int, link: ClientRepository.Transport)
    returns (r: Schemas.Checked<ClientRepository.ItemResponse>)
    requires table.Valid()
    modifies table
    ensures table.Valid()
    ensures Schemas.ValidateUpdate(c, isEmail).Rejected? ==>
              && r == Schemas.Rejected(Schemas.ValidateUpdate(c, isEmail).violations)
              && table.State() == old(table.State())
    ensures Schemas.ValidateUpdate(c, isEmail).Accepted? ==>
              var st := ClientRepository.UpdateStep(old(table.State()), id, Schemas.ValidateUpdate(c, isEmail).value, now, link);
              && table.State() == st.next
              && r == Schemas.Accepted(st.response)
  {
    var checked := Schemas.ValidateUpdate(c, isEmail);
    if checked.Rejected? {
      r := Schemas.Rejected(checked.violations);
    } else {
      var response := table.UpdateClient(id, checked.value, now, link);
      r := Schemas.Accepted(response);
    }
  }

  /** A worked case: a form giving only a name and an email address accepted by the
      email rule creates an `active` client with no phone, company or address,
      stored under the next id and answered back. */
  lemma MinimalCreate(s: ClientRepository.Store, isEmail: Schemas.EmailSyntax, t1: int, t2: int)
    requires isEmail("ann@example.com")
    ensures var c := Schemas.Candidate(Schemas.Str("Ann Lee"), Schemas.Str("ann@example.com"),
                                       Schemas.Missing, Schemas.Missing, Schemas.Missing, Schemas.Missing);
            var checked := Schemas.ValidateCreate(c, isEmail);
            && checked.Accepted?
            && ClientRepository.CreateStep(s, checked.value, t1, t2, ClientRepository.Delivered).response
               == ClientRepository.ItemResponse(Some(Client(s.nextId, "Ann Lee", "ann@example.com", None, None, None, Active, t1, t2)), None)
  {
    var c := Schemas.Candidate(Schemas.Str("Ann Lee"), Schemas.Str("ann@example.com"),
                               Schemas.Missing, Schemas.Missing, Schemas.Missing, Schemas.Missing);
    assert Schemas.CreateAcceptable(c, isEmail);
  }
}
