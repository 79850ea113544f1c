/** The declarative validation schemas for a client record and for the list
    filters. A candidate comes from an untyped form: each key may be missing,
    null, a string, a number or some other value. Every field is checked
    independently and every failing check of a field is reported, so a
    validator answers either the normalised payload or the full ordered list
    of (field, issue) violations.

    The email syntax check belongs to the validation library and is not part
    of this model: validators take it as the parameter `isEmail`. */
module Schemas {
  import opened Options
  import opened Records

  /** One untyped input value. */
  datatype Raw = Missing | NullValue | Str(s: string) | Num(n: int) | OtherValue

  /** A candidate client record as the form submits it. */
  datatype Candidate = Candidate(
    name: Raw,
    email: Raw,
    phone: Raw,
    company: Raw,
    address: Raw,
    status: Raw)

  /** A candidate filter object. */
  datatype FilterCandidate = FilterCandidate(search: Raw, status: Raw, limit: Raw, offset: Raw)

  datatype FieldName =
    | NameField | EmailField | PhoneField | CompanyField | AddressField | StatusField
    | SearchField | LimitField | OffsetField

  /** `Required`: the key is missing; `WrongType`: the value has the wrong type;
      `TooSmall`/`TooBig`: a length or number bound fails; `BadEmail`: the email
      syntax check fails; `NotInEnum`: a string outside the status enumeration. */
  datatype Issue = Required | WrongType | TooSmall | TooBig | BadEmail | NotInEnum

  datatype Violation = Violation(field: FieldName, issue: Issue)

  datatype Checked<T> = Accepted(value: T) | Rejected(violations: seq<Violation>)

  /** `Create` is the create schema; `Update` is the same schema made partial. */
  datatype Mode = Create | Update

  type EmailSyntax = string -> bool

  const NameMax: nat := 100
  const EmailMax: nat := 255
  const PhoneMax: nat := 20
  const CompanyMax: nat := 100
  const AddressMax: nat := 500
  const LimitMin: int := 1
  const LimitMax: int := 100
  const OffsetMin: int := 0

  // ---------------------------------------------------------------- field rules

  /** A required string with a length range, and optionally the email check.
      Once the value is a string, all of its checks run and each failure is
      reported, in the order min, email, max. The partial schema lets the key
      be missing. */
  function TextIssues(r: Raw, mode: Mode, min: nat, max: nat, email: bool, isEmail: EmailSyntax): (issues: seq<Issue>)
    ensures issues == [] <==>
              (mode == Update && r.Missing?) || (r.Str? && min <= |r.s| <= max && (email ==> isEmail(r.s)))
    ensures r.Str? ==> ((|r.s| < min) <==> TooSmall in issues) && ((|r.s| > max) <==> TooBig in issues)
    ensures r.Str? ==> (BadEmail in issues <==> email && !isEmail(r.s))
  {
    match r
    case Missing => if mode == Update then [] else [Required]
    case Str(s) =>
      (if |s| < min then [TooSmall] else [])
      + (if email && !isEmail(s) then [BadEmail] else [])
      + (if |s| > max then [TooBig] else [])
    case _ => [WrongType]
  }

  /** An optional, nullable string with a maximum length. */
  function NullableTextIssues(r: Raw, max: nat): (issues: seq<Issue>)
    ensures issues == [] <==> r.Missing? || r.NullValue? || (r.Str? && |r.s| <= max)
    ensures issues != [] ==> |issues| == 1
  {
    match r
    case Missing => []
    case NullValue => []
    case Str(s) => if |s| > max then [TooBig] else []
    case _ => [WrongType]
  }

  /** The status enumeration; a missing key is accepted (defaulted on create). */
  function StatusIssues(r: Raw): (issues: seq<Issue>)
    ensures issues == [] <==> r.Missing? || (r.Str? && ParseStatus(r.s).Some?)
  {
    match r
    case Missing => []
    case Str(s) => if ParseStatus(s).Some? then [] else [NotInEnum]
    case _ => [WrongType]
  }

  /** An optional number with a lower and possibly an upper bound. */
  function NumberIssues(r: Raw, min: int, max: Option<int>): (issues: seq<Issue>)
    ensures issues == [] <==> r.Missing? || (r.Num? && min <= r.n && (max.Some? ==> r.n <= max.value))
  {
    match r
    case Missing => []
    case Num(n) =>
      (if n < min then [TooSmall] else []) + (if max.Some? && n > max.value then [TooBig] else [])
    case _ => [WrongType]
  }

  /** An optional string with no further check. */
  function OptionalTextIssues(r: Raw): (issues: seq<Issue>)
    ensures issues == [] <==> r.Missing? || r.Str?
  {
    match r
    case Missing => []
    case Str(_) => []
    case _ => [WrongType]
  }

  // ---------------------------------------------------------------- violation lists

  /** Attributes a list of issues to one field. */
  function Tag(f: FieldName, issues: seq<Issue>): (vs: seq<Violation>)
    ensures |vs| == |issues|
  {
    seq(|issues|, i requires 0 <= i < |issues| => Violation(f, issues[i]))
  }

  /** The issue a single violation reports for field `f`, if any. */
  function Own(v: Violation, f: FieldName): seq<Issue> {
    if v.field == f then [v.issue] else []
  }

  /** The issues a violation list reports for one field, in order. */
  function IssuesOf(vs: seq<Violation>, f: FieldName): seq<Issue> {
    if vs == [] then [] else Own(vs[0], f) + IssuesOf(vs[1..], f)
  }

  lemma {:induction false} IssuesOfAppend(a: seq<Violation>, b: seq<Violation>, f: FieldName)
    ensures IssuesOf(a + b, f) == IssuesOf(a, f) + IssuesOf(b, f)
  {
    if a == [] {
      assert a + b == b;
    } else {
      var ab := a + b;
      assert ab[0] == a[0];
      assert ab[1..] == a[1..] + b;
      IssuesOfAppend(a[1..], b, f);
      calc {
        IssuesOf(ab, f);
        Own(a[0], f) + IssuesOf(a[1..] + b, f);
        Own(a[0], f) + (IssuesOf(a[1..], f) + IssuesOf(b, f));
        (Own(a[0], f) + IssuesOf(a[1..], f)) + IssuesOf(b, f);
      }
    }
  }

  lemma {:induction false} IssuesOfTag(g: FieldName, issues: seq<Issue>, f: FieldName)
    ensures IssuesOf(Tag(g, issues), f) == if g == f then issues else []
  {
    if issues != [] {
      IssuesOfTag(g, issues[1..], f);
      assert Tag(g, issues)[0] == Violation(g, issues[0]);
      assert Tag(g, issues)[1..] == Tag(g, issues[1..]);
    }
  }

  /** The issues of one field of a client candidate, under the given schema. */
  function ClientFieldIssues(c: Candidate, f: FieldName, mode: Mode, isEmail: EmailSyntax): seq<Issue> {
    match f
    case NameField => TextIssues(c.name, mode, 1, NameMax, false, isEmail)
    case EmailField => TextIssues(c.email, mode, 1, EmailMax, true, isEmail)
    case PhoneField => NullableTextIssues(c.phone, PhoneMax)
    case CompanyField => NullableTextIssues(c.company, CompanyMax)
    case AddressField => NullableTextIssues(c.address, AddressMax)
    case StatusField => StatusIssues(c.status)
    case _ => []
  }

  /** All violations of a client candidate, field by field in the schema's
      declaration order. */
  function ClientViolations(c: Candidate, mode: Mode, isEmail: EmailSyntax): seq<Violation> {
    Tag(NameField, ClientFieldIssues(c, NameField, mode, isEmail))
    + Tag(EmailField, ClientFieldIssues(c, EmailField, mode, isEmail))
    + Tag(PhoneField, ClientFieldIssues(c, PhoneField, mode, isEmail))
    + Tag(CompanyField, ClientFieldIssues(c, CompanyField, mode, isEmail))
    + Tag(AddressField, ClientFieldIssues(c, AddressField, mode, isEmail))
    + Tag(StatusField, ClientFieldIssues(c, StatusField, mode, isEmail))
  }

  /** The issues listed for field `f` among the six client fields. */
  function Pick(f: FieldName, name: seq<Issue>, email: seq<Issue>, phone: seq<Issue>,
                company: seq<Issue>, address: seq<Issue>, status: seq<Issue>): seq<Issue> {
    match f
    case NameField => name
    case EmailField => email
    case PhoneField => phone
    case CompanyField => company
    case AddressField => address
    case StatusField => status
    case _ => []
  }

  lemma {:induction false} IssuesOfSix(a: seq<Violation>, b: seq<Violation>, d: seq<Violation>,
                    e: seq<Violation>, g: seq<Violation>, h: seq<Violation>, f: FieldName)
    ensures IssuesOf(a + b + d + e + g + h, f)
            == IssuesOf(a, f) + IssuesOf(b, f) + IssuesOf(d, f) + IssuesOf(e, f) + IssuesOf(g, f) + IssuesOf(h, f)
  {
    IssuesOfAppend(a + b + d + e + g, h, f);
    IssuesOfAppend(a + b + d + e, g, f);
    IssuesOfAppend(a + b + d, e, f);
    IssuesOfAppend(a + b, d, f);
    IssuesOfAppend(a, b, f);
  }

  /** When each of six parts is a field's issues exactly for its own field,
      their concatenation is the issues of field `f`. */
  lemma PickJoined(f: FieldName, name: seq<Issue>, email: seq<Issue>, phone: seq<Issue>,
                   company: seq<Issue>, address: seq<Issue>, status: seq<Issue>,
                   a: seq<Issue>, b: seq<Issue>, d: seq<Issue>, e: seq<Issue>, g: seq<Issue>, h: seq<Issue>)
    requires a == (if NameField == f then name else [])
    requires b == (if EmailField == f then email else [])
    requires d == (if PhoneField == f then phone else [])
    requires e == (if CompanyField == f then company else [])
    requires g == (if AddressField == f then address else [])
    requires h == (if StatusField == f then status else [])
    ensures a + b + d + e + g + h == Pick(f, name, email, phone, company, address, status)
  {
    match f
    case NameField => assert a + b + d + e + g + h == a;
    case EmailField => assert a + b + d + e + g + h == b;
    case PhoneField => assert a + b + d + e + g + h == d;
    case CompanyField => assert a + b + d + e + g + h == e;
    case AddressField => assert a + b + d + e + g + h == g;
    case StatusField => assert a + b + d + e + g + h == h;
    case _ =>
  }

  /** Six violation lists, each reporting issues only for its own field,
      report for each field exactly that field's issues once joined. */
  lemma {:induction false} JoinedIssues(a: seq<Violation>, b: seq<Violation>, d: seq<Violation>,
                                        e: seq<Violation>, g: seq<Violation>, h: seq<Violation>,
                                        name: seq<Issue>, email: seq<Issue>, phone: seq<Issue>,
                                        company: seq<Issue>, address: seq<Issue>, status: seq<Issue>, f: FieldName)
    requires IssuesOf(a, f) == (if NameField == f then name else [])
    requires IssuesOf(b, f) == (if EmailField == f then email else [])
    requires IssuesOf(d, f) == (if PhoneField == f then phone else [])
    requires IssuesOf(e, f) == (if CompanyField == f then company else [])
    requires IssuesOf(g, f) == (if AddressField == f then address else [])
    requires IssuesOf(h, f) == (if StatusField == f then status else [])
    ensures IssuesOf(a + b + d + e + g + h, f) == Pick(f, name, email, phone, company, address, status)
  {
    PickJoined(f, name, email, phone, company, address, status,
               IssuesOf(a, f), IssuesOf(b, f), IssuesOf(d, f), IssuesOf(e, f), IssuesOf(g, f), IssuesOf(h, f));
    IssuesOfSix(a, b, d, e, g, h, f);
  }

  /** Six fields tagged one after another report, for each field, exactly its
      own issues. */
  lemma {:induction false} IssuesOfSixFields(name: seq<Issue>, email: seq<Issue>, phone: seq<Issue>,
                                             company: seq<Issue>, address: seq<Issue>, status: seq<Issue>, f: FieldName)
    ensures IssuesOf(Tag(NameField, name) + Tag(EmailField, email) + Tag(PhoneField, phone)
                     + Tag(CompanyField, company) + Tag(AddressField, address) + Tag(StatusField, status), f)
            == Pick(f, name, email, phone, company, address, status)
  {
    IssuesOfTag(NameField, name, f);
    IssuesOfTag(EmailField, email, f);
    IssuesOfTag(PhoneField, phone, f);
    IssuesOfTag(CompanyField, company, f);
    IssuesOfTag(AddressField, address, f);
    IssuesOfTag(StatusField, status, f);
    JoinedIssues(Tag(NameField, name), Tag(EmailField, email), Tag(PhoneField, phone),
                 Tag(CompanyField, company), Tag(AddressField, address), Tag(StatusField, status),
                 name, email, phone, company, address, status, f);
  }

  /** Fields are checked independently: what is reported for a field depends on
      that field's value alone, and a failure on one field never hides another. */
  lemma FieldsAreIndependent(c: Candidate, mode: Mode, isEmail: EmailSyntax, f: FieldName)
    ensures IssuesOf(ClientViolations(c, mode, isEmail), f) == ClientFieldIssues(c, f, mode, isEmail)
  {
    IssuesOfSixFields(ClientFieldIssues(c, NameField, mode, isEmail), ClientFieldIssues(c, EmailField, mode, isEmail),
                      ClientFieldIssues(c, PhoneField, mode, isEmail), ClientFieldIssues(c, CompanyField, mode, isEmail),
                      ClientFieldIssues(c, AddressField, mode, isEmail), ClientFieldIssues(c, StatusField, mode, isEmail), f);
  }

  lemma NoViolations(c: Candidate, mode: Mode, isEmail: EmailSyntax)
    ensures ClientViolations(c, mode, isEmail) == [] <==>
              forall f :: ClientFieldIssues(c, f, mode, isEmail) == []
  {
    if ClientViolations(c, mode, isEmail) == [] {
      forall f ensures ClientFieldIssues(c, f, mode, isEmail) == [] {
        FieldsAreIndependent(c, mode, isEmail, f);
      }
    }
  }

  // ---------------------------------------------------------------- the client schemas

  /** The value a nullable field takes in the output: a missing key stays missing. */
  function NullableOf(r: Raw): Nullable {
    match r
    case Str(s) => Text(s)
    case NullValue => Null
    case _ => Omitted
  }

  /** What the create schema admits, field by field. */
  ghost predicate CreateAcceptable(c: Candidate, isEmail: EmailSyntax) {
    && c.name.Str? && 1 <= |c.name.s| <= 100
    && c.email.Str? && 1 <= |c.email.s| <= 255 && isEmail(c.email.s)
    && (c.phone.Missing? || c.phone.NullValue? || (c.phone.Str? && |c.phone.s| <= 20))
    && (c.company.Missing? || c.company.NullValue? || (c.company.Str? && |c.company.s| <= 100))
    && (c.address.Missing? || c.address.NullValue? || (c.address.Str? && |c.address.s| <= 500))
    && (c.status.Missing? || (c.status.Str? && c.status.s in {"active", "inactive", "pending"}))
  }

  /** What the partial (update) schema admits: every key may be missing, and a
      present one must pass the create rule. */
  ghost predicate UpdateAcceptable(c: Candidate, isEmail: EmailSyntax) {
    && (c.name.Missing? || (c.name.Str? && 1 <= |c.name.s| <= 100))
    && (c.email.Missing? || (c.email.Str? && 1 <= |c.email.s| <= 255 && isEmail(c.email.s)))
    && (c.phone.Missing? || c.phone.NullValue? || (c.phone.Str? && |c.phone.s| <= 20))
    && (c.company.Missing? || c.company.NullValue? || (c.company.Str? && |c.company.s| <= 100))
    && (c.address.Missing? || c.address.NullValue? || (c.address.Str? && |c.address.s| <= 500))
    && (c.status.Missing? || (c.status.Str? && c.status.s in {"active", "inactive", "pending"}))
  }

  lemma EnumLiterals(s: string)
    ensures ParseStatus(s).Some? <==> s in {"active", "inactive", "pending"}
  {
  }

  /** The create schema. An accepted candidate yields the insert payload: the
      strings unchanged, missing nullable keys left out, and a missing status
      defaulted to `active`. */
  function ValidateCreate(c: Candidate, isEmail: EmailSyntax): (r: Checked<Insert>)
    ensures r.Accepted? <==> CreateAcceptable(c, isEmail)
    ensures r.Rejected? ==> r.violations == ClientViolations(c, Create, isEmail) && r.violations != []
    ensures r.Accepted? ==>
              && r.value.name == c.name.s && r.value.email == c.email.s
              && r.value.phone == NullableOf(c.phone)
              && r.value.company == NullableOf(c.company)
              && r.value.address == NullableOf(c.address)
              && (c.status.Missing? ==> r.value.status == Active)
              && (c.status.Str? ==> StatusName(r.value.status) == c.status.s)
              && r.value.createdAt.None? && r.value.updatedAt.None?
  {
    var vs := ClientViolations(c, Create, isEmail);
    NoViolations(c, Create, isEmail);
    if vs != [] then
      assert ClientFieldIssues(c, NameField, Create, isEmail) != []
          || ClientFieldIssues(c, EmailField, Create, isEmail) != []
          || ClientFieldIssues(c, PhoneField, Create, isEmail) != []
          || ClientFieldIssues(c, CompanyField, Create, isEmail) != []
          || ClientFieldIssues(c, AddressField, Create, isEmail) != []
          || ClientFieldIssues(c, StatusField, Create, isEmail) != [];
      Rejected(vs)
    else
      assert ClientFieldIssues(c, NameField, Create, isEmail) == [];
      assert ClientFieldIssues(c, EmailField, Create, isEmail) == [];
      assert ClientFieldIssues(c, PhoneField, Create, isEmail) == [];
      assert ClientFieldIssues(c, CompanyField, Create, isEmail) == [];
      assert ClientFieldIssues(c, AddressField, Create, isEmail) == [];
      assert ClientFieldIssues(c, StatusField, Create, isEmail) == [];
      var status := if c.status.Missing? then Active else ParseStatus(c.status.s).value;
      Accepted(Insert(c.name.s, c.email.s, NullableOf(c.phone), NullableOf(c.company),
                      NullableOf(c.address), status, None, None))
  }

  /** The update schema: the create schema with every field optional. A missing
      key stays missing in the patch, and no status default is injected. */
  function ValidateUpdate(c: Candidate, isEmail: EmailSyntax): (r: Checked<Patch>)
    ensures r.Accepted? <==> UpdateAcceptable(c, isEmail)
    ensures r.Rejected? ==> r.violations == ClientViolations(c, Update, isEmail) && r.violations != []
    ensures r.Accepted? ==>
              && (r.value.name.Some? <==> !c.name.Missing?)
              && (r.value.name.Some? ==> r.value.name.value == c.name.s)
              && (r.value.email.Some? <==> !c.email.Missing?)
              && (r.value.email.Some? ==> r.value.email.value == c.email.s)
              && r.value.phone == NullableOf(c.phone)
              && r.value.company == NullableOf(c.company)
              && r.value.address == NullableOf(c.address)
              && (r.value.status.Some? <==> !c.status.Missing?)
              && (r.value.status.Some? ==> StatusName(r.value.status.value) == c.status.s)
              && r.value.createdAt.None? && r.value.updatedAt.None?
  {
    var vs := ClientViolations(c, Update, isEmail);
    NoViolations(c, Update, isEmail);
    if vs != [] then
      assert ClientFieldIssues(c, NameField, Update, isEmail) != []
          || ClientFieldIssues(c, EmailField, Update, isEmail) != []
          || ClientFieldIssues(c, PhoneField, Update, isEmail) != []
          || ClientFieldIssues(c, CompanyField, Update, isEmail) != []
          || ClientFieldIssues(c, AddressField, Update, isEmail) != []
          || ClientFieldIssues(c, StatusField, Update, isEmail) != [];
      Rejected(vs)
    else
      assert ClientFieldIssues(c, NameField, Update, isEmail) == [];
      assert ClientFieldIssues(c, EmailField, Update, isEmail) == [];
      assert ClientFieldIssues(c, PhoneField, Update, isEmail) == [];
      assert ClientFieldIssues(c, CompanyField, Update, isEmail) == [];
      assert ClientFieldIssues(c, AddressField, Update, isEmail) == [];
      assert ClientFieldIssues(c, StatusField, Update, isEmail) == [];
      Accepted(Patch(
        if c.name.Str? then Some(c.name.s) else None,
        if c.email.Str? then Some(c.email.s) else None,
        NullableOf(c.phone), NullableOf(c.company), NullableOf(c.address),
        if c.status.Str? then ParseStatus(c.status.s) else None,
        None, None))
  }

  // ---------------------------------------------------------------- the filter schema

  function FilterViolations(c: FilterCandidate): seq<Violation> {
    Tag(SearchField, OptionalTextIssues(c.search))
    + Tag(StatusField, StatusIssues(c.status))
    + Tag(LimitField, NumberIssues(c.limit, LimitMin, Some(LimitMax)))
    + Tag(OffsetField, NumberIssues(c.offset, OffsetMin, None))
  }

  /** The filter schema: `search` any string, `status` in the enumeration,
      `limit` in [1, 100] and `offset` at least 0, each optional. */
  function ValidateFilters(c: FilterCandidate): (r: Checked<Filters>)
    ensures r.Accepted? <==>
              && (c.search.Missing? || c.search.Str?)
              && (c.status.Missing? || (c.status.Str? && c.status.s in {"active", "inactive", "pending"}))
              && (c.limit.Missing? || (c.limit.Num? && 1 <= c.limit.n <= 100))
              && (c.offset.Missing? || (c.offset.Num? && 0 <= c.offset.n))
    ensures r.Rejected? ==> r.violations == FilterViolations(c) && r.violations != []
    ensures r.Accepted? ==>
              && (r.value.search.Some? <==> c.search.Str?)
              && (r.value.search.Some? ==> r.value.search.value == c.search.s)
              && (r.value.status.Some? <==> c.status.Str?)
              && (r.value.status.Some? ==> StatusName(r.value.status.value) == c.status.s)
              && (r.value.limit.Some? <==> c.limit.Num?)
              && (r.value.limit.Some? ==> r.value.limit.value == c.limit.n)
              && (r.value.offset.Some? <==> c.offset.Num?)
              && (r.value.offset.Some? ==> r.value.offset.value == c.offset.n)
  {
    var s := OptionalTextIssues(c.search);
    var st := StatusIssues(c.status);
    var l := NumberIssues(c.limit, LimitMin, Some(LimitMax));
    var o := NumberIssues(c.offset, OffsetMin, None);
    assert |FilterViolations(c)| == |s| + |st| + |l| + |o|;
    if FilterViolations(c) != [] then Rejected(FilterViolations(c))
    else
      Accepted(Filters(
        if c.search.Str? then Some(c.search.s) else None,
        if c.status.Str? then ParseStatus(c.status.s) else None,
        if c.limit.Num? then Some(c.limit.n) else None,
        if c.offset.Num? then Some(c.offset.n) else None))
  }

  // ---------------------------------------------------------------- properties

  /** The candidate a payload reads back as. */
  function Encode(ins: Insert): Candidate {
    Candidate(Str(ins.name), Str(ins.email), RawOf(ins.phone), RawOf(ins.company), RawOf(ins.address),
              Str(StatusName(ins.status)))
  }

  function RawOf(n: Nullable): Raw {
    match n
    case Omitted => Missing
    case Null => NullValue
    case Text(s) => Str(s)
  }

  /** The patch that writes every column of an insert payload. */
  function FullPatch(ins: Insert): Patch {
    Patch(Some(ins.name), Some(ins.email), ins.phone, ins.company, ins.address, Some(ins.status), None, None)
  }

  lemma StatusNameInjective(a: Status, b: Status)
    ensures StatusName(a) == StatusName(b) ==> a == b
  {
  }

  lemma RawOfNullableOf(r: Raw)
    requires r.Missing? || r.NullValue? || r.Str?
    ensures RawOf(NullableOf(r)) == r
  {
  }

  /** Partial only relaxes presence: whatever the create schema accepts the
      update schema accepts too, with the same values in every present field. */
  lemma CreateAcceptedUpdateAccepts(c: Candidate, isEmail: EmailSyntax)
    requires ValidateCreate(c, isEmail).Accepted?
    ensures ValidateUpdate(c, isEmail).Accepted?
    ensures var ins, p := ValidateCreate(c, isEmail).value, ValidateUpdate(c, isEmail).value;
            p.name == Some(ins.name) && p.email == Some(ins.email)
            && p.phone == ins.phone && p.company == ins.company && p.address == ins.address
            && (p.status.Some? ==> p.status.value == ins.status)
  {
    var ins, p := ValidateCreate(c, isEmail).value, ValidateUpdate(c, isEmail).value;
    if p.status.Some? {
      StatusNameInjective(p.status.value, ins.status);
    }
  }

  /** A normalised record is a fixed point: validated again by the create schema
      it comes back unchanged, and the update schema accepts it as a patch of
      every field. */
  lemma {:induction false} NormalisedRevalidates(c: Candidate, isEmail: EmailSyntax)
    requires ValidateCreate(c, isEmail).Accepted?
    ensures var ins := ValidateCreate(c, isEmail).value;
            ValidateCreate(Encode(ins), isEmail) == Accepted(ins)
            && ValidateUpdate(Encode(ins), isEmail) == Accepted(FullPatch(ins))
  {
    var ins := ValidateCreate(c, isEmail).value;
    var e := Encode(ins);
    RawOfNullableOf(c.phone);
    RawOfNullableOf(c.company);
    RawOfNullableOf(c.address);
    assert ParseStatus(StatusName(ins.status)).Some?;
    assert CreateAcceptable(e, isEmail);
    var again := ValidateCreate(e, isEmail).value;
    StatusNameInjective(again.status, ins.status);
    assert UpdateAcceptable(e, isEmail);
    var p := ValidateUpdate(e, isEmail).value;
    StatusNameInjective(p.status.value, ins.status);
  }

  /** A name of exactly 100 characters passes; 101 characters is reported as
      too long on the name field and nowhere else. */
  lemma NameLengthBoundary(c: Candidate, isEmail: EmailSyntax)
    requires c.name.Str?
    ensures |c.name.s| == 100 ==> IssuesOf(ClientViolations(c, Create, isEmail), NameField) == []
    ensures |c.name.s| == 101 ==> IssuesOf(ClientViolations(c, Create, isEmail), NameField) == [TooBig]
    ensures |c.name.s| == 101 && CreateAcceptable(c.(name := Str(c.name.s[..100])), isEmail) ==>
              ClientViolations(c, Create, isEmail) == [Violation(NameField, TooBig)]
  {
    FieldsAreIndependent(c, Create, isEmail, NameField);
    var n := ClientFieldIssues(c, NameField, Create, isEmail);
    assert |c.name.s| == 100 ==> n == [];
    assert |c.name.s| == 101 ==> n == [TooBig];
    if |c.name.s| == 101 && CreateAcceptable(c.(name := Str(c.name.s[..100])), isEmail) {
      OnlyNameFails(c, Create, isEmail);
      assert Tag(NameField, n) == [Violation(NameField, TooBig)];
    }
  }

  /** When every field but the name passes, the violations are the name's. */
  lemma OnlyNameFails(c: Candidate, mode: Mode, isEmail: EmailSyntax)
    requires ClientFieldIssues(c, EmailField, mode, isEmail) == []
    requires ClientFieldIssues(c, PhoneField, mode, isEmail) == []
    requires ClientFieldIssues(c, CompanyField, mode, isEmail) == []
    requires ClientFieldIssues(c, AddressField, mode, isEmail) == []
    requires ClientFieldIssues(c, StatusField, mode, isEmail) == []
    ensures ClientViolations(c, mode, isEmail) == Tag(NameField, ClientFieldIssues(c, NameField, mode, isEmail))
  {
    var a := Tag(NameField, ClientFieldIssues(c, NameField, mode, isEmail));
    assert ClientViolations(c, mode, isEmail) == a + [] + [] + [] + [] + [];
  }

  /** `{name: "", email: "bad"}` reports both fields: the empty name and the
      malformed email. */
  lemma EmptyNameAndBadEmail(isEmail: EmailSyntax)
    requires !isEmail("bad")
    ensures ValidateCreate(Candidate(Str(""), Str("bad"), Missing, Missing, Missing, Missing), isEmail)
            == Rejected([Violation(NameField, TooSmall), Violation(EmailField, BadEmail)])
  {
    var c := Candidate(Str(""), Str("bad"), Missing, Missing, Missing, Missing);
    assert ClientFieldIssues(c, NameField, Create, isEmail) == [TooSmall];
    assert ClientFieldIssues(c, EmailField, Create, isEmail) == [BadEmail];
    assert !CreateAcceptable(c, isEmail);
  }
}
