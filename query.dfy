/** How the list operation turns its filters into a query descriptor, and what
    a descriptor means: a fixed newest-first ordering, a conjunction of
    predicates over a row, and a limit/offset window. The descriptor is
    evaluated by the storage engine; its reference meaning in terms of the
    filters is given alongside (`Admits`, `Page`). */
module ClientQuery {
  import opened Options
  import opened Records

  datatype Column = NameColumn | EmailColumn | CompanyColumn

  /** `Ilike` is a case-insensitive substring test on one text column,
      `StatusEq` an equality on the status column, `AnyOf` a disjunction. */
  datatype Predicate =
    | Ilike(column: Column, text: string)
    | StatusEq(status: Status)
    | AnyOf(alternatives: seq<Predicate>)

  /** The only ordering the list operation asks for: `created_at` descending. */
  datatype Ordering = NewestFirst

  /** `FirstN(n)` keeps the first n rows; `Span(from, to)` keeps rows from..to inclusive. */
  datatype Window = Everything | FirstN(count: int) | Span(from: int, to: int)

  datatype Query = Query(order: Ordering, predicates: seq<Predicate>, window: Window)

  /** The window size used when an offset is given without a limit. */
  const DefaultPageSize: int := 10

  function Min(a: int, b: int): int { if a <= b then a else b }

  // ---------------------------------------------------------------- text matching

  /** Case folding of ASCII letters. */
  function Lower(c: char): char {
    if 'A' <= c <= 'Z' then (c as int + 32) as char else c
  }

  function Fold(s: string): (r: string)
    ensures |r| == |s| && forall i :: 0 <= i < |s| ==> r[i] == Lower(s[i])
  {
    if s == [] then [] else [Lower(s[0])] + Fold(s[1..])
  }

  /** `needle` occurs in `hay` at position `i`, ignoring the case of letters. */
  predicate OccursAt(hay: string, needle: string, i: int) {
    0 <= i <= |hay| - |needle| && Fold(hay)[i..i + |needle|] == Fold(needle)
  }

  /** `needle` occurs in `hay`, ignoring the case of letters. */
  predicate ContainsText(hay: string, needle: string) {
    exists i | 0 <= i <= |hay| - |needle| :: OccursAt(hay, needle, i)
  }

  function ColumnValue(row: Client, col: Column): Option<string> {
    match col
    case NameColumn => Some(row.name)
    case EmailColumn => Some(row.email)
    case CompanyColumn => row.company
  }

  /** Whether a row satisfies a predicate. A NULL column matches no pattern. */
  predicate Holds(p: Predicate, row: Client)
    decreases p
  {
    match p
    case Ilike(col, text) => ColumnValue(row, col).Some? && ContainsText(ColumnValue(row, col).value, text)
    case StatusEq(st) => row.status == st
    case AnyOf(alts) => exists i :: 0 <= i < |alts| && Holds(alts[i], row)
  }

  predicate HoldsAll(ps: seq<Predicate>, row: Client) {
    forall i :: 0 <= i < |ps| ==> Holds(ps[i], row)
  }

  /** Why the storage engine refuses a window: a negative offset or row
      count, or an offset past the exact count of the matching rows. */
  datatype Refusal = NegativeWindow | RangeNotSatisfiable

  /** What the storage engine does with a window over the ordered matching rows. */
  datatype Cut<T> = Kept(rows: seq<T>) | Refused(reason: Refusal)

  /** The rows a window keeps out of all the matching rows `s`. A window that
      starts past the last matching row is refused, because the query asks
      for an exact count; one that starts exactly at the end keeps nothing. */
  function Slice<T>(s: seq<T>, w: Window): (r: Cut<T>)
    ensures r.Kept? ==> |r.rows| <= |s|
    ensures r == Refused(NegativeWindow) <==>
              (w.FirstN? && w.count < 0) || (w.Span? && (w.from < 0 || w.to + 1 < w.from))
    ensures r == Refused(RangeNotSatisfiable) <==> w.Span? && 0 <= w.from <= w.to + 1 && |s| < w.from
    ensures r.Kept? && w.Span? ==> r.rows == s[w.from..Min(w.to + 1, |s|)]
  {
    match w
    case Everything => Kept(s)
    case FirstN(n) => if n < 0 then Refused(NegativeWindow) else Kept(s[..Min(n, |s|)])
    case Span(from, to) =>
      if from < 0 || to + 1 < from then Refused(NegativeWindow)
      else if from > |s| then Refused(RangeNotSatisfiable)
      else Kept(s[from..Min(to + 1, |s|)])
  }

  lemma HoldsAllSnoc(ps: seq<Predicate>, p: Predicate, row: Client)
    ensures HoldsAll(ps + [p], row) <==> HoldsAll(ps, row) && Holds(p, row)
  {
    if HoldsAll(ps, row) && Holds(p, row) {
      forall i | 0 <= i < |ps + [p]| ensures Holds((ps + [p])[i], row) {
        if i < |ps| { assert (ps + [p])[i] == ps[i]; }
      }
    }
    if HoldsAll(ps + [p], row) {
      assert Holds((ps + [p])[|ps|], row);
      forall i | 0 <= i < |ps| ensures Holds(ps[i], row) {
        assert (ps + [p])[i] == ps[i];
      }
    }
  }

  // ---------------------------------------------------------------- newest-first ordering

  /** Row `x` is listed before row `y`: it was created later, or at the same
      instant with a smaller id. The tie-break is the engine's choice; the
      list operation promises only the `created_at` order. */
  predicate Before(t: map<Id, Client>, x: Id, y: Id) {
    x in t && y in t && (t[x].createdAt > t[y].createdAt || (t[x].createdAt == t[y].createdAt && x < y))
  }

  /** `m` is listed first among `ids`. */
  predicate Leads(t: map<Id, Client>, m: Id, ids: set<Id>) {
    m in ids && forall y :: y in ids && y != m ==> Before(t, m, y)
  }

  lemma BeforeTransitive(t: map<Id, Client>, x: Id, y: Id, z: Id)
    requires Before(t, x, y) && Before(t, y, z)
    ensures Before(t, x, z)
  {
  }

  lemma {:induction false} LeaderExists(t: map<Id, Client>, ids: set<Id>)
    requires ids != {} && ids <= t.Keys
    ensures exists m :: Leads(t, m, ids)
    decreases |ids|
  {
    var x :| x in ids;
    if ids == {x} {
      assert Leads(t, x, ids);
    } else {
      var rest := ids - {x};
      LeaderExists(t, rest);
      var m :| Leads(t, m, rest);
      if Before(t, x, m) {
        forall y | y in ids && y != x ensures Before(t, x, y) {
          if y != m { BeforeTransitive(t, x, m, y); }
        }
        assert Leads(t, x, ids);
      } else {
        assert Leads(t, m, ids);
      }
    }
  }

  /** The row listed first among `ids`. */
  function Leader(t: map<Id, Client>, ids: set<Id>): (m: Id)
    requires ids != {} && ids <= t.Keys
    ensures Leads(t, m, ids)
  {
    LeaderExists(t, ids);
    var m :| Leads(t, m, ids);
    m
  }

  /** The engine's newest-first listing of the rows `ids`: each id once, and
      every row listed before the rows created earlier. */
  function Rank(t: map<Id, Client>, ids: set<Id>): (r: seq<Id>)
    requires ids <= t.Keys
    ensures |r| == |ids|
    ensures forall i :: 0 <= i < |r| ==> r[i] in ids
    ensures forall k :: k in ids ==> k in r
    ensures forall i, j :: 0 <= i < j < |r| ==> Before(t, r[i], r[j])
    decreases |ids|
  {
    if ids == {} then []
    else
      var m := Leader(t, ids);
      [m] + Rank(t, ids - {m})
  }

  /** The rows stored under a list of ids. */
  function Rows(t: map<Id, Client>, ks: seq<Id>): (r: seq<Client>)
    requires forall i :: 0 <= i < |ks| ==> ks[i] in t
    ensures |r| == |ks| && forall i :: 0 <= i < |ks| ==> r[i] == t[ks[i]]
  {
    if ks == [] then [] else [t[ks[0]]] + Rows(t, ks[1..])
  }

  /** Rows listed newest first. */
  predicate ListedNewest(rows: seq<Client>) {
    forall i, j :: 0 <= i < j < |rows| ==> rows[i].createdAt >= rows[j].createdAt
  }

  /** The ranked rows are listed newest first. */
  lemma RankedNewestFirst(t: map<Id, Client>, ids: set<Id>)
    requires ids <= t.Keys
    ensures ListedNewest(Rows(t, Rank(t, ids)))
  {
    var r := Rank(t, ids);
    var rows := Rows(t, r);
    forall i, j | 0 <= i < j < |rows| ensures rows[i].createdAt >= rows[j].createdAt {
      assert Before(t, r[i], r[j]);
    }
  }

  // ---------------------------------------------------------------- what a filter asks for

  /** JavaScript truthiness of an optional number: present and not zero. */
  predicate Truthy(x: Option<int>) { x.Some? && x.value != 0 }

  /** A search applies when the text is present and non-empty. */
  predicate Searching(f: Filters) { f.search.Some? && f.search.value != "" }

  /** The row's name, email or company contains the text, ignoring case. */
  predicate Mentions(row: Client, text: string) {
    || ContainsText(row.name, text)
    || ContainsText(row.email, text)
    || (row.company.Some? && ContainsText(row.company.value, text))
  }

  /** The rows a filter selects before windowing. Without a status, and with
      no search text or an empty one, every row is selected. */
  predicate Admits(f: Filters, row: Client)
    ensures f.status.None? && (f.search.None? || f.search.value == "") ==> Admits(f, row)
    ensures Admits(f, row) && Searching(f) && !ContainsText(row.name, f.search.value) && !ContainsText(row.email, f.search.value)
            ==> row.company.Some?
  {
    && (Searching(f) ==> Mentions(row, f.search.value))
    && (f.status.Some? ==> row.status == f.status.value)
  }

  /** The number of rows a window of an offset query holds: the limit, or 10. */
  function PageSize(f: Filters): int {
    if Truthy(f.limit) then f.limit.value else DefaultPageSize
  }

  /** Where the window starts. */
  function Start(f: Filters): int {
    if Truthy(f.offset) then f.offset.value else 0
  }

  /** The window a filter asks for over the ordered matching rows `s`: with
      an offset, `PageSize(f)` rows from the offset on; with only a limit, the
      first `limit` rows; with neither, every row. The storage engine refuses a
      negative offset or row count, and an offset past the last matching row. */
  function Page<T>(s: seq<T>, f: Filters): (r: Cut<T>)
    ensures r.Kept? ==> |r.rows| <= |s|
    ensures r.Kept? && Truthy(f.limit) ==> |r.rows| <= f.limit.value
    ensures r.Kept? && Truthy(f.offset) && !Truthy(f.limit) ==> |r.rows| <= DefaultPageSize
    ensures r == Refused(RangeNotSatisfiable) <==> Truthy(f.offset) && 0 <= f.offset.value && 0 <= PageSize(f) && |s| < f.offset.value
  {
    if Truthy(f.offset) then
      if f.offset.value < 0 || PageSize(f) < 0 then Refused(NegativeWindow)
      else if f.offset.value > |s| then Refused(RangeNotSatisfiable)
      else Kept(s[f.offset.value..Min(f.offset.value + PageSize(f), |s|)])
    else if Truthy(f.limit) then
      if f.limit.value < 0 then Refused(NegativeWindow) else Kept(s[..Min(f.limit.value, |s|)])
    else Kept(s)
  }

  /** Builds the query descriptor for the list operation: a fixed ordering, one
      disjunctive search predicate when there is search text, one status
      equality when a status is given, and the window. The descriptor selects
      exactly the rows the filter admits and windows them exactly as the filter
      asks. */
  method BuildQuery(f: Filters) returns (q: Query)
    ensures q.order == NewestFirst
    ensures |q.predicates| == (if Searching(f) then 1 else 0) + (if f.status.Some? then 1 else 0)
    ensures forall row :: HoldsAll(q.predicates, row) <==> Admits(f, row)
    ensures forall s: seq<Client> :: Slice(s, q.window) == Page(s, f)
  {
    var query := Query(NewestFirst, [], Everything);

    if f.search.Some? && f.search.value != "" {
      var text := f.search.value;
      var search := AnyOf([Ilike(NameColumn, text), Ilike(EmailColumn, text), Ilike(CompanyColumn, text)]);
      query := query.(predicates := query.predicates + [search]);
      assert forall row :: Holds(search, row) <==> Mentions(row, text) by {
        forall row ensures Holds(search, row) <==> Mentions(row, text) {
          if Mentions(row, text) {
            if ContainsText(row.name, text) {
              assert Holds(search.alternatives[0], row);
            } else if ContainsText(row.email, text) {
              assert Holds(search.alternatives[1], row);
            } else {
              assert Holds(search.alternatives[2], row);
            }
          }
        }
      }
      forall row ensures HoldsAll(query.predicates, row) <==> Mentions(row, text) {
        HoldsAllSnoc([], search, row);
        assert [] + [search] == [search];
      }
    }

    assert forall row :: HoldsAll(query.predicates, row) <==> (Searching(f) ==> Mentions(row, f.search.value));

    if f.status.Some? {
      ghost var before := query.predicates;
      query := query.(predicates := query.predicates + [StatusEq(f.status.value)]);
      forall row ensures HoldsAll(query.predicates, row) <==> Admits(f, row) {
        HoldsAllSnoc(before, StatusEq(f.status.value), row);
      }
    }

    if f.limit.Some? && f.limit.value != 0 {
      query := query.(window := FirstN(f.limit.value));
    }

    if f.offset.Some? && f.offset.value != 0 {
      var size := if f.limit.Some? && f.limit.value != 0 then f.limit.value else DefaultPageSize;
      query := query.(window := Span(f.offset.value, f.offset.value + size - 1));
    }

    q := query;
  }

  // ---------------------------------------------------------------- window properties

  /** The window is the run of consecutive rows starting at the offset (or at
      the top), of length at most the limit (or 10 with an offset). */
  lemma PageIsRun<T>(s: seq<T>, f: Filters)
    requires Page(s, f).Kept?
    ensures var p := Page(s, f).rows;
            && 0 <= Start(f) <= |s|
            && |p| == (if Truthy(f.offset) then Min(PageSize(f), |s| - Start(f))
                       else if Truthy(f.limit) then Min(f.limit.value, |s|)
                       else |s|)
            && forall i :: 0 <= i < |p| ==> p[i] == s[Start(f) + i]
  {
  }

  /** Every windowed row comes from the ordered input, in the same relative order. */
  lemma PageKeepsOrder<T>(s: seq<T>, f: Filters, i: int, j: int)
    requires Page(s, f).Kept?
    requires 0 <= i < j < |Page(s, f).rows|
    ensures exists a, b :: 0 <= a < b < |s| && Page(s, f).rows[i] == s[a] && Page(s, f).rows[j] == s[b]
  {
    PageIsRun(s, f);
    var a, b := Start(f) + i, Start(f) + j;
    assert Page(s, f).rows[i] == s[a] && Page(s, f).rows[j] == s[b];
  }

  /** A window of rows listed newest first is itself listed newest first. */
  lemma PageKeepsNewestFirst(s: seq<Client>, f: Filters)
    requires ListedNewest(s) && Page(s, f).Kept?
    ensures ListedNewest(Page(s, f).rows)
  {
    var p := Page(s, f).rows;
    PageIsRun(s, f);
    forall i, j | 0 <= i < j < |p| ensures p[i].createdAt >= p[j].createdAt {
      assert p[i] == s[Start(f) + i] && p[j] == s[Start(f) + j];
    }
  }

  /** The engine refuses a window exactly when a value it receives is
      negative, or when the offset lies past the last matching row. A limit
      alone is never refused for the number of rows. */
  lemma PageRefused<T>(s: seq<T>, f: Filters)
    ensures Page(s, f) == Refused(NegativeWindow) <==>
              (Truthy(f.offset) && (f.offset.value < 0 || PageSize(f) < 0))
              || (!Truthy(f.offset) && Truthy(f.limit) && f.limit.value < 0)
    ensures Page(s, f) == Refused(RangeNotSatisfiable) <==>
              Truthy(f.offset) && 0 <= f.offset.value && 0 <= PageSize(f) && |s| < f.offset.value
  {
  }

  // ---------------------------------------------------------------- case-insensitive search

  lemma FoldIdempotent(s: string)
    ensures Fold(Fold(s)) == Fold(s)
  {
  }

  /** Searching is insensitive to the case of the searched text. */
  lemma {:induction false} ContainsTextIgnoresCase(hay: string, needle: string)
    ensures ContainsText(hay, needle) <==> ContainsText(hay, Fold(needle))
    ensures ContainsText(hay, needle) <==> ContainsText(Fold(hay), needle)
  {
    FoldIdempotent(needle);
    FoldIdempotent(hay);
    forall i ensures OccursAt(hay, needle, i) <==> OccursAt(hay, Fold(needle), i) {}
    forall i ensures OccursAt(hay, needle, i) <==> OccursAt(Fold(hay), needle, i) {}
  }

  /** An exact occurrence is a case-insensitive occurrence. */
  lemma {:induction false} SubstringContains(hay: string, needle: string, i: int)
    requires 0 <= i <= |hay| - |needle| && hay[i..i + |needle|] == needle
    ensures ContainsText(hay, needle)
  {
    assert Fold(hay)[i..i + |needle|] == Fold(needle) by {
      forall k | 0 <= k < |needle| ensures Fold(hay)[i..i + |needle|][k] == Fold(needle)[k] {
        assert hay[i + k] == needle[k];
      }
    }
    assert OccursAt(hay, needle, i);
  }
}
