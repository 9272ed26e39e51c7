/** The dashboard summaries a GrafanaInstance gathers once, sorts and keeps. */
module Summaries {
  import opened Results
  import opened Api
  import opened Sorting
  import opened Comprehension

  /** The search endpoint's type for a dashboard (folders have another). */
  const DashDb: string := "dash-db"

  /** The (id, uid, title) tuple kept for each dashboard. */
  datatype Summary = Summary(id: int, uid: string, title: string)

  function Project(e: SearchEntry): Summary
  {
    Summary(e.id, e.uid, e.title)
  }

  predicate IsDashboard(e: SearchEntry)
  {
    e.kind == DashDb
  }

  /** gatherDashboards' comprehension: the tuples of the dash-db entries, in answer order. */
  function Gather(entries: seq<SearchEntry>): seq<Summary>
  {
    FilterMap(IsDashboard, Project, entries)
  }

  /** The summary list holds a tuple exactly when some dash-db entry projects to it;
      entries of any other type contribute nothing. */
  lemma GatherMembers(entries: seq<SearchEntry>, s: Summary)
    ensures s in Gather(entries) <==> exists e :: e in entries && e.kind == DashDb && Project(e) == s
  {
    FilterMapMembers(IsDashboard, Project, entries, s);
  }

  /** Multiplicity is preserved: each tuple appears as often as the dash-db entries
      that project to it. */
  lemma GatherMultiplicity(entries: seq<SearchEntry>, s: Summary)
    ensures multiset(Gather(entries))[s] == CountMapped(IsDashboard, Project, entries, s)
  {
    FilterMapMultiplicity(IsDashboard, Project, entries, s);
  }

  /** Entries are taken in answer order: gathering two parts gathers each in turn. */
  lemma GatherAppend(a: seq<SearchEntry>, b: seq<SearchEntry>)
    ensures Gather(a + b) == Gather(a) + Gather(b)
  {
    FilterMapAppend(IsDashboard, Project, a, b);
  }

  /** Python's str < : lexicographic by code point, a proper prefix first. */
  predicate StrLt(a: string, b: string)
  {
    if a == [] then b != []
    else b != [] && (a[0] < b[0] || (a[0] == b[0] && StrLt(a[1..], b[1..])))
  }

  lemma {:induction false} StrLtIrreflexive(a: string)
    ensures !StrLt(a, a)
  {
    if a != [] {
      StrLtIrreflexive(a[1..]);
    }
  }

  lemma {:induction false} StrLtTransitive(a: string, b: string, c: string)
    requires StrLt(a, b) && StrLt(b, c)
    ensures StrLt(a, c)
  {
    if a != [] && a[0] == b[0] && b[0] == c[0] {
      StrLtTransitive(a[1..], b[1..], c[1..]);
    }
  }

  lemma {:induction false} StrLtTrichotomy(a: string, b: string)
    ensures a == b || StrLt(a, b) || StrLt(b, a)
  {
    if a != [] && b != [] && a[0] == b[0] {
      StrLtTrichotomy(a[1..], b[1..]);
      assert a == [a[0]] + a[1..];
      assert b == [b[0]] + b[1..];
    }
  }

  /** Python's tuple < on (id, uid, title): the first differing component decides. */
  predicate SummaryLt(x: Summary, y: Summary)
  {
    x.id < y.id
    || (x.id == y.id && (StrLt(x.uid, y.uid) || (x.uid == y.uid && StrLt(x.title, y.title))))
  }

  predicate SummaryLe(x: Summary, y: Summary)
  {
    x == y || SummaryLt(x, y)
  }

  /** Tuple order is total ... */
  lemma SummaryLeTotal(x: Summary, y: Summary)
    ensures SummaryLe(x, y) || SummaryLe(y, x)
  {
    StrLtTrichotomy(x.uid, y.uid);
    StrLtTrichotomy(x.title, y.title);
  }

  /** ... antisymmetric ... */
  lemma SummaryLeAntisymmetric(x: Summary, y: Summary)
    requires SummaryLe(x, y) && SummaryLe(y, x)
    ensures x == y
  {
    if x != y {
      assert SummaryLt(x, y) && SummaryLt(y, x);
      assert x.id == y.id;
      if x.uid != y.uid {
        assert StrLt(x.uid, y.uid) && StrLt(y.uid, x.uid);
        StrLtTransitive(x.uid, y.uid, x.uid);
        StrLtIrreflexive(x.uid);
      } else {
        StrLtIrreflexive(x.uid);
        assert StrLt(x.title, y.title) && StrLt(y.title, x.title);
        StrLtTransitive(x.title, y.title, x.title);
        StrLtIrreflexive(x.title);
      }
    }
  }

  /** ... and transitive. */
  lemma SummaryLeTransitive(x: Summary, y: Summary, z: Summary)
    requires SummaryLe(x, y) && SummaryLe(y, z)
    ensures SummaryLe(x, z)
  {
    if x != y && y != z && x.id == y.id && y.id == z.id {
      if StrLt(x.uid, y.uid) && StrLt(y.uid, z.uid) {
        StrLtTransitive(x.uid, y.uid, z.uid);
      } else if x.uid == y.uid && y.uid == z.uid {
        StrLtTransitive(x.title, y.title, z.title);
      }
    }
  }

  /** Python's tuple comparison is a total order, so sorted() applies to summaries. */
  lemma SummaryOrderIsTotal()
    ensures TotalOrder(SummaryLe)
  {
    forall x, y ensures SummaryLe(x, y) || SummaryLe(y, x) {
      SummaryLeTotal(x, y);
    }
    forall x, y | SummaryLe(x, y) && SummaryLe(y, x) ensures x == y {
      SummaryLeAntisymmetric(x, y);
    }
    forall x, y, z | SummaryLe(x, y) && SummaryLe(y, z) ensures SummaryLe(x, z) {
      SummaryLeTransitive(x, y, z);
    }
  }

  /** GrafanaInstance.__init__: a non-200 search answer ends the program (modelled as
      the error), otherwise the dash-db tuples are kept, sorted. */
  function Connect(response: SearchResponse): (r: Result<seq<Summary>, ApiError>)
    ensures r.Success? <==> response.status == StatusOk
    ensures r.Failure? ==> r.error == ApiError(response.status, response.content)
    ensures r.Success? ==>
      SortedBy(SummaryLe, r.value) && multiset(r.value) == multiset(Gather(response.entries))
  {
    if response.status != StatusOk then Failure(ApiError(response.status, response.content))
    else
      SummaryOrderIsTotal();
      Success(Sort(SummaryLe, Gather(response.entries)))
  }

  /** Whatever algorithm sorts them, the cached list is the one Connect builds. */
  lemma CachedListIsDetermined(response: SearchResponse, cached: seq<Summary>)
    requires response.status == StatusOk
    requires SortedBy(SummaryLe, cached) && multiset(cached) == multiset(Gather(response.entries))
    ensures Connect(response) == Success(cached)
  {
    SummaryOrderIsTotal();
    SortedUnique(SummaryLe, Connect(response).value, cached);
  }
}
