/**
 The software overview: titles aggregated over devices, paged, and the device list behind each row.
 Both are queries on the stored tables; PostgreSQL may pick any result its ORDER BY allows.
 */
module SoftwareRollup {
  import opened Wrappers
  import opened Sequences
  import opened Sorting
  import opened Inventory
  import Timeline

  /** What GROUP BY name, version groups by. */
  datatype Title = Title(name: string, version: Option<string>)
  /** A row of the overview; `version` is '' for a title without one. */
  datatype Aggregate = Aggregate(name: string, version: string, deviceCount: nat)
  /** A row of the device list. */
  datatype ListItem = ListItem(id: Id, kind: string, hostname: string, primaryIp: string, osName: string,
      source: string, lastSeen: int)

  datatype Query = Query(matches: string -> bool, sort: string, collation: Collation)

  /** A deterministic collation tells every two different strings apart. */
  ghost predicate Deterministic(q: Query) {
    StrictTotalOrder(q.collation.before)
  }

  // ---- The stored titles ----

  function TitleOf(r: SoftwareRow): Title {
    Title(r.name, r.version)
  }

  predicate Installed(rows: seq<SoftwareRow>, title: Title) {
    exists i :: 0 <= i < |rows| && TitleOf(rows[i]) == title
  }

  function Installers(t: Tables, title: Title): set<Id> {
    set id | id in t.software && Installed(t.software[id], title)
  }

  function Titles(t: Tables, matches: string -> bool): set<Title> {
    set id, i | id in t.software && 0 <= i < |t.software[id]| && matches(t.software[id][i].name) ::
      TitleOf(t.software[id][i])
  }

  function Row(t: Tables, title: Title): Aggregate {
    Aggregate(title.name, Text(title.version), |Installers(t, title)|)
  }

  function Rows(t: Tables, titles: seq<Title>): seq<Aggregate> {
    seq(|titles|, i requires 0 <= i < |titles| => Row(t, titles[i]))
  }

  /** Empty versions are stored as NULL, never as ''. */
  ghost predicate NoBlankVersions(t: Tables) {
    forall id, i :: id in t.software && 0 <= i < |t.software[id]| ==> t.software[id][i].version != Some("")
  }

  lemma UpsertStoresNoBlankVersion(t: Tables, u: Upsert, target: Option<Id>, after: Tables)
    requires NoBlankVersions(t) && Commits(t, u, target, after)
    ensures NoBlankVersions(after)
  {
    var id := if target.Some? then target.value else u.newId;
    forall other, i | other in after.software && 0 <= i < |after.software[other]|
      ensures after.software[other][i].version != Some("")
    {
      if u.collected && other == id {
        assert after.software[other] == SoftwareRows(u.device.software);
      } else {
        assert after.software[other] == t.software[other];
      }
    }
  }

  lemma StepStoresNoBlankVersion(t: Tables, after: Tables, sent: Upsert -> bool)
    requires NoBlankVersions(t) && Timeline.Step(t, after, sent)
    ensures NoBlankVersions(after)
  {
    if after != t {
      var u: Upsert, target: Option<Id> :| sent(u) && u.newId !in t.devices && Commits(t, u, target, after);
      UpsertStoresNoBlankVersion(t, u, target, after);
    }
  }

  /** In every state the upserts reach, versions are never blank. */
  lemma {:induction false} RunStoresNoBlankVersion(history: seq<Tables>, sent: Upsert -> bool, i: nat)
    requires Timeline.IsRun(history, sent) && i < |history|
    ensures NoBlankVersions(history[i])
  {
    if i > 0 {
      RunStoresNoBlankVersion(history, sent, i - 1);
      StepStoresNoBlankVersion(history[i - 1], history[i], sent);
    }
  }

  // ---- ORDER BY ----

  /** lower(name), name, version */
  predicate NameBefore(c: Collation, a: Title, b: Title) {
    if c.lower(a.name) != c.lower(b.name) then c.before(c.lower(a.name), c.lower(b.name))
    else if a.name != b.name then c.before(a.name, b.name)
    else NullsLast(c, a.version, b.version)
  }

  /** device_count DESC, lower(name), name, version; without the count when sorting by name. */
  predicate RowBefore(t: Tables, q: Query, a: Title, b: Title) {
    var m, n := |Installers(t, a)|, |Installers(t, b)|;
    if q.sort != "name" && m != n then m > n else NameBefore(q.collation, a, b)
  }

  ghost function OrderBy(t: Tables, q: Query): (Title, Title) -> bool {
    (a, b) => RowBefore(t, q, a, b)
  }

  lemma NameOrderIsTotal(q: Query, a: Title, b: Title)
    requires Deterministic(q)
    ensures !NameBefore(q.collation, a, a)
    ensures a != b ==> NameBefore(q.collation, a, b) || NameBefore(q.collation, b, a)
  {
  }

  lemma NameOrderIsTransitive(q: Query, a: Title, b: Title, c: Title)
    requires Deterministic(q) && NameBefore(q.collation, a, b) && NameBefore(q.collation, b, c)
    ensures NameBefore(q.collation, a, c)
  {
  }

  /** Either sort leaves no two titles tied. */
  lemma OrderIsTotal(t: Tables, q: Query)
    requires Deterministic(q)
    ensures StrictTotalOrder(OrderBy(t, q))
  {
    forall a, b {
      NameOrderIsTotal(q, a, b);
    }
    forall a, b, c | RowBefore(t, q, a, b) && RowBefore(t, q, b, c)
      ensures RowBefore(t, q, a, c)
    {
      if NameBefore(q.collation, a, b) && NameBefore(q.collation, b, c) {
        NameOrderIsTransitive(q, a, b, c);
      }
    }
  }

  /** A result of the query without LIMIT: every title once, none after one it should precede. */
  ghost predicate IsListing(t: Tables, q: Query, titles: seq<Title>) {
    && NoDuplicates(titles)
    && (forall title :: title in titles <==> title in Titles(t, q.matches))
    && (forall i, j :: 0 <= i < j < |titles| ==> !RowBefore(t, q, titles[j], titles[i]))
  }

  lemma ListingIsAscending(t: Tables, q: Query, titles: seq<Title>)
    requires Deterministic(q) && IsListing(t, q, titles)
    ensures Ascending(OrderBy(t, q), titles)
  {
    OrderIsTotal(t, q);
    forall i, j | 0 <= i < j < |titles|
      ensures OrderBy(t, q)(titles[i], titles[j])
    {
      var a, b := titles[i], titles[j];
      assert a != b && !OrderBy(t, q)(b, a);
    }
  }

  /** The database has no choice: there is exactly one listing. */
  lemma ListingIsUnique(t: Tables, q: Query, a: seq<Title>, b: seq<Title>)
    requires Deterministic(q) && IsListing(t, q, a) && IsListing(t, q, b)
    ensures a == b
  {
    OrderIsTotal(t, q);
    ListingIsAscending(t, q, a);
    ListingIsAscending(t, q, b);
    AscendingIsUnique(OrderBy(t, q), a, b);
  }

  lemma ListingExists(t: Tables, q: Query)
    requires Deterministic(q)
    ensures exists titles :: IsListing(t, q, titles)
  {
    OrderIsTotal(t, q);
    AscendingExists(OrderBy(t, q), Titles(t, q.matches));
    var titles :| Ascending(OrderBy(t, q), titles) && forall x :: x in titles <==> x in Titles(t, q.matches);
    forall i, j | 0 <= i < j < |titles|
      ensures titles[i] != titles[j] && !RowBefore(t, q, titles[j], titles[i])
    {
      var less, a, b := OrderBy(t, q), titles[i], titles[j];
      assert less(a, b) && !less(a, a);
      assert less(b, a) ==> less(a, a);
    }
    assert IsListing(t, q, titles);
  }

  /** The whole overview. */
  ghost function Rollup(t: Tables, q: Query): (titles: seq<Title>)
    requires Deterministic(q)
    ensures IsListing(t, q, titles)
  {
    ListingExists(t, q);
    var titles :| IsListing(t, q, titles);
    titles
  }

  // ---- The rows shown ----

  /** Two rows stand in ascending order of lower(name), then name, then version; those without one come last. */
  ghost predicate InNameOrder(c: Collation, a: Aggregate, b: Aggregate) {
    if c.lower(a.name) != c.lower(b.name) then c.before(c.lower(a.name), c.lower(b.name))
    else if a.name != b.name then c.before(a.name, b.name)
    else a.version != "" && (b.version == "" || c.before(a.version, b.version))
  }

  lemma ShownVersion(t: Tables, q: Query, i: nat)
    requires Deterministic(q) && NoBlankVersions(t) && i < |Rollup(t, q)|
    ensures Rollup(t, q)[i].version != Some("")
  {
    assert Rollup(t, q)[i] in Rollup(t, q);
  }

  /** The most widespread titles come first, and titles of one count, or all of them when sorted by name, are
      in the order of their names and versions. */
  lemma RowsAreOrdered(t: Tables, q: Query, i: nat, j: nat)
    requires Deterministic(q) && NoBlankVersions(t) && i < j < |Rollup(t, q)|
    ensures var a, b := Rows(t, Rollup(t, q))[i], Rows(t, Rollup(t, q))[j];
            && (q.sort != "name" ==> a.deviceCount >= b.deviceCount)
            && (q.sort == "name" || a.deviceCount == b.deviceCount ==> InNameOrder(q.collation, a, b))
  {
    ListingIsAscending(t, q, Rollup(t, q));
    ShownVersion(t, q, i);
    ShownVersion(t, q, j);
    assert OrderBy(t, q)(Rollup(t, q)[i], Rollup(t, q)[j]);
  }

  /** The overview shows a name with a version, '' for none, exactly when some device has software of that name
      and version and the filter lets the name through. */
  lemma ShownIff(t: Tables, q: Query, name: string, version: string)
    requires Deterministic(q)
    ensures (exists i :: 0 <= i < |Rollup(t, q)| && IsRowOf(Rows(t, Rollup(t, q))[i], name, version))
            <==> q.matches(name) && exists id :: HasSoftware(t, id, name, version)
  {
    var full := Rollup(t, q);
    if i :| 0 <= i < |full| && IsRowOf(Rows(t, full)[i], name, version) {
      assert full[i] in full;
      var id, k :| id in t.software && 0 <= k < |t.software[id]| && q.matches(t.software[id][k].name)
                   && TitleOf(t.software[id][k]) == full[i];
      assert IsStoredAs(t, id, k, name, version);
      assert HasSoftware(t, id, name, version);
    }
    if q.matches(name) && exists id :: HasSoftware(t, id, name, version) {
      var id :| HasSoftware(t, id, name, version);
      var k :| IsStoredAs(t, id, k, name, version);
      assert TitleOf(t.software[id][k]) in full;
      var i :| 0 <= i < |full| && full[i] == TitleOf(t.software[id][k]);
      assert IsRowOf(Rows(t, full)[i], name, version);
    }
  }

  predicate IsRowOf(row: Aggregate, name: string, version: string) {
    row.name == name && row.version == version
  }

  /** Software row `i` of the device has this name, and this version or none for ''. */
  predicate IsStoredAs(t: Tables, id: Id, i: int, name: string, version: string) {
    && id in t.software && 0 <= i < |t.software[id]| && t.software[id][i].name == name
    && (t.software[id][i].version == Some(version) || (version == "" && t.software[id][i].version == None))
  }

  ghost predicate HasSoftware(t: Tables, id: Id, name: string, version: string) {
    exists i :: IsStoredAs(t, id, i, name, version)
  }

  // ---- LIMIT and OFFSET ----

  function PageSize(limit: int): (l: nat)
    ensures 0 < l <= 1000
  {
    if limit <= 0 || limit > 1000 then 200 else limit
  }

  function Min(a: nat, b: nat): nat {
    if a <= b then a else b
  }

  function Window<T>(s: seq<T>, limit: nat, offset: nat): seq<T> {
    s[Min(offset, |s|)..Min(offset + limit, |s|)]
  }

  /** `page` is a possible answer of SoftwareRollup. */
  ghost predicate Answers(t: Tables, q: Query, limit: int, offset: int, page: seq<Aggregate>) {
    exists titles :: IsListing(t, q, titles)
                     && page == Rows(t, Window(titles, PageSize(limit), if offset < 0 then 0 else offset))
  }

  function Flatten<T>(pages: seq<seq<T>>): seq<T> {
    if pages == [] then [] else Flatten(pages[..|pages| - 1]) + pages[|pages| - 1]
  }

  /** Page `k` is asked for at offset k * PageSize. */
  ghost predicate IsPage(t: Tables, q: Query, limit: int, k: nat, page: seq<Aggregate>) {
    Answers(t, q, limit, k * PageSize(limit), page)
  }

  ghost predicate ArePages(t: Tables, q: Query, limit: int, pages: seq<seq<Aggregate>>) {
    forall k :: 0 <= k < |pages| ==> IsPage(t, q, limit, k, pages[k])
  }

  lemma PageIsWindow(t: Tables, q: Query, limit: int, offset: nat, page: seq<Aggregate>)
    requires Deterministic(q) && Answers(t, q, limit, offset, page)
    ensures page == Rows(t, Window(Rollup(t, q), PageSize(limit), offset))
  {
    var titles :| IsListing(t, q, titles) && page == Rows(t, Window(titles, PageSize(limit), offset));
    ListingIsUnique(t, q, titles, Rollup(t, q));
  }

  lemma NegativeOffset(t: Tables, q: Query, limit: int, offset: int, page: seq<Aggregate>)
    requires Answers(t, q, limit, offset, page)
    ensures Answers(t, q, limit, if offset < 0 then 0 else offset, page)
  {
  }

  /** A page holds the rows from its offset on: as many as asked for up to 1000, and else 200, or as many as
      there are. */
  lemma PageHolds(t: Tables, q: Query, limit: int, offset: int, page: seq<Aggregate>)
    requires Deterministic(q) && Answers(t, q, limit, offset, page)
    ensures var all, start := Rows(t, Rollup(t, q)), if offset < 0 then 0 else offset;
            var size, rest := if 1 <= limit <= 1000 then limit else 200, |all| - start;
            && |page| == (if rest < 0 then 0 else if rest < size then rest else size)
            && forall i :: 0 <= i < |page| ==> page[i] == all[start + i]
  {
    NegativeOffset(t, q, limit, offset, page);
    PageIsWindow(t, q, limit, if offset < 0 then 0 else offset, page);
  }

  /** The rows before offset `at` and the window there are the rows before the next offset. */
  lemma WindowExtends(t: Tables, full: seq<Title>, size: nat, at: nat)
    ensures Rows(t, full[..Min(at, |full|)]) + Rows(t, Window(full, size, at))
            == Rows(t, full[..Min(at + size, |full|)])
  {
  }

  lemma NextOffset(n: nat, size: nat)
    ensures (n + 1) * size == n * size + size
  {
  }

  /** The first n pages are the first n * PageSize rows of the overview. */
  lemma {:induction false} PagesConcatenate(t: Tables, q: Query, limit: int, pages: seq<seq<Aggregate>>)
    requires Deterministic(q) && ArePages(t, q, limit, pages)
    ensures Flatten(pages) == Rows(t, Rollup(t, q)[..Min(|pages| * PageSize(limit), |Rollup(t, q)|)])
    decreases |pages|
  {
    if pages != [] {
      var size, n := PageSize(limit), |pages| - 1;
      PagesConcatenate(t, q, limit, pages[..n]);
      assert IsPage(t, q, limit, n, pages[n]);
      PageIsWindow(t, q, limit, n * size, pages[n]);
      WindowExtends(t, Rollup(t, q), size, n * size);
      NextOffset(n, size);
    }
  }

  lemma ShortPageIsLast(t: Tables, q: Query, limit: int, n: nat, page: seq<Aggregate>)
    requires Deterministic(q) && IsPage(t, q, limit, n, page) && |page| < PageSize(limit)
    ensures Min((n + 1) * PageSize(limit), |Rollup(t, q)|) == |Rollup(t, q)|
  {
    var size := PageSize(limit);
    PageIsWindow(t, q, limit, n * size, page);
    NextOffset(n, size);
  }

  /** A reader who stops at the first short page has seen the whole overview. */
  lemma ShortPageEndsTheOverview(t: Tables, q: Query, limit: int, pages: seq<seq<Aggregate>>)
    requires Deterministic(q) && ArePages(t, q, limit, pages)
    requires pages != [] && |pages[|pages| - 1]| < PageSize(limit)
    ensures Flatten(pages) == Rows(t, Rollup(t, q))
  {
    PagesConcatenate(t, q, limit, pages);
    ShortPageIsLast(t, q, limit, |pages| - 1, pages[|pages| - 1]);
    assert Rollup(t, q)[..|Rollup(t, q)|] == Rollup(t, q);
  }

  /** No two rows of the overview show the same name and version. */
  lemma RowsAreDistinct(t: Tables, q: Query, i: nat, j: nat)
    requires Deterministic(q) && NoBlankVersions(t) && i < j < |Rollup(t, q)|
    ensures var a, b := Rows(t, Rollup(t, q))[i], Rows(t, Rollup(t, q))[j]; (a.name, a.version) != (b.name, b.version)
  {
    var full := Rollup(t, q);
    assert full[i] in full && full[j] in full;
    assert full[i].version != Some("") && full[j].version != Some("");
  }

  /** `page` is an answer to a reader who steps by the limit he asks for. */
  ghost predicate IsSteppedPage(t: Tables, q: Query, limit: nat, k: nat, page: seq<Aggregate>) {
    Answers(t, q, limit, k * limit, page)
  }

  /** Some page of that reader shows row `i` of the overview. */
  ghost predicate IsReached(t: Tables, q: Query, limit: nat, i: nat)
    requires Deterministic(q) && i < |Rollup(t, q)|
  {
    exists k: nat, page :: IsSteppedPage(t, q, limit, k, page) && Row(t, Rollup(t, q)[i]) in page
  }

  /** A limit above 1000 falls back to 200, so the rows from the 201st on, up to the limit, are skipped. */
  lemma OversizedLimitSkips(t: Tables, q: Query, limit: nat, k: nat, page: seq<Aggregate>, i: nat)
    requires Deterministic(q) && NoBlankVersions(t) && limit > 1000
    requires IsSteppedPage(t, q, limit, k, page) && i < |Rollup(t, q)| && 200 <= i < limit
    ensures Row(t, Rollup(t, q)[i]) !in page
  {
    var full := Rollup(t, q);
    PageIsWindow(t, q, limit, k * limit, page);
    assert k == 0 || k * limit >= limit;
    forall j | 0 <= j < |page|
      ensures page[j] != Row(t, full[i])
    {
      var at := k * limit + j;
      assert page[j] == Rows(t, full)[at];
      if at < i { RowsAreDistinct(t, q, at, i); } else { RowsAreDistinct(t, q, i, at); }
    }
  }

  /** The page whose window holds row `i` shows it. */
  lemma PageReaches(t: Tables, q: Query, limit: nat, k: nat, i: nat)
    requires Deterministic(q) && i < |Rollup(t, q)| && k * limit <= i < k * limit + PageSize(limit)
    ensures IsReached(t, q, limit, i)
  {
    var full := Rollup(t, q);
    var page := Rows(t, Window(full, PageSize(limit), k * limit));
    assert IsSteppedPage(t, q, limit, k, page);
    assert page[i - k * limit] == Row(t, full[i]);
  }

  /** A reader who steps by the limit he asks for sees every row exactly when the limit is one the query
      honours or the overview fits into the page that it falls back to. */
  lemma SteppingReachesAllIff(t: Tables, q: Query, limit: nat)
    requires Deterministic(q) && NoBlankVersions(t) && limit > 0
    ensures (forall i :: 0 <= i < |Rollup(t, q)| ==> IsReached(t, q, limit, i))
            <==> limit <= 1000 || |Rollup(t, q)| <= 200
  {
    if limit <= 1000 || |Rollup(t, q)| <= 200 {
      forall i | 0 <= i < |Rollup(t, q)|
        ensures IsReached(t, q, limit, i)
      {
        PageReaches(t, q, limit, if limit <= 1000 then i / limit else 0, i);
      }
    } else if IsReached(t, q, limit, 200) {
      var k: nat, page :| IsSteppedPage(t, q, limit, k, page) && Row(t, Rollup(t, q)[200]) in page;
      OversizedLimitSkips(t, q, limit, k, page, 200);
    }
  }

  lemma {:induction false} SameSize<T(!new), U(!new)>(s: seq<T>, xs: set<U>, f: T -> U)
    requires NoDuplicates(s)
    requires forall i, j :: 0 <= i < j < |s| ==> f(s[i]) != f(s[j])
    requires forall x :: x in xs <==> exists i :: 0 <= i < |s| && f(s[i]) == x
    ensures |s| == |xs|
    decreases |s|
  {
    if s == [] {
      assert xs == {};
    } else {
      var n := |s| - 1;
      assert f(s[n]) in xs;
      forall x
        ensures x in xs - {f(s[n])} <==> exists i :: 0 <= i < |s[..n]| && f(s[..n][i]) == x
      {
        if x in xs - {f(s[n])} {
          var i :| 0 <= i < |s| && f(s[i]) == x;
          assert s[..n][i] == s[i];
        }
      }
      SameSize(s[..n], xs - {f(s[n])}, f);
    }
  }

  lemma SameMembersSameLength<T(!new)>(a: seq<T>, b: seq<T>, xs: set<T>)
    requires NoDuplicates(a) && NoDuplicates(b)
    requires (forall x :: x in a <==> x in xs) && forall x :: x in b <==> x in xs
    ensures |a| == |b|
  {
    SameSize(a, xs, x => x);
    SameSize(b, xs, x => x);
  }

  // ---- A store whose overview is longer than that ----

  const PACKAGES: seq<SoftwareRow> := seq(201, i requires 0 <= i < 201 => SoftwareRow([i as char], None, None, None))

  const LONG_STORE := EMPTY_TABLES.(
    devices := map[0 := DeviceRow("linux", None, None, Some("S"), None, None, None, 0, 0, 0)],
    software := map[0 := PACKAGES])

  /** Everything, by name, in byte order. */
  const BY_NAME := Query(name => true, "name", Collation(Before, name => name))

  lemma LongOverview()
    requires Deterministic(BY_NAME)
    ensures |Rollup(LONG_STORE, BY_NAME)| == 201
  {
    var titles := seq(201, i requires 0 <= i < 201 => TitleOf(PACKAGES[i]));
    forall title
      ensures title in titles <==> title in Titles(LONG_STORE, BY_NAME.matches)
    {
      if title in titles {
        var i :| 0 <= i < 201 && titles[i] == title;
        assert TitleOf(LONG_STORE.software[0][i]) == title;
      }
      if title in Titles(LONG_STORE, BY_NAME.matches) {
        var i :| 0 <= i < 201 && TitleOf(LONG_STORE.software[0][i]) == title;
        assert titles[i] == title;
      }
    }
    forall i, j | 0 <= i < j < |titles|
      ensures titles[i] != titles[j]
    {
      assert titles[i].name[0] == i as char && titles[j].name[0] == j as char;
    }
    SameMembersSameLength(titles, Rollup(LONG_STORE, BY_NAME), Titles(LONG_STORE, BY_NAME.matches));
  }

  /** An instance: of 201 titles, a reader who steps by 1001 never sees the last. */
  lemma OversizedLimitExample()
    ensures Deterministic(BY_NAME) && Consistent(LONG_STORE) && NoBlankVersions(LONG_STORE)
    ensures |Rollup(LONG_STORE, BY_NAME)| == 201 && !IsReached(LONG_STORE, BY_NAME, 1001, 200)
  {
    BeforeIsStrictTotalOrder();
    LongOverview();
    if IsReached(LONG_STORE, BY_NAME, 1001, 200) {
      var k: nat, page :|
        IsSteppedPage(LONG_STORE, BY_NAME, 1001, k, page) && Row(LONG_STORE, Rollup(LONG_STORE, BY_NAME)[200]) in page;
      OversizedLimitSkips(LONG_STORE, BY_NAME, 1001, k, page, 200);
    }
  }

  // ---- The devices behind a row ----

  function Item(t: Tables, id: Id): ListItem
    requires id in t.devices
  {
    var r := t.devices[id];
    var osName := if id in t.os then Text(t.os[id].name) else "";
    ListItem(id, r.kind, Text(r.hostname), Text(r.primaryIp), osName, Text(r.source), r.lastSeen)
  }

  /** sw.name = name AND COALESCE(sw.version, '') = version */
  predicate Carries(rows: seq<SoftwareRow>, name: string, version: string) {
    exists i :: 0 <= i < |rows| && rows[i].name == name && Text(rows[i].version) == version
  }

  /** The joined rows, DISTINCT. */
  function Carriers(t: Tables, name: string, version: string): set<ListItem> {
    set id | id in t.software && id in t.devices && Carries(t.software[id], name, version) :: Item(t, id)
  }

  function ListSize(limit: int): (l: nat)
    ensures 0 < l <= 2000
  {
    if limit <= 0 || limit > 2000 then 500 else limit
  }

  /** `items` is a possible answer of DevicesWithSoftware: ORDER BY last_seen DESC leaves ties open. */
  ghost predicate ListsDevices(t: Tables, name: string, version: string, limit: int, items: seq<ListItem>) {
    exists full: seq<ListItem> ::
      && NoDuplicates(full)
      && (forall item :: item in full <==> item in Carriers(t, name, version))
      && (forall i, j :: 0 <= i < j < |full| ==> full[i].lastSeen >= full[j].lastSeen)
      && items == full[..Min(ListSize(limit), |full|)]
  }

  /** The item shows the device's columns; a NULL is shown as ''. */
  ghost predicate ListsColumns(t: Tables, item: ListItem) {
    && item.id in t.devices
    && var r := t.devices[item.id];
    && item.kind == r.kind && item.lastSeen == r.lastSeen
    && item.hostname == Text(r.hostname) && item.primaryIp == Text(r.primaryIp) && item.source == Text(r.source)
    && (item.id !in t.os ==> item.osName == "") && (item.id in t.os ==> item.osName == Text(t.os[item.id].name))
  }

  /** The device list shows devices that have the software, the latest seen first, with their columns, and at
      most as many as asked for up to 2000, and else 500. */
  lemma ListedDevices(t: Tables, name: string, version: string, limit: int, items: seq<ListItem>)
    requires ListsDevices(t, name, version, limit, items)
    ensures |items| <= if 1 <= limit <= 2000 then limit else 500
    ensures forall k :: 0 <= k < |items| ==> ListsColumns(t, items[k])
    ensures forall k :: 0 <= k < |items| ==> HasSoftware(t, items[k].id, name, version)
    ensures forall j, k :: 0 <= j < k < |items| ==> items[j].lastSeen >= items[k].lastSeen && items[j].id != items[k].id
  {
    var full: seq<ListItem> :|
      && NoDuplicates(full)
      && (forall item :: item in full <==> item in Carriers(t, name, version))
      && (forall i, j :: 0 <= i < j < |full| ==> full[i].lastSeen >= full[j].lastSeen)
      && items == full[..Min(ListSize(limit), |full|)];
    forall k | 0 <= k < |full|
      ensures full[k].id in t.devices && full[k] == Item(t, full[k].id)
      ensures HasSoftware(t, full[k].id, name, version)
    {
      assert full[k] in full;
      var id :| id in t.software && id in t.devices && Carries(t.software[id], name, version) && full[k] == Item(t, id);
      var rows := t.software[id];
      var i :| 0 <= i < |rows| && rows[i].name == name && Text(rows[i].version) == version;
      assert IsStoredAs(t, full[k].id, i, name, version);
    }
    forall k | 0 <= k < |items|
      ensures ListsColumns(t, items[k]) && HasSoftware(t, items[k].id, name, version)
    {
      assert items[k] == full[k];
    }
  }

  lemma CarriesIffInstalled(t: Tables, id: Id, title: Title)
    requires NoBlankVersions(t) && id in t.software && title.version != Some("")
    ensures Carries(t.software[id], title.name, Text(title.version)) <==> Installed(t.software[id], title)
  {
    var rows := t.software[id];
    if i :| 0 <= i < |rows| && rows[i].name == title.name && Text(rows[i].version) == Text(title.version) {
      assert TitleOf(rows[i]) == title;
    }
    if i :| 0 <= i < |rows| && TitleOf(rows[i]) == title {
      assert rows[i].name == title.name && Text(rows[i].version) == Text(title.version);
    }
  }

  /** The ids of all carriers are the title's installers, each once. */
  lemma ListedIds(t: Tables, title: Title, full: seq<ListItem>)
    requires Consistent(t) && NoBlankVersions(t) && title.version != Some("")
    requires NoDuplicates(full) && forall item :: item in full <==> item in Carriers(t, title.name, Text(title.version))
    ensures forall i, j :: 0 <= i < j < |full| ==> full[i].id != full[j].id
    ensures forall id :: id in Installers(t, title) <==> exists i :: 0 <= i < |full| && full[i].id == id
  {
    forall i | 0 <= i < |full|
      ensures full[i].id in Installers(t, title) && full[i].id in t.devices && full[i] == Item(t, full[i].id)
    {
      assert full[i] in full;
      CarriesIffInstalled(t, full[i].id, title);
    }
    forall id | id in Installers(t, title)
      ensures exists i :: 0 <= i < |full| && full[i].id == id
    {
      CarriesIffInstalled(t, id, title);
      assert Item(t, id) in full;
    }
  }

  lemma DeviceListOf(t: Tables, title: Title, limit: int, items: seq<ListItem>)
    requires Consistent(t) && NoBlankVersions(t) && title.version != Some("")
    requires ListsDevices(t, title.name, Text(title.version), limit, items)
    ensures var n := |Installers(t, title)|;
            && |items| == Min(n, ListSize(limit))
            && (n <= ListSize(limit)
                ==> forall id :: id in Installers(t, title) <==> exists i :: 0 <= i < |items| && items[i].id == id)
  {
    var full: seq<ListItem> :|
      && NoDuplicates(full)
      && (forall item :: item in full <==> item in Carriers(t, title.name, Text(title.version)))
      && (forall i, j :: 0 <= i < j < |full| ==> full[i].lastSeen >= full[j].lastSeen)
      && items == full[..Min(ListSize(limit), |full|)];
    ListedIds(t, title, full);
    SameSize(full, Installers(t, title), (item: ListItem) => item.id);
    assert |full| <= ListSize(limit) ==> items == full;
  }

  /** A row's device_count is the length of its device list, up to that list's limit, and a list that is
      not cut off names exactly the counted devices. */
  lemma CountIsTheDeviceList(t: Tables, q: Query, k: nat, limit: int, items: seq<ListItem>)
    requires Consistent(t) && NoBlankVersions(t) && Deterministic(q) && k < |Rollup(t, q)|
    requires var row := Rows(t, Rollup(t, q))[k]; ListsDevices(t, row.name, row.version, limit, items)
    ensures var row := Rows(t, Rollup(t, q))[k];
            var most := if 1 <= limit <= 2000 then limit else 500;
            && |items| == (if row.deviceCount < most then row.deviceCount else most)
            && (row.deviceCount <= most
                ==> forall id :: id in Installers(t, Rollup(t, q)[k]) <==>
                    exists i :: 0 <= i < |items| && items[i].id == id)
  {
    var title := Rollup(t, q)[k];
    assert title in Rollup(t, q);
    TitlesHaveVersions(t, q.matches, title);
    DeviceListOf(t, title, limit, items);
  }

  lemma TitlesHaveVersions(t: Tables, matches: string -> bool, title: Title)
    requires NoBlankVersions(t) && title in Titles(t, matches)
    ensures title.version != Some("") && Installers(t, title) != {}
  {
    var id, i :| id in t.software && 0 <= i < |t.software[id]| && TitleOf(t.software[id][i]) == title;
    assert id in Installers(t, title);
  }
}
