/** Reading every domain of a tenant, page by page. */
module DomainListing {
  import opened Prelude

  type Hostname = string

  const PAGE_SIZE := 100

  /** The rows LIMIT/OFFSET selects for page `page`, counting from 1. */
  function PageOf(table: seq<Hostname>, page: nat, pageSize: nat): seq<Hostname>
    requires page >= 1
  {
    var from := Least((page - 1) * pageSize, |table|);
    table[from..Least(from + pageSize, |table|)]
  }

  /**
   One page, and the size of the whole table: carried by the rows themselves as
   a window count, and fetched by a second query only when the page is empty.
   */
  method ListPaginated(table: seq<Hostname>, page: nat, pageSize: nat) returns (items: seq<Hostname>, total: nat)
    requires page >= 1
    ensures items == PageOf(table, page, pageSize)
    ensures total == |table|
  {
    items, total := [], 0;
    var offset := (page - 1) * pageSize;
    var row := offset;
    while row < |table| && row < offset + pageSize
      invariant offset <= row
      invariant items == if row <= |table| then table[Least(offset, |table|)..row] else []
      invariant row <= |table| || row == offset
      invariant row <= offset + pageSize
      invariant total == (if items == [] then 0 else |table|)
    {
      // COUNT(*) OVER () is the same on every row.
      items, total := items + [table[row]], |table|;
      row := row + 1;
    }
    if |items| == 0 {
      total := |table|;
    }
  }

  // ---------------------------------------------------------------- all pages

  /**
   The table as the statement for page `page` sees it. Each statement reads its
   own snapshot, so other requests may add and remove rows between two pages;
   after the last entry of `tables` nothing changes any more.
   */
  function SeenBy(tables: seq<seq<Hostname>>, page: nat): seq<Hostname>
    requires tables != [] && page >= 1
  {
    tables[Least(page, |tables|) - 1]
  }

  function Page(tables: seq<seq<Hostname>>, page: nat): seq<Hostname>
    requires tables != [] && page >= 1
  {
    PageOf(SeenBy(tables, page), page, PAGE_SIZE)
  }

  /** The first `n` pages, one after the other. */
  function Read(tables: seq<seq<Hostname>>, n: nat): seq<Hostname>
    requires tables != []
  {
    if n == 0 then [] else Read(tables, n - 1) + Page(tables, n)
  }

  /** Page `page` is the last one asked for: it is empty, or the count it carries is reached. */
  predicate Stops(tables: seq<seq<Hostname>>, page: nat)
    requires tables != [] && page >= 1
  {
    Page(tables, page) == [] || |Read(tables, page)| >= |SeenBy(tables, page)|
  }

  /** Every page before `page` was read, and asked for another. */
  ghost predicate Reaches(tables: seq<seq<Hostname>>, fails: nat -> bool, page: nat)
    requires tables != []
  {
    forall p :: 1 <= p < page ==> !fails(p) && !Stops(tables, p)
  }

  ghost predicate EndsAt(tables: seq<seq<Hostname>>, fails: nat -> bool, page: nat)
    requires tables != []
  {
    page >= 1 && Reaches(tables, fails, page) && !fails(page) && Stops(tables, page)
  }

  /** How many pages it takes to read a table; an empty one still takes one. */
  function PagesNeeded(table: seq<Hostname>): nat {
    if table == [] then 1 else (|table| + PAGE_SIZE - 1) / PAGE_SIZE
  }

  datatype ListError = PageFailed(page: nat) | CommitFailed

  /**
   Reads page after page until one is empty or the count is reached, and so stops
   whatever is added or removed meanwhile; a page that cannot be read, or a
   failing commit, fails the listing.
   */
  method ListDomains(tables: seq<seq<Hostname>>, fails: nat -> bool, commits: bool)
    returns (r: Result<seq<Hostname>, ListError>)
    requires tables != []
    ensures r.Ok? ==> commits && exists n :: EndsAt(tables, fails, n) && r.value == Read(tables, n)
    ensures r.Err? && r.error.PageFailed? ==>
      r.error.page >= 1 && fails(r.error.page) && Reaches(tables, fails, r.error.page)
    ensures r.Err? && r.error.CommitFailed? ==>
      !commits && exists n :: EndsAt(tables, fails, n)
  {
    var all := [];
    var page := 1;
    while true
      invariant page >= 1 && page <= |tables| + PagesNeeded(tables[|tables| - 1])
      invariant all == Read(tables, page - 1) && Reaches(tables, fails, page)
      decreases |tables| + PagesNeeded(tables[|tables| - 1]) - page
    {
      if fails(page) { return Err(PageFailed(page)); }
      var items, total := ListPaginated(SeenBy(tables, page), page, PAGE_SIZE);
      all := all + items;
      assert all == Read(tables, page);
      if |items| == 0 || |all| >= total {
        break;
      }
      page := page + 1;
    }
    assert EndsAt(tables, fails, page);
    if !commits { return Err(CommitFailed); }
    return Ok(all);
  }

  // ---------------------------------------------------------------- which changes are seen

  /** Every page before the last one asked for is full, and leaves some of the table it was read from. */
  lemma {:induction false} EarlierPagesAreFull(tables: seq<seq<Hostname>>, fails: nat -> bool, p: nat)
    requires tables != [] && Reaches(tables, fails, p + 1)
    ensures |Read(tables, p)| == p * PAGE_SIZE
    ensures p >= 1 ==> |Page(tables, p)| == PAGE_SIZE && p * PAGE_SIZE < |SeenBy(tables, p)|
    decreases p
  {
    if p >= 1 {
      EarlierPagesAreFull(tables, fails, p - 1);
      assert !Stops(tables, p);
    }
  }

  /** `read` is how the table `final` begins, page by page. */
  ghost predicate PagesMatch(tables: seq<seq<Hostname>>, final: seq<Hostname>, n: nat)
    requires tables != []
  {
    forall p :: 1 <= p <= n ==> Page(tables, p) == PageOf(final, p, PAGE_SIZE)
  }

  lemma PrefixSplits(before: seq<Hostname>, page: seq<Hostname>, final: seq<Hostname>)
    ensures before + page <= final
      <==> before <= final && |before| + |page| <= |final| && page == final[|before|..|before| + |page|]
  {
    if before + page <= final {
      assert forall k :: 0 <= k < |before| ==> before[k] == (before + page)[k];
      assert forall k :: 0 <= k < |page| ==> page[k] == (before + page)[|before| + k];
    }
  }

  lemma FullPageMatches(page: seq<Hostname>, final: seq<Hostname>, n: nat)
    requires n >= 1 && |page| == PAGE_SIZE
    ensures page == PageOf(final, n, PAGE_SIZE)
      <==> n * PAGE_SIZE <= |final| && page == final[(n - 1) * PAGE_SIZE..n * PAGE_SIZE]
  {
  }

  lemma {:induction false} MatchingPagesAreAPrefix(
    tables: seq<seq<Hostname>>, fails: nat -> bool, final: seq<Hostname>, n: nat)
    requires tables != [] && Reaches(tables, fails, n + 1)
    ensures PagesMatch(tables, final, n) <==> Read(tables, n) <= final
    decreases n
  {
    if n >= 1 {
      MatchingPagesAreAPrefix(tables, fails, final, n - 1);
      EarlierPagesAreFull(tables, fails, n - 1);
      EarlierPagesAreFull(tables, fails, n);
      var before, page := Read(tables, n - 1), Page(tables, n);
      assert Read(tables, n) == before + page;
      PrefixSplits(before, page, final);
      FullPageMatches(page, final, n);
      PagesMatchSplits(tables, final, n);
    }
  }

  lemma PagesMatchSplits(tables: seq<seq<Hostname>>, final: seq<Hostname>, n: nat)
    requires tables != [] && n >= 1
    ensures PagesMatch(tables, final, n)
      <==> PagesMatch(tables, final, n - 1) && Page(tables, n) == PageOf(final, n, PAGE_SIZE)
  {
  }

  /** The last page completes a table that begins as the pages before it, and no other. */
  lemma LastPageCompletes(before: seq<Hostname>, final: seq<Hostname>, n: nat)
    requires n >= 1 && |before| == (n - 1) * PAGE_SIZE
    requires PageOf(final, n, PAGE_SIZE) == [] || |before + PageOf(final, n, PAGE_SIZE)| >= |final|
    ensures before + PageOf(final, n, PAGE_SIZE) == final <==> before <= final
  {
    var page := PageOf(final, n, PAGE_SIZE);
    PrefixSplits(before, page, final);
    if before <= final {
      assert page == final[|before|..Least(|before| + PAGE_SIZE, |final|)];
      assert before + page == final[..|before|] + final[|before|..] == final;
    }
  }

  /**
   Whatever is added and removed while it reads: the listing is the table as the
   last page saw it, every domain once and in order, if and only if each page
   read before is still that table's page.
   */
  lemma {:induction false} ListedWholeExactly(tables: seq<seq<Hostname>>, fails: nat -> bool, n: nat)
    requires tables != [] && EndsAt(tables, fails, n)
    ensures Read(tables, n) == SeenBy(tables, n) <==> PagesMatch(tables, SeenBy(tables, n), n - 1)
  {
    var final, before := SeenBy(tables, n), Read(tables, n - 1);
    assert PagesMatch(tables, final, n - 1) <==> before <= final by {
      MatchingPagesAreAPrefix(tables, fails, final, n - 1);
    }
    assert |before| == (n - 1) * PAGE_SIZE by {
      EarlierPagesAreFull(tables, fails, n - 1);
    }
    assert Stops(tables, n) && Read(tables, n) == before + PageOf(final, n, PAGE_SIZE);
    LastPageCompletes(before, final, n);
  }

  /** While the table stands still the listing is every domain, and no page more than needed is asked for. */
  lemma {:induction false} StillTableIsListedWhole(table: seq<Hostname>, fails: nat -> bool, n: nat)
    requires EndsAt([table], fails, n)
    ensures Read([table], n) == table && n == if table == [] then 1 else (|table| + 99) / 100
  {
    ListedWholeExactly([table], fails, n);
    EarlierPagesAreFull([table], fails, n - 1);
  }

  /** A still table that changes once, after page `k` was read. */
  function ChangedAfter(table: seq<Hostname>, changed: seq<Hostname>, k: nat): (tables: seq<seq<Hostname>>)
    ensures tables != []
  {
    seq(k, _ => table) + [changed]
  }

  lemma SeenAroundChange(table: seq<Hostname>, changed: seq<Hostname>, k: nat, p: nat)
    requires p >= 1
    ensures SeenBy(ChangedAfter(table, changed, k), p) == if p <= k then table else changed
  {
  }

  lemma {:induction false} PagesBeforeChange(
    table: seq<Hostname>, changed: seq<Hostname>, k: nat, fails: nat -> bool, m: nat)
    requires 1 <= m <= k && Reaches(ChangedAfter(table, changed, k), fails, m + 1)
    ensures m * PAGE_SIZE < |table| && Read(ChangedAfter(table, changed, k), m) == table[..m * PAGE_SIZE]
    decreases m
  {
    var tables := ChangedAfter(table, changed, k);
    EarlierPagesAreFull(tables, fails, m);
    SeenAroundChange(table, changed, k, m);
    assert Page(tables, m) == table[(m - 1) * PAGE_SIZE..m * PAGE_SIZE];
    if m > 1 {
      PagesBeforeChange(table, changed, k, fails, m - 1);
      assert table[..(m - 1) * PAGE_SIZE] + table[(m - 1) * PAGE_SIZE..m * PAGE_SIZE] == table[..m * PAGE_SIZE];
    } else {
      assert Read(tables, 0) == [];
    }
  }

  lemma {:induction false} PagesAfterChange(
    table: seq<Hostname>, changed: seq<Hostname>, k: nat, fails: nat -> bool, m: nat)
    requires 1 <= k < m && Reaches(ChangedAfter(table, changed, k), fails, m + 1)
    ensures k * PAGE_SIZE < |table| && m * PAGE_SIZE < |changed|
    ensures Read(ChangedAfter(table, changed, k), m)
      == table[..k * PAGE_SIZE] + changed[k * PAGE_SIZE..m * PAGE_SIZE]
    decreases m
  {
    var tables := ChangedAfter(table, changed, k);
    EarlierPagesAreFull(tables, fails, m);
    SeenAroundChange(table, changed, k, m);
    assert Page(tables, m) == changed[(m - 1) * PAGE_SIZE..m * PAGE_SIZE];
    if m - 1 > k {
      PagesAfterChange(table, changed, k, fails, m - 1);
      assert changed[k * PAGE_SIZE..(m - 1) * PAGE_SIZE] + changed[(m - 1) * PAGE_SIZE..m * PAGE_SIZE]
        == changed[k * PAGE_SIZE..m * PAGE_SIZE];
    } else {
      PagesBeforeChange(table, changed, k, fails, k);
    }
  }

  /** Where the last page starts, everything left of the table is read. */
  lemma LastPageIsTheRest(before: seq<Hostname>, final: seq<Hostname>, n: nat)
    requires n >= 1 && |before| == (n - 1) * PAGE_SIZE
    requires PageOf(final, n, PAGE_SIZE) == [] || |before + PageOf(final, n, PAGE_SIZE)| >= |final|
    ensures PageOf(final, n, PAGE_SIZE) == final[Least((n - 1) * PAGE_SIZE, |final|)..]
  {
  }

  /**
   One change, after page `k`: the listing goes on with the changed table where
   it was, so it is the changed table exactly when that begins as the pages read.
   */
  lemma {:induction false} ChangeIsListedExactly(
    table: seq<Hostname>, changed: seq<Hostname>, k: nat, fails: nat -> bool, n: nat)
    requires 1 <= k < n && EndsAt(ChangedAfter(table, changed, k), fails, n)
    ensures var all := Read(ChangedAfter(table, changed, k), n);
            && k * PAGE_SIZE < |table|
            && all == table[..k * PAGE_SIZE] + changed[Least(k * PAGE_SIZE, |changed|)..]
            && (all == changed <==> table[..k * PAGE_SIZE] <= changed)
  {
    var tables := ChangedAfter(table, changed, k);
    var start := Least(k * PAGE_SIZE, |changed|);
    EarlierPagesAreFull(tables, fails, n - 1);
    SeenAroundChange(table, changed, k, n);
    LastPageIsTheRest(Read(tables, n - 1), changed, n);
    PagesBeforeChange(table, changed, k, fails, k);
    var read := table[..k * PAGE_SIZE];
    assert Read(tables, n) == read + changed[start..] by {
      if n - 1 > k {
        PagesAfterChange(table, changed, k, fails, n - 1);
        RestJoins(read, changed, start, (n - 1) * PAGE_SIZE);
      }
    }
    WholeWhenPrefix(read, changed);
  }

  lemma RestJoins(read: seq<Hostname>, changed: seq<Hostname>, start: nat, mid: nat)
    requires start <= mid <= |changed|
    ensures (read + changed[start..mid]) + changed[mid..] == read + changed[start..]
  {
    assert changed[start..mid] + changed[mid..] == changed[start..];
  }

  lemma WholeWhenPrefix(read: seq<Hostname>, final: seq<Hostname>)
    ensures read + final[Least(|read|, |final|)..] == final <==> read <= final
  {
    if read <= final {
      assert read == final[..|read|];
    }
  }

  /**
   A domain added at position `pos` after page `k`: the listing has every domain
   exactly when it sorts after the pages read. Otherwise it is left out, and the
   last domain read so far is listed a second time.
   */
  lemma AddedIsListedExactly(
    table: seq<Hostname>, added: Hostname, pos: nat, k: nat, fails: nat -> bool, n: nat)
    requires pos <= |table| && added !in table
    requires var changed := table[..pos] + [added] + table[pos..];
             1 <= k < n && EndsAt(ChangedAfter(table, changed, k), fails, n)
    ensures var changed := table[..pos] + [added] + table[pos..];
            var all := Read(ChangedAfter(table, changed, k), n);
            && (all == changed <==> pos >= k * PAGE_SIZE)
            && (pos < k * PAGE_SIZE ==>
                  added !in all && |all| > k * PAGE_SIZE && all[k * PAGE_SIZE] == all[k * PAGE_SIZE - 1])
  {
    var changed := table[..pos] + [added] + table[pos..];
    ChangeIsListedExactly(table, changed, k, fails, n);
    if pos < k * PAGE_SIZE {
      assert changed[pos] == added && table[..k * PAGE_SIZE][pos] == table[pos];
      assert changed[k * PAGE_SIZE..] == table[k * PAGE_SIZE - 1..];
    } else {
      assert changed[..k * PAGE_SIZE] == table[..k * PAGE_SIZE];
    }
  }

  /**
   A domain removed from position `pos` after page `k`: likewise. Otherwise the
   first domain not yet read is never listed.
   */
  lemma RemovedIsListedExactly(table: seq<Hostname>, pos: nat, k: nat, fails: nat -> bool, n: nat)
    requires pos < |table| && Distinct(table)
    requires var changed := table[..pos] + table[pos + 1..];
             1 <= k < n && EndsAt(ChangedAfter(table, changed, k), fails, n)
    ensures var changed := table[..pos] + table[pos + 1..];
            var all := Read(ChangedAfter(table, changed, k), n);
            && (all == changed <==> pos >= k * PAGE_SIZE)
            && k * PAGE_SIZE < |table|
            && (pos < k * PAGE_SIZE ==> table[k * PAGE_SIZE] in changed && table[k * PAGE_SIZE] !in all)
  {
    var changed := table[..pos] + table[pos + 1..];
    ChangeIsListedExactly(table, changed, k, fails, n);
    if pos < k * PAGE_SIZE {
      assert changed[k * PAGE_SIZE - 1] == table[k * PAGE_SIZE];
      assert changed[k * PAGE_SIZE..] == table[k * PAGE_SIZE + 1..];
      assert changed[pos] == table[pos + 1] && table[..k * PAGE_SIZE][pos] == table[pos];
    } else {
      assert changed[..k * PAGE_SIZE] == table[..k * PAGE_SIZE];
    }
  }
}
