/** Listing capsules page by page: the page is cut first, by the database, and filtered by visibility after. */
module CapsuleListing {
  import opened Wrappers
  import opened RegistryModels
  import opened CapsuleRepository
  import opened CapsuleRegistry

  /** A row of the table, with the columns that only listing looks at. */
  datatype Row = Row(capsule: Capsule, description: string, updatedAt: int)

  /** What the caller asks for; `matches` is the text search, which the database evaluates. */
  datatype Query = Query(status: Option<Status>, matches: Row -> bool, updatedSince: Option<int>)

  datatype Page = Page(items: seq<Row>, totalItems: nat, totalPages: nat)

  predicate Selected(row: Row, tenant: string, q: Query) {
    && row.capsule.tenant == tenant
    && q.matches(row)
    && row.capsule.status == (if q.status.Some? then q.status.value else Active)
    && (q.updatedSince.Some? ==> row.updatedAt >= q.updatedSince.value)
  }

  predicate Visible(ctx: Context, row: Row) {
    CanAccess(ctx, row.capsule)
  }

  function Filter(rows: seq<Row>, keep: Row -> bool): seq<Row> {
    if rows == [] then []
    else Filter(rows[..|rows| - 1], keep) + if keep(rows[|rows| - 1]) then [rows[|rows| - 1]] else []
  }

  /** `OFFSET offset LIMIT size` */
  function Slice(rows: seq<Row>, offset: nat, size: nat): seq<Row> {
    if offset >= |rows| then []
    else if offset + size >= |rows| then rows[offset..]
    else rows[offset..offset + size]
  }

  function TotalPages(total: nat, size: nat): nat
    requires size >= 1
  {
    (total + size - 1) / size
  }

  /** The complete answer, for one stable ordering of the table. */
  function FullList(table: seq<Row>, ctx: Context, q: Query): seq<Row> {
    Filter(Filter(table, c => Selected(c, ctx.tenant, q)), c => Visible(ctx, c))
  }

  /** Which items page number `page` shows. */
  function ItemsOf(table: seq<Row>, ctx: Context, q: Query, page: nat, size: nat): seq<Row>
    requires page >= 1
  {
    Filter(Slice(Filter(table, c => Selected(c, ctx.tenant, q)), (page - 1) * size, size), c => Visible(ctx, c))
  }

  lemma NonNegativeOffset(page: int, size: int)
    requires page >= 1 && size >= 1
    ensures (page - 1) * size >= 0
  {
  }

  method ListCapsules(table: seq<Row>, ctx: Context, q: Query, page: int, size: int) returns (o: Outcome<Page>)
    ensures ReadCapsules !in ctx.permissions ==> o == Err(Forbidden)
    ensures ReadCapsules in ctx.permissions && (page < 1 || size < 1) ==> o == Err(Crash)
    ensures ReadCapsules in ctx.permissions && page >= 1 && size >= 1 ==>
              var items := ItemsOf(table, ctx, q, page, size);
              o == Ok(Page(items, |items|, TotalPages(|Filter(table, c => Selected(c, ctx.tenant, q))|, size)))
  {
    if ReadCapsules !in ctx.permissions {
      return Err(Forbidden);
    }
    if page < 1 || size < 1 {
      return Err(Crash);
    }
    var rows := Filter(table, c => Selected(c, ctx.tenant, q));
    NonNegativeOffset(page, size);
    var capsules := Slice(rows, (page - 1) * size, size);
    var items: seq<Row> := [];
    for i := 0 to |capsules|
      invariant items == Filter(capsules[..i], c => Visible(ctx, c))
    {
      assert capsules[..i + 1][..i] == capsules[..i];
      if Visible(ctx, capsules[i]) {
        items := items + [capsules[i]];
      }
    }
    assert capsules[..|capsules|] == capsules;
    return Ok(Page(items, |items|, TotalPages(|rows|, size)));
  }

  lemma {:induction false} FilterConcat(a: seq<Row>, b: seq<Row>, keep: Row -> bool)
    ensures Filter(a + b, keep) == Filter(a, keep) + Filter(b, keep)
  {
    if b == [] {
      assert a + b == a;
    } else {
      assert (a + b)[..|a + b| - 1] == a + b[..|b| - 1];
      FilterConcat(a, b[..|b| - 1], keep);
    }
  }

  /** The items of pages 1 to `n`, one page after the other. */
  function Pages(table: seq<Row>, ctx: Context, q: Query, size: nat, n: nat): seq<Row> {
    if n == 0 then [] else Pages(table, ctx, q, size, n - 1) + ItemsOf(table, ctx, q, n, size)
  }

  function Least(a: nat, b: nat): nat {
    if a <= b then a else b
  }

  lemma SliceContinues(rows: seq<Row>, offset: nat, size: nat)
    ensures rows[..Least(offset + size, |rows|)] == rows[..Least(offset, |rows|)] + Slice(rows, offset, size)
  {
  }

  lemma NextOffset(n: nat, size: nat)
    requires n >= 1
    ensures n * size == (n - 1) * size + size
  {
  }

  /** One more page continues the filtered prefix. */
  lemma OneMorePage(rows: seq<Row>, keep: Row -> bool, size: nat, n: nat)
    requires n >= 1
    ensures Filter(rows[..Least(n * size, |rows|)], keep) ==
            Filter(rows[..Least((n - 1) * size, |rows|)], keep) + Filter(Slice(rows, (n - 1) * size, size), keep)
  {
    NextOffset(n, size);
    SliceContinues(rows, (n - 1) * size, size);
    FilterConcat(rows[..Least((n - 1) * size, |rows|)], Slice(rows, (n - 1) * size, size), keep);
  }

  /** The first `n` pages show the visible ones among the first n * size selected rows. */
  lemma {:induction false} PagesArePrefix(table: seq<Row>, ctx: Context, q: Query, size: nat, n: nat)
    requires size >= 1
    ensures var rows := Filter(table, c => Selected(c, ctx.tenant, q));
      Pages(table, ctx, q, size, n) == Filter(rows[..Least(n * size, |rows|)], c => Visible(ctx, c))
  {
    if n > 0 {
      PagesArePrefix(table, ctx, q, size, n - 1);
      OneMorePage(Filter(table, c => Selected(c, ctx.tenant, q)), c => Visible(ctx, c), size, n);
    }
  }

  lemma PagesCoverTotal(total: nat, size: nat)
    requires size >= 1
    ensures TotalPages(total, size) * size >= total
  {
    var sum := total + size - 1;
    assert sum == sum / size * size + sum % size;
  }

  /** Nothing lost, repeated or reordered: pages 1 to the reported number of pages make up exactly the full visible list. */
  lemma PagesMakeUpFullList(table: seq<Row>, ctx: Context, q: Query, size: nat)
    requires size >= 1
    ensures var total := |Filter(table, c => Selected(c, ctx.tenant, q))|;
      Pages(table, ctx, q, size, TotalPages(total, size)) == FullList(table, ctx, q)
  {
    var rows := Filter(table, c => Selected(c, ctx.tenant, q));
    PagesArePrefix(table, ctx, q, size, TotalPages(|rows|, size));
    PagesCoverTotal(|rows|, size);
    assert rows[..|rows|] == rows;
  }

  lemma MoreIsMore(a: nat, b: nat, size: nat)
    requires a <= b
    ensures a * size <= b * size
  {
  }

  /** Every page after the last reported one is empty. */
  lemma LaterPagesAreEmpty(table: seq<Row>, ctx: Context, q: Query, page: nat, size: nat)
    requires size >= 1
    requires page > TotalPages(|Filter(table, c => Selected(c, ctx.tenant, q))|, size)
    ensures ItemsOf(table, ctx, q, page, size) == []
  {
    var rows := Filter(table, c => Selected(c, ctx.tenant, q));
    PagesCoverTotal(|rows|, size);
    MoreIsMore(TotalPages(|rows|, size), page - 1, size);
  }

  function SumOfTotals(table: seq<Row>, ctx: Context, q: Query, size: nat, n: nat): nat {
    if n == 0 then 0 else SumOfTotals(table, ctx, q, size, n - 1) + |ItemsOf(table, ctx, q, n, size)|
  }

  /** The reported `total_items` is only the page's own; it is their sum over all pages that counts the visible capsules. */
  lemma {:induction false} TotalsAddUp(table: seq<Row>, ctx: Context, q: Query, size: nat, n: nat)
    ensures SumOfTotals(table, ctx, q, size, n) == |Pages(table, ctx, q, size, n)|
  {
    if n > 0 {
      TotalsAddUp(table, ctx, q, size, n - 1);
    }
  }

  lemma {:induction false} FilterCounts(rows: seq<Row>, keep: Row -> bool)
    ensures forall c :: multiset(Filter(rows, keep))[c] == if keep(c) then multiset(rows)[c] else 0
  {
    if rows != [] {
      FilterCounts(rows[..|rows| - 1], keep);
      assert rows == rows[..|rows| - 1] + [rows[|rows| - 1]];
    }
  }

  /** The row answers the query and the caller may see it: a row of the tenant, in the status asked for or active, found by the search, updated recently enough, and public in the tenant, or the caller's own, or any for an admin. */
  predicate Wanted(row: Row, ctx: Context, q: Query) {
    && row.capsule.tenant == ctx.tenant && q.matches(row)
    && row.capsule.status == (match q.status case Some(status) => status case None => Active)
    && (match q.updatedSince case Some(since) => since <= row.updatedAt case None => true)
    && (row.capsule.visibility == Org || row.capsule.owner == ctx.user || ctx.admin)
  }

  /** The full list has exactly the rows that are wanted, as often as the table has them. */
  lemma FullListIsExact(table: seq<Row>, ctx: Context, q: Query)
    ensures forall row :: multiset(FullList(table, ctx, q))[row] == if Wanted(row, ctx, q) then multiset(table)[row] else 0
  {
    FilterCounts(table, c => Selected(c, ctx.tenant, q));
    FilterCounts(Filter(table, c => Selected(c, ctx.tenant, q)), c => Visible(ctx, c));
  }

  /** The reported number of pages is the least that has room for every selected row. */
  lemma PagesAreJustEnough(total: nat, size: nat)
    requires size >= 1
    ensures var pages := TotalPages(total, size);
      total <= pages * size && (pages > 0 ==> (pages - 1) * size < total)
  {
    var sum := total + size - 1;
    assert sum == sum / size * size + sum % size;
    assert TotalPages(total, size) == sum / size;
    if sum / size > 0 {
      assert (sum / size - 1) * size == sum / size * size - size;
    }
  }

  /** Page `page` shows what the caller may see of the selected rows number (page - 1) * size up to, not including, page * size. */
  lemma PageShows(table: seq<Row>, ctx: Context, q: Query, page: nat, size: nat)
    requires page >= 1 && size >= 1
    ensures var rows := Filter(table, c => Selected(c, ctx.tenant, q));
      var from, to := Least((page - 1) * size, |rows|), Least(page * size, |rows|);
      && from <= to && to - from <= size
      && ItemsOf(table, ctx, q, page, size) == Filter(rows[from..to], c => Visible(ctx, c))
  {
    NextOffset(page, size);
    var rows := Filter(table, c => Selected(c, ctx.tenant, q));
    var from, to := Least((page - 1) * size, |rows|), Least(page * size, |rows|);
    assert Slice(rows, (page - 1) * size, size) == rows[from..to];
  }
}
