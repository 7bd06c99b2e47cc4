/**
 * The blog store (src/stores/blogStore.ts): how `fetchPosts` resolves its
 * parameters into filters and a row range, the page count it stores, and the
 * de-duplicated category and tag lists.  Query results are parameters.
 */
module BlogStore {
  import opened Wrappers
  import Collections

  datatype PostStatus = Draft | Published | Archived

  /** A fetched post; only its identity matters to the store logic. */
  datatype Post = Post(id: string, slug: string)

  /** The optional `fetchPosts` parameters; `None` is an omitted (undefined) field. */
  datatype FetchParams = FetchParams(
    page: Option<int>, limit: Option<int>, category: Option<string>, tag: Option<string>,
    status: Option<PostStatus>, featured: Option<bool>, search: Option<string>)

  /** The parameters after destructuring with defaults. */
  datatype Resolved = Resolved(
    page: int, limit: int, category: Option<string>, tag: Option<string>,
    status: PostStatus, featured: Option<bool>, search: Option<string>)

  const DefaultPage := 1
  const DefaultLimit := 10

  /**
   * Destructuring defaults: an omitted page is 1, an omitted limit 10 and an omitted
   * status 'published'; supplied values are kept, even 0.  Omitting the whole object
   * behaves like passing `{}`.
   */
  function Resolve(params: Option<FetchParams>): (r: Resolved)
    ensures params.None? ==> r.page == 1 && r.limit == 10 && r.status == Published
    ensures params.None? ==> r.category.None? && r.tag.None? && r.featured.None? && r.search.None?
    ensures params.Some? && params.value.page.None? ==> r.page == 1
    ensures params.Some? && params.value.page.Some? ==> r.page == params.value.page.value
    ensures params.Some? && params.value.limit.None? ==> r.limit == 10
    ensures params.Some? && params.value.limit.Some? ==> r.limit == params.value.limit.value
    ensures params.Some? && params.value.status.None? ==> r.status == Published
    ensures params.Some? && params.value.status.Some? ==> r.status == params.value.status.value
  {
    var p := params.GetOr(FetchParams(None, None, None, None, None, None, None));
    Resolved(p.page.GetOr(DefaultPage), p.limit.GetOr(DefaultLimit), p.category, p.tag,
             p.status.GetOr(Published), p.featured, p.search)
  }

  /** One filter `fetchPosts` adds to the query. */
  datatype Filter = StatusIs(status: PostStatus) | CategoryIs(category: string) | FeaturedIs(featured: bool)
                  | HasTag(tag: string) | TitleOrContentMatches(search: string)

  /** JavaScript truthiness of an optional string: present and non-empty. */
  predicate Truthy(s: Option<string>) {
    s.Some? && s.value != ""
  }

  function FilterIf(c: bool, f: Filter): seq<Filter> {
    if c then [f] else []
  }

  /**
   * The filters in the order they are applied: the status (always truthy once
   * defaulted), then category, featured, tag and search when given; the empty
   * string counts as not given except for `featured`, compared with undefined.
   */
  function Filters(r: Resolved): (fs: seq<Filter>)
    ensures |fs| >= 1 && fs[0] == StatusIs(r.status)
    ensures CategoryIs(r.category.GetOr("")) in fs <==> Truthy(r.category)
    ensures (exists b :: FeaturedIs(b) in fs) <==> r.featured.Some?
    ensures r.featured.Some? ==> FeaturedIs(r.featured.value) in fs
    ensures HasTag(r.tag.GetOr("")) in fs <==> Truthy(r.tag)
    ensures TitleOrContentMatches(r.search.GetOr("")) in fs <==> Truthy(r.search)
    ensures |fs| == 1 + (if Truthy(r.category) then 1 else 0) + (if r.featured.Some? then 1 else 0)
                      + (if Truthy(r.tag) then 1 else 0) + (if Truthy(r.search) then 1 else 0)
  {
    var fs := [StatusIs(r.status)]
      + FilterIf(Truthy(r.category), CategoryIs(r.category.GetOr("")))
      + FilterIf(r.featured.Some?, FeaturedIs(r.featured.GetOr(false)))
      + FilterIf(Truthy(r.tag), HasTag(r.tag.GetOr("")))
      + FilterIf(Truthy(r.search), TitleOrContentMatches(r.search.GetOr("")));
    assert r.featured.Some? ==> FeaturedIs(r.featured.value) in fs;
    fs
  }

  // ---------------------------------------------------------------- pagination

  /** First row index of a page (inclusive). */
  function RangeFrom(page: int, limit: int): int {
    (page - 1) * limit
  }

  /** Last row index of a page (inclusive). */
  function RangeTo(page: int, limit: int): int {
    RangeFrom(page, limit) + limit - 1
  }

  /** The inclusive range of a page holds exactly `limit` rows. */
  lemma RangeSpan(page: int, limit: int)
    ensures RangeTo(page, limit) - RangeFrom(page, limit) + 1 == limit
  {
  }

  /** Consecutive pages are contiguous and do not overlap. */
  lemma PagesContiguous(page: int, limit: int)
    ensures RangeTo(page, limit) + 1 == RangeFrom(page + 1, limit)
  {
    calc {
      RangeTo(page, limit) + 1;
      (page - 1) * limit + limit;
      { assert (page - 1) * limit + limit == page * limit; }
      page * limit;
    }
  }

  /** Page `p` (from 1) starts where the `p - 1` full pages before it end. */
  lemma {:induction false} PageStartsAfterEarlierPages(page: nat, limit: int)
    requires page >= 1
    ensures RangeFrom(page, limit) == (if page == 1 then 0 else RangeTo(page - 1, limit) + 1)
  {
    if page > 1 {
      PagesContiguous(page - 1, limit);
    }
  }

  /**
   * `Math.ceil(total / limit)` for a non-zero divisor; the result for divisor 0 is
   * `Infinity` or `NaN` and is represented by `None` in `TotalPages`.
   */
  function CeilDiv(total: int, limit: int): (r: int)
    requires limit != 0
    ensures limit > 0 ==> r * limit >= total && (r - 1) * limit < total
    ensures limit < 0 ==> r * limit <= total && (r - 1) * limit > total
  {
    if limit > 0 then
      var q := (-total) / limit;
      var m := (-total) % limit;
      assert -total == q * limit + m && 0 <= m < limit;
      assert (-q) * limit == total + m;
      assert (-q - 1) * limit == total + m - limit;
      -q
    else
      var q := total / (-limit);
      var m := total % (-limit);
      assert total == q * (-limit) + m && 0 <= m < -limit;
      assert (-q) * limit == total - m;
      assert (-q - 1) * limit == total - m - limit;
      -q
  }

  /** `Math.ceil((count || 0) / limit)`: a missing count is 0; a zero limit has no finite page count. */
  function TotalPages(count: Option<int>, limit: int): (r: Option<int>)
    ensures r.None? <==> limit == 0
    ensures r.Some? && limit > 0 ==> r.value * limit >= count.GetOr(0) && (r.value - 1) * limit < count.GetOr(0)
  {
    if limit == 0 then None else Some(CeilDiv(count.GetOr(0), limit))
  }

  /** A positive factor keeps the sign of the other one. */
  lemma MulSign(x: int, limit: int)
    requires limit > 0
    ensures x > 0 <==> x * limit > 0
    ensures x < 0 <==> x * limit < 0
  {
  }

  /** The ceiling is the least page count that covers the total. */
  lemma CeilDivIsLeast(total: int, limit: int, n: int)
    requires limit > 0 && n * limit >= total
    ensures n >= CeilDiv(total, limit)
  {
    var r := CeilDiv(total, limit);
    assert (n - r + 1) * limit == n * limit - (r - 1) * limit;
    MulSign(n - r + 1, limit);
  }

  /** No posts means no pages; at least one post means at least one page. */
  lemma TotalPagesOfEmptyAndNonEmpty(count: Option<int>, limit: int)
    requires limit > 0
    ensures count.GetOr(0) == 0 ==> TotalPages(count, limit) == Some(0)
    ensures count.GetOr(0) > 0 ==> TotalPages(count, limit).value >= 1
  {
    var t := count.GetOr(0);
    var r := TotalPages(count, limit).value;
    MulSign(r, limit);
    MulSign(r - 1, limit);
  }

  /** What `fetchPosts` stores about paging. */
  datatype Pagination = Pagination(page: int, limit: int, total: int, totalPages: Option<int>)

  /** The query `fetchPosts` sends: its filters and inclusive row range. */
  datatype PostQuery = PostQuery(filters: seq<Filter>, from: int, to: int)

  /** The outcome of the posts query: a failure with its message (absent if the thrown value is not an `Error`), or the rows and the exact count. */
  datatype QueryOutcome = QueryFailed(message: Option<string>) | QueryOk(data: Option<seq<Post>>, count: Option<int>)

  const FetchPostsFailed := "Failed to fetch posts"

  // ---------------------------------------------------------------- categories and tags

  /**
   * `[...new Set(data?.map(p => p.category) || [])]`: distinct categories in first-seen
   * order.  A row whose category is null contributes `None`, which the set keeps like
   * any other value.
   */
  function CategoryList(data: Option<seq<Option<string>>>): (r: seq<Option<string>>)
    ensures Collections.NoDuplicates(r)
    ensures data.Some? ==> forall i :: 0 <= i < |data.value| ==> data.value[i] in r
    ensures forall i :: 0 <= i < |r| ==> data.Some? && r[i] in data.value
  {
    Collections.Dedup(data.GetOr([]))
  }

  /** The tags of one row, `p.tags || []`. */
  function RowTags(tags: Option<seq<string>>): seq<string> {
    tags.GetOr([])
  }

  /** Every row's tag list, with a null list read as empty. */
  function AllTagLists(data: seq<Option<seq<string>>>): seq<seq<string>> {
    seq(|data|, i requires 0 <= i < |data| => RowTags(data[i]))
  }

  /** `[...new Set(data?.flatMap(p => p.tags || []) || [])]`: distinct tags in first-seen order. */
  function TagList(data: Option<seq<Option<seq<string>>>>): (r: seq<string>)
    ensures Collections.NoDuplicates(r)
    ensures data.Some? ==> forall i, j :: 0 <= i < |data.value| && 0 <= j < |RowTags(data.value[i])| ==>
              RowTags(data.value[i])[j] in r
    ensures forall k :: 0 <= k < |r| ==>
              data.Some? && exists i :: 0 <= i < |data.value| && r[k] in RowTags(data.value[i])
  {
    var rows := data.GetOr([]);
    var all := Collections.Flatten(AllTagLists(rows));
    assert forall i :: 0 <= i < |rows| ==> AllTagLists(rows)[i] == RowTags(rows[i]);
    var r := Collections.Dedup(all);
    assert forall k :: 0 <= k < |r| ==> r[k] in all;
    r
  }

  /**
   * First-seen order across rows: the tags of the first `k` rows come first, in the
   * order they have on their own, and the later rows only add tags after them.
   */
  lemma TagListOfPrefix(rows: seq<Option<seq<string>>>, k: nat)
    requires k <= |rows|
    ensures TagList(Some(rows[..k])) <= TagList(Some(rows))
  {
    var lists := AllTagLists(rows);
    assert AllTagLists(rows[..k]) == lists[..k];
    assert lists == lists[..k] + lists[k..];
    Collections.FlattenAppend(lists[..k], lists[k..]);
    var all := Collections.Flatten(lists);
    var head := Collections.Flatten(lists[..k]);
    assert all[..|head|] == head;
    Collections.DedupPrefix(all, |head|);
  }

  /** The store state this model keeps. */
  class BlogStore {
    var posts: seq<Post>
    var categories: seq<Option<string>>
    var tags: seq<string>
    var isLoading: bool
    var error: Option<string>
    var pagination: Pagination

    constructor ()
      ensures posts == [] && categories == [] && tags == [] && !isLoading && error.None?
      ensures pagination == Pagination(1, 10, 0, Some(0))
    {
      posts := [];
      categories := [];
      tags := [];
      isLoading := false;
      error := None;
      pagination := Pagination(1, 10, 0, Some(0));
    }

    /**
     * `fetchPosts`: returns the query it sends.  On success the rows and the paging
     * record are replaced and the error is cleared; on failure only `error` and
     * `isLoading` change.  Either way loading has finished.
     */
    method FetchPosts(params: Option<FetchParams>, outcome: QueryOutcome) returns (query: PostQuery)
      modifies this`posts, this`pagination, this`isLoading, this`error
      ensures var r := Resolve(params);
              query == PostQuery(Filters(r), RangeFrom(r.page, r.limit), RangeTo(r.page, r.limit))
      ensures !isLoading
      ensures outcome.QueryFailed? ==> posts == old(posts) && pagination == old(pagination)
      ensures outcome.QueryFailed? ==> error == Some(outcome.message.GetOr(FetchPostsFailed))
      ensures outcome.QueryOk? ==> error.None? && posts == outcome.data.GetOr([])
      ensures outcome.QueryOk? ==> var r := Resolve(params);
              pagination == Pagination(r.page, r.limit, outcome.count.GetOr(0), TotalPages(outcome.count, r.limit))
    {
      isLoading := true;
      error := None;
      var r := Resolve(params);
      var from := (r.page - 1) * r.limit;
      var to := from + r.limit - 1;
      query := PostQuery(Filters(r), from, to);
      match outcome {
        case QueryFailed(message) =>
          error := Some(message.GetOr(FetchPostsFailed));
          isLoading := false;
        case QueryOk(data, count) =>
          var total := count.GetOr(0);
          posts := data.GetOr([]);
          pagination := Pagination(r.page, r.limit, total, TotalPages(count, r.limit));
          isLoading := false;
      }
    }

    /** `fetchCategories`: replaced by the distinct categories on success, unchanged on failure. */
    method FetchCategories(failed: bool, data: Option<seq<Option<string>>>)
      modifies this`categories
      ensures failed ==> categories == old(categories)
      ensures !failed ==> categories == CategoryList(data)
    {
      if !failed {
        categories := CategoryList(data);
      }
    }

    /** `fetchTags`: replaced by the distinct tags on success, unchanged on failure. */
    method FetchTags(failed: bool, data: Option<seq<Option<seq<string>>>>)
      modifies this`tags
      ensures failed ==> tags == old(tags)
      ensures !failed ==> tags == TagList(data)
    {
      if !failed {
        tags := TagList(data);
      }
    }
  }
}
