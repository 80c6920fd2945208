/** The novel service: composite novel reads, pagination, create defaults, junction replacement on
    update, and the discovery, author and search listings built on `getNovels`. */
module NovelService {
  import opened Wrappers
  import opened Schema
  import opened NovelOrder
  import opened NovelRepository
  import Paging
  import Tables

  /** A novel with its author, categories and tags, as the service returns it. */
  datatype NovelDetails = NovelDetails(novel: Novel, author: Option<AuthorView>, categories: seq<Category>, tags: seq<Tag>)

  /** `getNovelById`: the live novel with its author, categories and tags, or nothing. */
  function GetNovelById(state: DbState, id: Id): (r: Option<NovelDetails>)
    ensures r.Some? <==> FindById(state, id).Some?
    ensures r.Some? ==>
      && r.value.novel == FindById(state, id).value.novel
      && r.value.author == FindById(state, id).value.author
      && r.value.categories == LinkedRows(state.novelCategories, state.categories, CategoryId, id)
      && r.value.tags == LinkedRows(state.novelTags, state.tags, TagId, id)
  {
    match FindById(state, id)
    case None => None
    case Some(row) => Some(Details(state, row))
  }

  function Details(state: DbState, row: NovelRow): NovelDetails
  {
    NovelDetails(row.novel, row.author,
                 LinkedRows(state.novelCategories, state.categories, CategoryId, row.novel.id),
                 LinkedRows(state.novelTags, state.tags, TagId, row.novel.id))
  }

  /** The options of `getNovels`. */
  datatype ListOptions = ListOptions(
    page: Option<int>,
    limit: Option<int>,
    authorId: Option<Id>,
    status: Option<NovelStatus>,
    search: Option<string>,
    sortBy: Option<SortField>,
    sortOrder: Option<SortOrder>,
    categoryIds: Option<seq<Id>>,
    tagIds: Option<seq<Id>>)

  /** The pagination block of a listing. */
  datatype Pagination = Pagination(page: int, limit: int, total: int, totalPages: Paging.JsNumber, hasNext: bool, hasPrev: bool)

  datatype NovelPage = NovelPage(novels: seq<NovelDetails>, pagination: Pagination)

  function PageOf(o: ListOptions): int { if o.page.Some? then o.page.value else 1 }
  function LimitOf(o: ListOptions): int { if o.limit.Some? then o.limit.value else 20 }

  /** The options minus page and limit: what `count` receives. */
  function FiltersOf(o: ListOptions): NovelFilters
  {
    NovelFilters(o.authorId, o.status, o.search, o.categoryIds, o.tagIds)
  }

  /** The `findMany` query `getNovels` issues: the page's offset, the limit, the same filters as
      `count`, and the sort. */
  function QueryOf(o: ListOptions): (q: FindManyOptions)
    ensures q.filters == FiltersOf(o)
    ensures q.limit == Some(LimitOf(o)) && q.offset == Some((PageOf(o) - 1) * LimitOf(o))
    ensures q.sortBy == o.sortBy && q.sortOrder == o.sortOrder
  {
    var page := PageOf(o);
    var limit := LimitOf(o);
    FindManyOptions(Some(limit), Some((page - 1) * limit), FiltersOf(o), o.sortBy, o.sortOrder)
  }

  /** The pagination block: `totalPages = Math.ceil(total / limit)`, `hasNext = page < totalPages`,
      `hasPrev = page > 1`. */
  function PaginationFor(page: int, limit: int, total: int): (p: Pagination)
    ensures p.page == page && p.limit == limit && p.total == total
    ensures p.totalPages == Paging.CeilDiv(total, limit)
    ensures p.hasNext <==> Paging.Less(page, Paging.CeilDiv(total, limit))
    ensures p.hasPrev <==> page > 1
  {
    var totalPages := Paging.CeilDiv(total, limit);
    Pagination(page, limit, total, totalPages, Paging.Less(page, totalPages), page > 1)
  }

  /** With a positive limit there is a next page exactly when rows remain after this one. */
  lemma HasNextMeansMoreRows(page: int, limit: int, total: int)
    requires limit > 0
    ensures PaginationFor(page, limit, total).hasNext <==> page * limit < total
  {
    Paging.HasNextIff(page, total, limit);
  }

  function DetailsAll(state: DbState, rows: seq<NovelRow>): (r: seq<NovelDetails>)
    ensures |r| == |rows|
    ensures forall i :: 0 <= i < |r| ==> r[i] == Details(state, rows[i])
  {
    seq(|rows|, i requires 0 <= i < |rows| => Details(state, rows[i]))
  }

  /** `getNovels`: one page of matching novels with their metadata, and the pagination block over
      the count of all matching novels. */
  function GetNovels(state: DbState, o: ListOptions): (r: NovelPage)
    ensures r.pagination == PaginationFor(PageOf(o), LimitOf(o), Count(state, FiltersOf(o)))
    ensures |r.novels| == |FindMany(state, QueryOf(o))|
    ensures forall i :: 0 <= i < |r.novels| ==> r.novels[i] == Details(state, FindMany(state, QueryOf(o))[i])
  {
    var rows := FindMany(state, QueryOf(o));
    var total := Count(state, FiltersOf(o));
    NovelPage(DetailsAll(state, rows), PaginationFor(PageOf(o), LimitOf(o), total))
  }

  /** Every listed novel satisfies the filters whose matches `total` counts, and a page with a
      positive limit starting inside the result holds min(limit, total - offset) novels. */
  lemma ListingAgreesWithTotal(state: DbState, o: ListOptions)
    requires LimitOf(o) > 0 && PageOf(o) >= 1
    ensures var r := GetNovels(state, o);
      && (forall i :: 0 <= i < |r.novels| ==> Matches(state, FiltersOf(o), r.novels[i].novel))
      && var rest := r.pagination.total - (PageOf(o) - 1) * LimitOf(o);
         |r.novels| == if rest <= 0 then 0 else if rest < LimitOf(o) then rest else LimitOf(o)
  {
    var q := QueryOf(o);
    assert EffectiveOffset(q) == (PageOf(o) - 1) * LimitOf(o);
    assert EffectiveOffset(q) >= 0 by {
      Paging.MulMonotone(0, PageOf(o) - 1, LimitOf(o));
    }
    PageSize(state, q);
  }

  /** The options the discovery listings accept. */
  datatype DiscoveryOptions = DiscoveryOptions(page: Option<int>, limit: Option<int>, categoryIds: Option<seq<Id>>, tagIds: Option<seq<Id>>)

  /** The options of `getNovelsByAuthor`. */
  datatype AuthorOptions = AuthorOptions(page: Option<int>, limit: Option<int>, status: Option<NovelStatus>)

  /** The options of `searchNovels`. */
  datatype SearchOptions = SearchOptions(
    page: Option<int>,
    limit: Option<int>,
    categoryIds: Option<seq<Id>>,
    tagIds: Option<seq<Id>>,
    sortBy: Option<SortField>,
    sortOrder: Option<SortOrder>)

  /** A discovery listing: the caller's paging and lists with the sort forced to `field` descending. */
  function Discovery(d: DiscoveryOptions, field: SortField): (o: ListOptions)
    ensures o.sortBy == Some(field) && o.sortOrder == Some(Desc)
    ensures o.page == d.page && o.limit == d.limit && o.categoryIds == d.categoryIds && o.tagIds == d.tagIds
    ensures o.authorId.None? && o.status.None? && o.search.None?
  {
    ListOptions(d.page, d.limit, None, None, None, Some(field), Some(Desc), d.categoryIds, d.tagIds)
  }

  /** `getPopularNovels`: by `totalViews`, descending. */
  function GetPopularNovels(state: DbState, d: DiscoveryOptions): (r: NovelPage)
    ensures r.pagination.total == Count(state, NovelFilters(None, None, None, d.categoryIds, d.tagIds))
    ensures r.pagination.page == (if d.page.Some? then d.page.value else 1)
    ensures r.pagination.limit == (if d.limit.Some? then d.limit.value else 20)
  {
    GetNovels(state, Discovery(d, TotalViews))
  }

  /** `getTopRatedNovels`: by `averageRating`, descending. */
  function GetTopRatedNovels(state: DbState, d: DiscoveryOptions): (r: NovelPage)
    ensures r.pagination.total == Count(state, NovelFilters(None, None, None, d.categoryIds, d.tagIds))
    ensures r.pagination.page == (if d.page.Some? then d.page.value else 1)
    ensures r.pagination.limit == (if d.limit.Some? then d.limit.value else 20)
  {
    GetNovels(state, Discovery(d, AverageRating))
  }

  /** `getRecentNovels`: by `createdAt`, descending. */
  function GetRecentNovels(state: DbState, d: DiscoveryOptions): (r: NovelPage)
    ensures r.pagination.total == Count(state, NovelFilters(None, None, None, d.categoryIds, d.tagIds))
    ensures r.pagination.page == (if d.page.Some? then d.page.value else 1)
    ensures r.pagination.limit == (if d.limit.Some? then d.limit.value else 20)
  {
    GetNovels(state, Discovery(d, CreatedAt))
  }

  /** `getRecentlyUpdatedNovels`: by `updatedAt`, descending. */
  function GetRecentlyUpdatedNovels(state: DbState, d: DiscoveryOptions): (r: NovelPage)
    ensures r.pagination.total == Count(state, NovelFilters(None, None, None, d.categoryIds, d.tagIds))
    ensures r.pagination.page == (if d.page.Some? then d.page.value else 1)
    ensures r.pagination.limit == (if d.limit.Some? then d.limit.value else 20)
  {
    GetNovels(state, Discovery(d, UpdatedAt))
  }

  /** `getNovelsByAuthor`: the caller's paging and status with the author forced. */
  function ByAuthor(authorId: Id, a: AuthorOptions): (o: ListOptions)
    ensures o.authorId == Some(authorId) && o.page == a.page && o.limit == a.limit && o.status == a.status
    ensures o.search.None? && o.sortBy.None? && o.sortOrder.None? && o.categoryIds.None? && o.tagIds.None?
  {
    ListOptions(a.page, a.limit, Some(authorId), a.status, None, None, None, None, None)
  }

  function GetNovelsByAuthor(state: DbState, authorId: Id, a: AuthorOptions): (r: NovelPage)
    ensures r.pagination.total == Count(state, NovelFilters(Some(authorId), a.status, None, None, None))
    ensures r.pagination.page == (if a.page.Some? then a.page.value else 1)
    ensures r.pagination.limit == (if a.limit.Some? then a.limit.value else 20)
  {
    GetNovels(state, ByAuthor(authorId, a))
  }

  /** `searchNovels`: the caller's options with the search term forced. */
  function BySearch(term: string, s: SearchOptions): (o: ListOptions)
    ensures o.search == Some(term) && o.authorId.None? && o.status.None?
    ensures o.page == s.page && o.limit == s.limit && o.categoryIds == s.categoryIds && o.tagIds == s.tagIds
    ensures o.sortBy == s.sortBy && o.sortOrder == s.sortOrder
  {
    ListOptions(s.page, s.limit, None, None, Some(term), s.sortBy, s.sortOrder, s.categoryIds, s.tagIds)
  }

  function SearchNovels(state: DbState, term: string, s: SearchOptions): (r: NovelPage)
    ensures r.pagination.total == Count(state, NovelFilters(None, None, Some(term), s.categoryIds, s.tagIds))
    ensures r.pagination.page == (if s.page.Some? then s.page.value else 1)
    ensures r.pagination.limit == (if s.limit.Some? then s.limit.value else 20)
  {
    GetNovels(state, BySearch(term, s))
  }

  /** Two listed novels appear in the order the options ask for (by default newest first). */
  lemma ListedInOrder(state: DbState, o: ListOptions, i: int, j: int)
    requires 0 <= i < j < |GetNovels(state, o).novels|
    ensures var r := GetNovels(state, o).novels;
      Before(r[i].novel, r[j].novel, EffectiveSort(QueryOf(o)), EffectiveOrder(QueryOf(o)))
  {
    var rows := FindMany(state, QueryOf(o));
    assert GetNovels(state, o).novels[i].novel == rows[i].novel;
    assert GetNovels(state, o).novels[j].novel == rows[j].novel;
  }

  /** The popular listing is ordered by views, most viewed first. */
  lemma PopularByViews(state: DbState, d: DiscoveryOptions)
    ensures var r := GetPopularNovels(state, d).novels;
      forall i, j :: 0 <= i < j < |r| ==> r[i].novel.totalViews >= r[j].novel.totalViews
  {
    var o := Discovery(d, TotalViews);
    assert EffectiveSort(QueryOf(o)) == TotalViews && EffectiveOrder(QueryOf(o)) == Desc;
    var r := GetNovels(state, o).novels;
    assert GetPopularNovels(state, d).novels == r;
    forall i, j | 0 <= i < j < |r| ensures r[i].novel.totalViews >= r[j].novel.totalViews {
      ListedInOrder(state, o, i, j);
    }
  }

  /** The top-rated listing is ordered by rating, highest first; unrated novels come last. */
  lemma TopRatedByRating(state: DbState, d: DiscoveryOptions)
    ensures var r := GetTopRatedNovels(state, d).novels;
      forall i, j :: 0 <= i < j < |r| ==>
        SqlLeq(Key(r[j].novel, AverageRating), Key(r[i].novel, AverageRating))
  {
    var o := Discovery(d, AverageRating);
    assert EffectiveSort(QueryOf(o)) == AverageRating && EffectiveOrder(QueryOf(o)) == Desc;
    var r := GetNovels(state, o).novels;
    assert GetTopRatedNovels(state, d).novels == r;
    forall i, j | 0 <= i < j < |r| ensures SqlLeq(Key(r[j].novel, AverageRating), Key(r[i].novel, AverageRating)) {
      ListedInOrder(state, o, i, j);
    }
  }

  /** The recent listing is ordered by creation time, newest first. */
  lemma RecentByCreation(state: DbState, d: DiscoveryOptions)
    ensures var r := GetRecentNovels(state, d).novels;
      forall i, j :: 0 <= i < j < |r| ==> r[i].novel.createdAt >= r[j].novel.createdAt
  {
    var o := Discovery(d, CreatedAt);
    assert EffectiveSort(QueryOf(o)) == CreatedAt && EffectiveOrder(QueryOf(o)) == Desc;
    var r := GetNovels(state, o).novels;
    assert GetRecentNovels(state, d).novels == r;
    forall i, j | 0 <= i < j < |r| ensures r[i].novel.createdAt >= r[j].novel.createdAt {
      ListedInOrder(state, o, i, j);
    }
  }

  /** The recently-updated listing is ordered by last update, newest first. */
  lemma RecentlyUpdatedByUpdate(state: DbState, d: DiscoveryOptions)
    ensures var r := GetRecentlyUpdatedNovels(state, d).novels;
      forall i, j :: 0 <= i < j < |r| ==> r[i].novel.updatedAt >= r[j].novel.updatedAt
  {
    var o := Discovery(d, UpdatedAt);
    assert EffectiveSort(QueryOf(o)) == UpdatedAt && EffectiveOrder(QueryOf(o)) == Desc;
    var r := GetNovels(state, o).novels;
    assert GetRecentlyUpdatedNovels(state, d).novels == r;
    forall i, j | 0 <= i < j < |r| ensures r[i].novel.updatedAt >= r[j].novel.updatedAt {
      ListedInOrder(state, o, i, j);
    }
  }

  /** Every novel listed for a (non-empty) author id belongs to that author. */
  lemma AuthorListingOwnNovels(state: DbState, authorId: Id, a: AuthorOptions)
    requires authorId != ""
    ensures var r := GetNovelsByAuthor(state, authorId, a).novels;
      forall i :: 0 <= i < |r| ==> r[i].novel.authorId == authorId && r[i].novel.deletedAt.None?
  {
    var rows := FindMany(state, QueryOf(ByAuthor(authorId, a)));
    var r := GetNovelsByAuthor(state, authorId, a).novels;
    forall i | 0 <= i < |r| ensures r[i].novel.authorId == authorId && r[i].novel.deletedAt.None? {
      assert r[i].novel == rows[i].novel;
    }
  }

  /** Every novel a (non-empty) search lists has the term in its title or description. */
  lemma SearchListingContainsTerm(state: DbState, term: string, s: SearchOptions)
    requires term != ""
    ensures var r := SearchNovels(state, term, s).novels;
      forall i :: 0 <= i < |r| ==>
        Contains(r[i].novel.title, term) || (r[i].novel.description.Some? && Contains(r[i].novel.description.value, term))
  {
    var rows := FindMany(state, QueryOf(BySearch(term, s)));
    var r := SearchNovels(state, term, s).novels;
    forall i | 0 <= i < |r|
      ensures Contains(r[i].novel.title, term) || (r[i].novel.description.Some? && Contains(r[i].novel.description.value, term))
    {
      assert r[i].novel == rows[i].novel;
    }
  }

  /** The fields `createNovel` accepts. */
  datatype CreateNovelData = CreateNovelData(
    title: string,
    authorId: Id,
    description: Option<string>,
    coverImage: Option<string>,
    language: Option<string>,
    status: Option<NovelStatus>,
    categoryIds: Option<seq<Id>>,
    tagIds: Option<seq<Id>>)

  /** The fields `updateNovel` accepts: scalar columns, and lists that replace the novel's links. */
  datatype UpdateNovelData = UpdateNovelData(patch: NovelPatch, categoryIds: Option<seq<Id>>, tagIds: Option<seq<Id>>)

  /** The insert `createNovel` issues: an absent or empty language becomes 'vi' (the `||`
      default) and an absent status becomes ongoing. */
  function ToNewNovel(data: CreateNovelData): (n: NewNovel)
    ensures n.title == data.title && n.authorId == data.authorId
    ensures n.description == data.description && n.coverImage == data.coverImage
    ensures n.language.Some? && n.status.Some?
    ensures n.language.value == "vi" <==> (data.language.None? || data.language.value in {"", "vi"})
    ensures data.language.Some? && data.language.value != "" ==> n.language == data.language
    ensures n.status.value == if data.status.Some? then data.status.value else Ongoing
  {
    NewNovel(data.title, data.authorId, data.description, data.coverImage,
             Some(if data.language.Some? && data.language.value != "" then data.language.value else "vi"),
             Some(if data.status.Some? then data.status.value else Ongoing))
  }

  function ListOrEmpty(ids: Option<seq<Id>>): seq<Id>
  {
    if ids.Some? then ids.value else []
  }

  /** The junction rows after `updateNovel`: a supplied list replaces every link of the novel, an
      absent one keeps them. */
  function Replaced(links: seq<Link>, novelId: Id, ids: Option<seq<Id>>): seq<Link>
  {
    if ids.None? then links else Unlinked(links, novelId, None) + LinksFor(novelId, ids.value)
  }

  /** After the replacement the novel links exactly the supplied ids, in order, and no other novel's
      links change; without a list nothing changes. */
  lemma ReplacedLinks(links: seq<Link>, novelId: Id, ids: Option<seq<Id>>, other: Id)
    requires other != novelId
    ensures ids.Some? ==> LinksOf(Replaced(links, novelId, ids), novelId) == LinksFor(novelId, ids.value)
    ensures LinksOf(Replaced(links, novelId, ids), other) == LinksOf(links, other)
    ensures ids.None? ==> Replaced(links, novelId, ids) == links
  {
    if ids.Some? {
      ReplaceLinks(links, novelId, ids.value, other);
    }
  }

  /** The novel service over one repository. */
  class NovelService {
    const repository: NovelRepository

    constructor (repository: NovelRepository)
      ensures this.repository == repository
    {
      this.repository := repository;
    }

    /** `createNovel`: insert the novel with its defaults, link the supplied categories and tags
        (nothing for an absent or empty list), and return the novel as `getNovelById` reads it,
        which is always present. A duplicate id fails before anything is written. */
    method CreateNovel(id: Id, data: CreateNovelData, now: Timestamp) returns (r: Result<Option<NovelDetails>, DbError>)
      requires repository.database.Valid()
      modifies repository.database
      ensures repository.database.Valid()
      ensures Tables.IndexWhere(old(repository.database.novels), WithId(id)) != -1 ==>
        r == Failure(UniqueConstraintFailed) && repository.database.State() == old(repository.database.State())
      ensures Tables.IndexWhere(old(repository.database.novels), WithId(id)) == -1 ==>
        && repository.database.State() == old(repository.database.State()).(
             novels := old(repository.database.novels) + [InsertedNovel(id, ToNewNovel(data), now)],
             novelCategories := old(repository.database.novelCategories) + LinksFor(id, ListOrEmpty(data.categoryIds)),
             novelTags := old(repository.database.novelTags) + LinksFor(id, ListOrEmpty(data.tagIds)))
        && r == Success(GetNovelById(repository.database.State(), id))
        && r.value.Some? && r.value.value.novel == InsertedNovel(id, ToNewNovel(data), now)
    {
      var created := repository.Create(id, ToNewNovel(data), now);
      if created.Failure? {
        return Failure(created.error);
      }
      var categoryIds := ListOrEmpty(data.categoryIds);
      var tagIds := ListOrEmpty(data.tagIds);
      if |categoryIds| > 0 {
        repository.AddCategories(id, categoryIds);
      } else {
        assert LinksFor(id, categoryIds) == [];
      }
      if |tagIds| > 0 {
        repository.AddTags(id, tagIds);
      } else {
        assert LinksFor(id, tagIds) == [];
      }
      var state := repository.database.State();
      assert state.novels[|state.novels| - 1] == created.value;
      r := Success(GetNovelById(state, id));
      FoundAt(state.novels, |state.novels| - 1);
    }

    /** `updateNovel`: patch the live novel's columns; when there is none, stop with nothing and
        change nothing. Otherwise each supplied list replaces the novel's links, and the result is
        the novel as `getNovelById` reads it, which is present. */
    method UpdateNovel(id: Id, data: UpdateNovelData, now: Timestamp) returns (r: Option<NovelDetails>)
      requires repository.database.Valid()
      modifies repository.database
      ensures repository.database.Valid()
      ensures var k := Tables.IndexWhere(old(repository.database.novels), LiveWithId(id));
        if k == -1 then r == None && repository.database.State() == old(repository.database.State())
        else
          && repository.database.State() == old(repository.database.State()).(
               novels := old(repository.database.novels)[k := PatchedNovel(old(repository.database.novels)[k], data.patch, now)],
               novelCategories := Replaced(old(repository.database.novelCategories), id, data.categoryIds),
               novelTags := Replaced(old(repository.database.novelTags), id, data.tagIds))
          && r == GetNovelById(repository.database.State(), id)
          && r.Some? && r.value.novel == PatchedNovel(old(repository.database.novels)[k], data.patch, now)
    {
      var updated := repository.Update(id, data.patch, now);
      if updated.None? {
        return None;
      }
      ghost var k := Tables.IndexWhere(old(repository.database.novels), LiveWithId(id));
      if data.categoryIds.Some? {
        repository.RemoveCategories(id, None);
        if |data.categoryIds.value| > 0 {
          repository.AddCategories(id, data.categoryIds.value);
        } else {
          assert LinksFor(id, data.categoryIds.value) == [];
          assert Unlinked(old(repository.database.novelCategories), id, None) + [] == Unlinked(old(repository.database.novelCategories), id, None);
        }
      }
      if data.tagIds.Some? {
        repository.RemoveTags(id, None);
        if |data.tagIds.value| > 0 {
          repository.AddTags(id, data.tagIds.value);
        } else {
          assert LinksFor(id, data.tagIds.value) == [];
          assert Unlinked(old(repository.database.novelTags), id, None) + [] == Unlinked(old(repository.database.novelTags), id, None);
        }
      }
      var state := repository.database.State();
      assert state.novels[k] == updated.value;
      r := GetNovelById(state, id);
      FoundAt(state.novels, k);
    }

    /** `deleteNovel`: the repository's soft delete; afterwards `getNovelById` finds nothing. */
    method DeleteNovel(id: Id, now: Timestamp) returns (r: Option<Novel>)
      requires repository.database.Valid()
      modifies repository.database
      ensures repository.database.Valid()
      ensures (r.None?) <==> Tables.IndexWhere(old(repository.database.novels), LiveWithId(id)) == -1
      ensures var k := Tables.IndexWhere(old(repository.database.novels), LiveWithId(id));
        if k == -1 then r == None && repository.database.State() == old(repository.database.State())
        else
          && r == Some(old(repository.database.novels)[k].(deletedAt := Some(now), updatedAt := now))
          && repository.database.State() == old(repository.database.State()).(novels := old(repository.database.novels)[k := r.value])
      ensures GetNovelById(repository.database.State(), id) == None
    {
      r := repository.SoftDelete(id, now);
    }

    /** `incrementNovelViews`: one more view on the novel with this id, deleted or not. */
    method IncrementNovelViews(id: Id, now: Timestamp)
      requires repository.database.Valid()
      modifies repository.database
      ensures repository.database.Valid()
      ensures var k := Tables.IndexWhere(old(repository.database.novels), WithId(id));
        repository.database.State() == old(repository.database.State()).(novels :=
          if k == -1 then old(repository.database.novels)
          else old(repository.database.novels)[k := old(repository.database.novels)[k].(totalViews := old(repository.database.novels)[k].totalViews + 1, updatedAt := now)])
    {
      repository.IncrementViews(id, now);
    }

    /** `updateNovelChapterCount`: store the live chapter count on the novel. */
    method UpdateNovelChapterCount(novelId: Id, now: Timestamp)
      requires repository.database.Valid()
      modifies repository.database
      ensures repository.database.Valid()
      ensures var k := Tables.IndexWhere(old(repository.database.novels), WithId(novelId));
        repository.database.State() == old(repository.database.State()).(novels :=
          if k == -1 then old(repository.database.novels)
          else old(repository.database.novels)[k := old(repository.database.novels)[k].(totalChapters := LiveChapters(old(repository.database.chapters), novelId), updatedAt := now)])
    {
      repository.UpdateTotalChapters(novelId, now);
    }

    /** `updateNovelRating`: store the supplied rating on the novel. */
    method UpdateNovelRating(novelId: Id, rating: int, now: Timestamp)
      requires repository.database.Valid()
      modifies repository.database
      ensures repository.database.Valid()
      ensures var k := Tables.IndexWhere(old(repository.database.novels), WithId(novelId));
        repository.database.State() == old(repository.database.State()).(novels :=
          if k == -1 then old(repository.database.novels)
          else old(repository.database.novels)[k := old(repository.database.novels)[k].(averageRating := Some(rating), updatedAt := now)])
    {
      repository.UpdateAverageRating(novelId, rating, now);
    }
  }
}
