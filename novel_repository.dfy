/** The novel repository: filtered, sorted and paged reads that hide soft-deleted novels,
    writes on the `novels` row, and maintenance of the novel-category and novel-tag junction rows. */
module NovelRepository {
  import opened Wrappers
  import opened Schema
  import opened NovelOrder
  import Tables

  /** The author columns selected alongside a novel. */
  datatype AuthorView = AuthorView(id: Id, name: string, email: string, avatar: Option<string>, role: Role)

  /** A novel row with its left-joined author, absent when no user row has the author id. */
  datatype NovelRow = NovelRow(novel: Novel, author: Option<AuthorView>)

  /** The left join on `users.id = novels.authorId`; soft-deleted authors still join. */
  function AuthorOf(users: seq<User>, n: Novel): (a: Option<AuthorView>)
    ensures a.None? <==> forall i :: 0 <= i < |users| ==> users[i].id != n.authorId
    ensures a.Some? ==> exists i :: 0 <= i < |users| && users[i].id == n.authorId && a.value == View(users[i])
  {
    var k := Tables.IndexWhere(users, (u: User) => u.id == n.authorId);
    if k == -1 then None else Some(View(users[k]))
  }

  function View(u: User): AuthorView
  {
    AuthorView(u.id, u.name, u.email, u.avatar, u.role)
  }

  function Joined(users: seq<User>, n: Novel): NovelRow
  {
    NovelRow(n, AuthorOf(users, n))
  }

  function LiveWithId(id: Id): Novel -> bool
  {
    (n: Novel) => n.id == id && n.deletedAt.None?
  }

  /** `findById`: the live novel with this id and its author, if any. */
  function FindById(state: DbState, id: Id): (r: Option<NovelRow>)
    ensures r.None? <==> forall i :: 0 <= i < |state.novels| ==> state.novels[i].id != id || state.novels[i].deletedAt.Some?
    ensures r.Some? ==>
      && r.value.novel in state.novels && r.value.novel.id == id && r.value.novel.deletedAt.None?
      && r.value.author == AuthorOf(state.users, r.value.novel)
  {
    match Tables.FirstWhere(state.novels, LiveWithId(id))
    case None => None
    case Some(n) => Some(Joined(state.users, n))
  }

  /** The filters `findMany` and `count` both accept. */
  datatype NovelFilters = NovelFilters(
    authorId: Option<Id>,
    status: Option<NovelStatus>,
    search: Option<string>,
    categoryIds: Option<seq<Id>>,
    tagIds: Option<seq<Id>>)

  /** The options of `findMany`: paging, the filters and the sort. */
  datatype FindManyOptions = FindManyOptions(
    limit: Option<int>,
    offset: Option<int>,
    filters: NovelFilters,
    sortBy: Option<SortField>,
    sortOrder: Option<SortOrder>)

  /** A string option that JavaScript treats as truthy: present and non-empty. */
  predicate Truthy(s: Option<string>)
  {
    s.Some? && s.value != ""
  }

  /** A list option the filters use: present and non-empty. */
  predicate NonEmpty(ids: Option<seq<Id>>)
  {
    ids.Some? && |ids.value| > 0
  }

  /** `term` occurs in `text`: the `%term%` pattern as plain substring containment. */
  predicate Contains(text: string, term: string)
  {
    exists i | 0 <= i <= |text| - |term| :: OccursAt(text, term, i)
  }

  predicate OccursAt(text: string, term: string, i: int)
  {
    0 <= i <= |text| - |term| && text[i..i + |term|] == term
  }

  /** `novelId IN (SELECT novelId FROM links WHERE targetId IN ids)`. */
  predicate LinkedTo(links: seq<Link>, novelId: Id, ids: seq<Id>)
  {
    exists i | 0 <= i < |links| :: links[i].novelId == novelId && links[i].targetId in ids
  }

  /** The WHERE conjunction of `findMany` and `count`: not deleted, and every truthy filter holds. */
  predicate Matches(state: DbState, f: NovelFilters, n: Novel)
  {
    && n.deletedAt.None?
    && (Truthy(f.authorId) ==> n.authorId == f.authorId.value)
    && (f.status.Some? ==> n.status == f.status.value)
    && (Truthy(f.search) ==>
          Contains(n.title, f.search.value) || (n.description.Some? && Contains(n.description.value, f.search.value)))
    && (NonEmpty(f.categoryIds) ==> LinkedTo(state.novelCategories, n.id, f.categoryIds.value))
    && (NonEmpty(f.tagIds) ==> LinkedTo(state.novelTags, n.id, f.tagIds.value))
  }

  /** The novels satisfying the filters, in table order. */
  function Matching(state: DbState, f: NovelFilters): (r: seq<Novel>)
    ensures forall i :: 0 <= i < |r| ==> r[i] in state.novels && Matches(state, f, r[i])
    ensures forall i :: 0 <= i < |state.novels| && Matches(state, f, state.novels[i]) ==> state.novels[i] in r
  {
    Tables.Filter(state.novels, (n: Novel) => Matches(state, f, n))
  }

  /** `count`: the number of novels the filters select. */
  function Count(state: DbState, f: NovelFilters): (n: nat)
    ensures n <= |state.novels|
    ensures n == 0 <==> forall i :: 0 <= i < |state.novels| ==> !Matches(state, f, state.novels[i])
  {
    var m := Matching(state, f);
    assert m != [] ==> m[0] in m;
    |m|
  }

  /** Each novel is counted as many times as it occurs in the table if it matches, else not at all. */
  lemma CountedRows(state: DbState, f: NovelFilters, n: Novel)
    ensures multiset(Matching(state, f))[n] == if Matches(state, f, n) then multiset(state.novels)[n] else 0
  {
    Tables.FilterMultiset(state.novels, (x: Novel) => Matches(state, f, x), n);
  }

  /** Where `OFFSET offset` starts on `len` rows: a negative offset counts as zero. */
  function Start(offset: int, len: nat): (s: nat)
    ensures s <= len
    ensures 0 <= offset <= len ==> s == offset
    ensures offset < 0 ==> s == 0
    ensures offset > len ==> s == len
  {
    if offset < 0 then 0 else if offset > len then len else offset
  }

  /** `LIMIT limit OFFSET offset`: skip `offset` rows, then keep at most `limit`; a negative limit keeps all. */
  function Window<T>(rows: seq<T>, limit: int, offset: int): (r: seq<T>)
    ensures |r| == if limit < 0 || |rows| - Start(offset, |rows|) <= limit then |rows| - Start(offset, |rows|) else limit
    ensures r == rows[Start(offset, |rows|)..Start(offset, |rows|) + |r|]
  {
    var s := Start(offset, |rows|);
    if limit < 0 || |rows| - s <= limit then rows[s..] else rows[s..s + limit]
  }

  function JoinAll(users: seq<User>, novels: seq<Novel>): (r: seq<NovelRow>)
    ensures |r| == |novels|
    ensures forall i :: 0 <= i < |r| ==> r[i] == Joined(users, novels[i])
  {
    seq(|novels|, i requires 0 <= i < |novels| => Joined(users, novels[i]))
  }

  function EffectiveLimit(o: FindManyOptions): int { if o.limit.Some? then o.limit.value else 20 }
  function EffectiveOffset(o: FindManyOptions): int { if o.offset.Some? then o.offset.value else 0 }
  function EffectiveSort(o: FindManyOptions): SortField { if o.sortBy.Some? then o.sortBy.value else CreatedAt }
  function EffectiveOrder(o: FindManyOptions): SortOrder { if o.sortOrder.Some? then o.sortOrder.value else Desc }

  /** The matching novels in the requested order, before paging. */
  function Ranked(state: DbState, o: FindManyOptions): (r: seq<Novel>)
    ensures multiset(r) == multiset(Matching(state, o.filters))
    ensures Ordered(r, EffectiveSort(o), EffectiveOrder(o))
  {
    Sort(Matching(state, o.filters), EffectiveSort(o), EffectiveOrder(o))
  }

  /** The requested window of the ranked rows. */
  function Page(state: DbState, o: FindManyOptions): seq<Novel>
  {
    Window(Ranked(state, o), EffectiveLimit(o), EffectiveOffset(o))
  }

  /** Every row of the window is a stored novel that matches the filters. */
  lemma PageMatches(state: DbState, o: FindManyOptions, i: int)
    requires 0 <= i < |Page(state, o)|
    ensures Page(state, o)[i] in state.novels && Matches(state, o.filters, Page(state, o)[i])
  {
    var ranked := Ranked(state, o);
    var x := ranked[Start(EffectiveOffset(o), |ranked|) + i];
    assert Page(state, o)[i] == x;
    assert x in multiset(ranked);
    assert x in Matching(state, o.filters);
    Tables.FilterMember(state.novels, (n: Novel) => Matches(state, o.filters, n), x);
  }

  /** A window of an ordered list is ordered. */
  lemma WindowOrdered(rows: seq<Novel>, limit: int, offset: int, field: SortField, order: SortOrder)
    requires Ordered(rows, field, order)
    ensures Ordered(Window(rows, limit, offset), field, order)
  {
    var page := Window(rows, limit, offset);
    var s := Start(offset, |rows|);
    forall i, j | 0 <= i < j < |page| ensures Before(page[i], page[j], field, order) {
      assert page[i] == rows[s + i] && page[j] == rows[s + j];
    }
  }

  /** `findMany`: one page of the matching novels with their authors, ordered by the sort column
      (default `createdAt` descending), after `offset` rows (default 0) and at most `limit` (default 20). */
  function FindMany(state: DbState, o: FindManyOptions): (r: seq<NovelRow>)
    ensures EffectiveLimit(o) >= 0 ==> |r| <= EffectiveLimit(o)
    ensures forall i :: 0 <= i < |r| ==>
      && r[i].novel in state.novels
      && Matches(state, o.filters, r[i].novel)
      && r[i].author == AuthorOf(state.users, r[i].novel)
    ensures forall i, j :: 0 <= i < j < |r| ==> Before(r[i].novel, r[j].novel, EffectiveSort(o), EffectiveOrder(o))
    ensures |r| == |Page(state, o)|
    ensures forall i :: 0 <= i < |r| ==> r[i] == Joined(state.users, Page(state, o)[i])
  {
    forall i | 0 <= i < |Page(state, o)|
      ensures Page(state, o)[i] in state.novels && Matches(state, o.filters, Page(state, o)[i])
    {
      PageMatches(state, o, i);
    }
    WindowOrdered(Ranked(state, o), EffectiveLimit(o), EffectiveOffset(o), EffectiveSort(o), EffectiveOrder(o));
    JoinAll(state.users, Page(state, o))
  }

  /** A page holds `limit` rows, or fewer on the last page: min(limit, count - offset), never negative. */
  lemma PageSize(state: DbState, o: FindManyOptions)
    requires EffectiveLimit(o) >= 0 && EffectiveOffset(o) >= 0
    ensures var rest := Count(state, o.filters) - EffectiveOffset(o);
      |FindMany(state, o)| == if rest <= 0 then 0 else if rest < EffectiveLimit(o) then rest else EffectiveLimit(o)
  {
    var ranked := Ranked(state, o);
    assert |ranked| == |multiset(ranked)| == |Matching(state, o.filters)|;
  }

  /** `getNovelCategories` / `getNovelTags`: for each junction row of the novel, in row order,
      the row it points to; junction rows whose target is missing are dropped. */
  function LinkedRows<T>(links: seq<Link>, rows: seq<T>, idOf: T -> Id, novelId: Id): (r: seq<T>)
    ensures |r| <= |links|
    ensures forall x :: x in r ==> x in rows && exists i :: 0 <= i < |links| && links[i].novelId == novelId && links[i].targetId == idOf(x)
    ensures forall i :: 0 <= i < |links| && links[i].novelId == novelId && (exists j :: 0 <= j < |rows| && idOf(rows[j]) == links[i].targetId) ==>
      exists x :: x in r && idOf(x) == links[i].targetId
  {
    if |links| == 0 then []
    else
      var rest := LinkedRows(links[1..], rows, idOf, novelId);
      assert forall i :: 1 <= i < |links| ==> links[i] == links[1..][i - 1];
      var k := Tables.IndexWhere(rows, (x: T) => idOf(x) == links[0].targetId);
      if links[0].novelId == novelId && k != -1 then [rows[k]] + rest else rest
  }

  function CategoryId(c: Category): Id { c.id }
  function TagId(t: Tag): Id { t.id }

  /** The junction rows `addCategories` / `addTags` insert: one per id, in list order. */
  function LinksFor(novelId: Id, ids: seq<Id>): (r: seq<Link>)
    ensures |r| == |ids|
    ensures forall i :: 0 <= i < |r| ==> r[i] == Link(novelId, ids[i])
  {
    seq(|ids|, i requires 0 <= i < |ids| => Link(novelId, ids[i]))
  }

  /** The junction rows `removeCategories` / `removeTags` delete: every row of the novel when the
      list is absent or empty, otherwise the novel's rows pointing at a listed id. */
  predicate Unlinks(novelId: Id, ids: Option<seq<Id>>, l: Link)
  {
    l.novelId == novelId && (!NonEmpty(ids) || l.targetId in ids.value)
  }

  /** The junction rows left after a remove. */
  function Unlinked(links: seq<Link>, novelId: Id, ids: Option<seq<Id>>): (r: seq<Link>)
    ensures forall i :: 0 <= i < |r| ==> r[i] in links && !Unlinks(novelId, ids, r[i])
    ensures forall i :: 0 <= i < |links| && !Unlinks(novelId, ids, links[i]) ==> links[i] in r
  {
    Tables.Filter(links, (l: Link) => !Unlinks(novelId, ids, l))
  }

  /** The junction rows of one novel. */
  function LinksOf(links: seq<Link>, novelId: Id): seq<Link>
  {
    Tables.Filter(links, (l: Link) => l.novelId == novelId)
  }

  lemma {:induction false} FilterAppend(a: seq<Link>, b: seq<Link>, novelId: Id)
    ensures LinksOf(a + b, novelId) == LinksOf(a, novelId) + LinksOf(b, novelId)
  {
    if |a| == 0 {
      assert a + b == b;
    } else {
      FilterAppend(a[1..], b, novelId);
      assert (a + b)[0] == a[0];
      assert (a + b)[1..] == a[1..] + b;
    }
  }

  lemma {:induction false} UnlinkedOthers(links: seq<Link>, novelId: Id, other: Id)
    requires other != novelId
    ensures LinksOf(Unlinked(links, novelId, None), other) == LinksOf(links, other)
    ensures LinksOf(Unlinked(links, novelId, None), novelId) == []
  {
    if |links| > 0 {
      UnlinkedOthers(links[1..], novelId, other);
    }
  }

  lemma {:induction false} LinksForOwn(novelId: Id, ids: seq<Id>, other: Id)
    requires other != novelId
    ensures LinksOf(LinksFor(novelId, ids), novelId) == LinksFor(novelId, ids)
    ensures LinksOf(LinksFor(novelId, ids), other) == []
  {
    if |ids| > 0 {
      LinksForOwn(novelId, ids[1..], other);
      assert LinksFor(novelId, ids)[1..] == LinksFor(novelId, ids[1..]);
    }
  }

  /** Removing all of a novel's junction rows and inserting one per listed id leaves the novel
      linked to exactly the listed ids, in order, and every other novel's rows as they were. */
  lemma ReplaceLinks(links: seq<Link>, novelId: Id, ids: seq<Id>, other: Id)
    requires other != novelId
    ensures LinksOf(Unlinked(links, novelId, None) + LinksFor(novelId, ids), novelId) == LinksFor(novelId, ids)
    ensures LinksOf(Unlinked(links, novelId, None) + LinksFor(novelId, ids), other) == LinksOf(links, other)
  {
    FilterAppend(Unlinked(links, novelId, None), LinksFor(novelId, ids), novelId);
    FilterAppend(Unlinked(links, novelId, None), LinksFor(novelId, ids), other);
    UnlinkedOthers(links, novelId, other);
    LinksForOwn(novelId, ids, other);
  }

  /** The columns `create` receives; omitted columns take their defaults. */
  datatype NewNovel = NewNovel(
    title: string,
    authorId: Id,
    description: Option<string>,
    coverImage: Option<string>,
    language: Option<string>,
    status: Option<NovelStatus>)

  /** The row an insert produces: language 'vi', status ongoing, rating 0, no views, no chapters. */
  function InsertedNovel(id: Id, data: NewNovel, now: Timestamp): (n: Novel)
    ensures n.language == (if data.language.Some? then data.language.value else "vi")
    ensures n.status == (if data.status.Some? then data.status.value else Ongoing)
    ensures n.totalViews == 0 && n.totalChapters == 0 && n.deletedAt.None?
    ensures n.id == id && n.title == data.title && n.authorId == data.authorId
    ensures n.description == data.description && n.coverImage == data.coverImage
    ensures n.averageRating == Some(0) && n.publishedAt.None? && n.createdAt == now && n.updatedAt == now
  {
    Novel(id, data.title, data.authorId, data.description, data.coverImage,
          if data.language.Some? then data.language.value else "vi",
          if data.status.Some? then data.status.value else Ongoing,
          Some(0), 0, 0, None, now, now, None)
  }

  /** The scalar columns `update` may set. */
  datatype NovelPatch = NovelPatch(
    title: Option<string>,
    description: Option<string>,
    coverImage: Option<string>,
    language: Option<string>,
    status: Option<NovelStatus>)

  function PatchedNovel(n: Novel, p: NovelPatch, now: Timestamp): Novel
  {
    n.(title := if p.title.Some? then p.title.value else n.title,
       description := if p.description.Some? then p.description else n.description,
       coverImage := if p.coverImage.Some? then p.coverImage else n.coverImage,
       language := if p.language.Some? then p.language.value else n.language,
       status := if p.status.Some? then p.status.value else n.status,
       updatedAt := now)
  }

  function WithId(id: Id): Novel -> bool
  {
    (n: Novel) => n.id == id
  }

  /** The number of live chapters of a novel, the value `updateTotalChapters` stores. */
  function LiveChapters(chapters: seq<Chapter>, novelId: Id): (n: nat)
    ensures n <= |chapters|
  {
    |Tables.Filter(chapters, (c: Chapter) => c.novelId == novelId && c.deletedAt.None?)|
  }

  /** Replacing the row at `k` with one carrying the same id keeps novel ids unique. */
  lemma SameIdKeepsUnique(novels: seq<Novel>, k: int, n: Novel)
    requires UniqueNovelIds(novels) && 0 <= k < |novels| && n.id == novels[k].id
    ensures UniqueNovelIds(novels[k := n])
  {
  }

  /** With unique ids, a row's position is where the lookups find it. */
  lemma {:induction false} FoundAt(novels: seq<Novel>, k: int)
    requires UniqueNovelIds(novels) && 0 <= k < |novels|
    ensures Tables.IndexWhere(novels, WithId(novels[k].id)) == k
    ensures novels[k].deletedAt.None? ==> Tables.IndexWhere(novels, LiveWithId(novels[k].id)) == k
  {
    var r := Tables.IndexWhere(novels, WithId(novels[k].id));
    assert r != -1 ==> novels[r].id == novels[k].id;
    var q := Tables.IndexWhere(novels, LiveWithId(novels[k].id));
    assert q != -1 ==> novels[q].id == novels[k].id;
  }

  class NovelRepository {
    const database: Database

    constructor (database: Database)
      ensures this.database == database
    {
      this.database := database;
    }

    /** `create`: insert a novel row with the column defaults; a duplicate id is refused. */
    method Create(id: Id, data: NewNovel, now: Timestamp) returns (r: Result<Novel, DbError>)
      requires database.Valid()
      modifies database
      ensures database.Valid()
      ensures Tables.IndexWhere(old(database.novels), WithId(id)) != -1 ==>
        r == Failure(UniqueConstraintFailed) && database.State() == old(database.State())
      ensures Tables.IndexWhere(old(database.novels), WithId(id)) == -1 ==>
        && r == Success(InsertedNovel(id, data, now))
        && database.State() == old(database.State()).(novels := old(database.novels) + [r.value])
    {
      if Tables.IndexWhere(database.novels, WithId(id)) != -1 {
        return Failure(UniqueConstraintFailed);
      }
      var row := InsertedNovel(id, data, now);
      database.novels := database.novels + [row];
      r := Success(row);
    }

    /** `update`: patch the live novel with this id and refresh `updatedAt`; nothing otherwise. */
    method Update(id: Id, patch: NovelPatch, now: Timestamp) returns (r: Option<Novel>)
      requires database.Valid()
      modifies database
      ensures database.Valid()
      ensures var k := Tables.IndexWhere(old(database.novels), LiveWithId(id));
        if k == -1 then r == None && database.State() == old(database.State())
        else
          && r == Some(PatchedNovel(old(database.novels)[k], patch, now))
          && database.State() == old(database.State()).(novels := old(database.novels)[k := r.value])
    {
      var k := Tables.IndexWhere(database.novels, LiveWithId(id));
      if k == -1 {
        return None;
      }
      var row := PatchedNovel(database.novels[k], patch, now);
      SameIdKeepsUnique(database.novels, k, row);
      database.novels := database.novels[k := row];
      r := Some(row);
    }

    /** `softDelete`: stamp `deletedAt` on the live novel with this id; nothing otherwise, so a
        second delete returns nothing and `findById` no longer finds the novel. */
    method SoftDelete(id: Id, now: Timestamp) returns (r: Option<Novel>)
      requires database.Valid()
      modifies database
      ensures database.Valid()
      ensures var k := Tables.IndexWhere(old(database.novels), LiveWithId(id));
        if k == -1 then r == None && database.State() == old(database.State())
        else
          && r == Some(old(database.novels)[k].(deletedAt := Some(now), updatedAt := now))
          && database.State() == old(database.State()).(novels := old(database.novels)[k := r.value])
      ensures FindById(database.State(), id) == None
    {
      var k := Tables.IndexWhere(database.novels, LiveWithId(id));
      if k == -1 {
        return None;
      }
      var row := database.novels[k].(deletedAt := Some(now), updatedAt := now);
      SameIdKeepsUnique(database.novels, k, row);
      database.novels := database.novels[k := row];
      forall i | 0 <= i < |database.novels| ensures database.novels[i].id != id || database.novels[i].deletedAt.Some? {
        if i != k { assert old(database.novels)[i].id != old(database.novels)[k].id; }
      }
      r := Some(row);
    }

    /** Set one column group of the novel with this id, deleted or not. */
    method SetRow(novelId: Id, change: Novel -> Novel)
      requires database.Valid()
      requires forall n :: change(n).id == n.id
      modifies database
      ensures database.Valid()
      ensures var k := Tables.IndexWhere(old(database.novels), WithId(novelId));
        database.State() == old(database.State()).(novels := if k == -1 then old(database.novels) else old(database.novels)[k := change(old(database.novels)[k])])
    {
      var k := Tables.IndexWhere(database.novels, WithId(novelId));
      if k != -1 {
        SameIdKeepsUnique(database.novels, k, change(database.novels[k]));
        database.novels := database.novels[k := change(database.novels[k])];
      }
    }

    /** `incrementViews`: add exactly one to `totalViews` and refresh `updatedAt`; there is no
        soft-delete guard. */
    method IncrementViews(novelId: Id, now: Timestamp)
      requires database.Valid()
      modifies database
      ensures database.Valid()
      ensures var k := Tables.IndexWhere(old(database.novels), WithId(novelId));
        database.State() == old(database.State()).(novels :=
          if k == -1 then old(database.novels)
          else old(database.novels)[k := old(database.novels)[k].(totalViews := old(database.novels)[k].totalViews + 1, updatedAt := now)])
    {
      SetRow(novelId, (n: Novel) => n.(totalViews := n.totalViews + 1, updatedAt := now));
    }

    /** `updateTotalChapters`: store the number of live chapters of the novel. */
    method UpdateTotalChapters(novelId: Id, now: Timestamp)
      requires database.Valid()
      modifies database
      ensures database.Valid()
      ensures var k := Tables.IndexWhere(old(database.novels), WithId(novelId));
        database.State() == old(database.State()).(novels :=
          if k == -1 then old(database.novels)
          else old(database.novels)[k := old(database.novels)[k].(totalChapters := LiveChapters(old(database.chapters), novelId), updatedAt := now)])
    {
      var total := LiveChapters(database.chapters, novelId);
      SetRow(novelId, (n: Novel) => n.(totalChapters := total, updatedAt := now));
    }

    /** `updateAverageRating`: store the externally computed rating. */
    method UpdateAverageRating(novelId: Id, rating: int, now: Timestamp)
      requires database.Valid()
      modifies database
      ensures database.Valid()
      ensures var k := Tables.IndexWhere(old(database.novels), WithId(novelId));
        database.State() == old(database.State()).(novels :=
          if k == -1 then old(database.novels)
          else old(database.novels)[k := old(database.novels)[k].(averageRating := Some(rating), updatedAt := now)])
    {
      SetRow(novelId, (n: Novel) => n.(averageRating := Some(rating), updatedAt := now));
    }

    /** `addCategories`: one junction row per id; nothing for an empty list. */
    method AddCategories(novelId: Id, categoryIds: seq<Id>)
      requires database.Valid()
      modifies database
      ensures database.Valid()
      ensures database.State() == old(database.State()).(novelCategories := old(database.novelCategories) + LinksFor(novelId, categoryIds))
    {
      if |categoryIds| == 0 {
        assert LinksFor(novelId, categoryIds) == [];
        return;
      }
      database.novelCategories := database.novelCategories + LinksFor(novelId, categoryIds);
    }

    /** `addTags`: one junction row per id; nothing for an empty list. */
    method AddTags(novelId: Id, tagIds: seq<Id>)
      requires database.Valid()
      modifies database
      ensures database.Valid()
      ensures database.State() == old(database.State()).(novelTags := old(database.novelTags) + LinksFor(novelId, tagIds))
    {
      if |tagIds| == 0 {
        assert LinksFor(novelId, tagIds) == [];
        return;
      }
      database.novelTags := database.novelTags + LinksFor(novelId, tagIds);
    }

    /** `removeCategories`: delete the novel's rows for the listed ids, or all its rows when the
        list is absent or empty. */
    method RemoveCategories(novelId: Id, categoryIds: Option<seq<Id>>)
      requires database.Valid()
      modifies database
      ensures database.Valid()
      ensures database.State() == old(database.State()).(novelCategories := Unlinked(old(database.novelCategories), novelId, categoryIds))
    {
      database.novelCategories := Unlinked(database.novelCategories, novelId, categoryIds);
    }

    /** `removeTags`: delete the novel's rows for the listed ids, or all its rows when the list is
        absent or empty. */
    method RemoveTags(novelId: Id, tagIds: Option<seq<Id>>)
      requires database.Valid()
      modifies database
      ensures database.Valid()
      ensures database.State() == old(database.State()).(novelTags := Unlinked(old(database.novelTags), novelId, tagIds))
    {
      database.novelTags := Unlinked(database.novelTags, novelId, tagIds);
    }
  }
}
