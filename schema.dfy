/** The rows of the tables the repositories touch, with their enums and column defaults,
    and the database that holds them. */
module Schema {
  import opened Wrappers

  /** A `timestamp` column value, supplied by the clock. */
  type Timestamp = int

  /** A text primary key. */
  type Id = string

  datatype Role = Reader | Author | Admin

  datatype NovelStatus = Ongoing | Completed | Hiatus | Dropped

  /** A `users` row; `deletedAt` is the soft-delete marker. */
  datatype User = User(
    id: Id,
    name: string,
    email: string,
    passwordHash: string,
    avatar: Option<string>,
    role: Role,
    createdAt: Timestamp,
    updatedAt: Timestamp,
    deletedAt: Option<Timestamp>)

  /** A `novels` row. `averageRating` is a nullable real column, kept here as an integer. */
  datatype Novel = Novel(
    id: Id,
    title: string,
    authorId: Id,
    description: Option<string>,
    coverImage: Option<string>,
    language: string,
    status: NovelStatus,
    averageRating: Option<int>,
    totalViews: int,
    totalChapters: int,
    publishedAt: Option<Timestamp>,
    createdAt: Timestamp,
    updatedAt: Timestamp,
    deletedAt: Option<Timestamp>)

  datatype Category = Category(id: Id, name: string, slug: string, description: Option<string>, createdAt: Timestamp)

  datatype Tag = Tag(id: Id, name: string, slug: string, createdAt: Timestamp)

  /** A `novel_categories` or `novel_tags` row: the novel and the category or tag it points to. */
  datatype Link = Link(novelId: Id, targetId: Id)

  /** The columns of a `chapters` row that the novel repository reads. */
  datatype Chapter = Chapter(id: Id, novelId: Id, deletedAt: Option<Timestamp>)

  /** A write the database refuses: a duplicate primary key or a duplicate unique email. */
  datatype DbError = UniqueConstraintFailed

  /** The contents of every table at one moment. */
  datatype DbState = DbState(
    users: seq<User>,
    novels: seq<Novel>,
    categories: seq<Category>,
    tags: seq<Tag>,
    novelCategories: seq<Link>,
    novelTags: seq<Link>,
    chapters: seq<Chapter>)

  ghost predicate UniqueUserKeys(users: seq<User>)
  {
    forall i, j :: 0 <= i < j < |users| ==> users[i].id != users[j].id && users[i].email != users[j].email
  }

  ghost predicate UniqueNovelIds(novels: seq<Novel>)
  {
    forall i, j :: 0 <= i < j < |novels| ==> novels[i].id != novels[j].id
  }

  /** The process-wide database: every table, in row order. */
  class Database {
    var users: seq<User>
    var novels: seq<Novel>
    var categories: seq<Category>
    var tags: seq<Tag>
    var novelCategories: seq<Link>
    var novelTags: seq<Link>
    var chapters: seq<Chapter>

    /** The primary-key and unique-email constraints the engine enforces. */
    ghost predicate Valid()
      reads this
    {
      UniqueUserKeys(users) && UniqueNovelIds(novels)
    }

    function State(): DbState
      reads this
    {
      DbState(users, novels, categories, tags, novelCategories, novelTags, chapters)
    }

    constructor ()
      ensures Valid()
      ensures State() == DbState([], [], [], [], [], [], [])
    {
      users, novels, categories, tags := [], [], [], [];
      novelCategories, novelTags, chapters := [], [], [];
    }
  }
}
