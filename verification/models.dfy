/** The application's records: prompts, categories, ratings, cache metadata and
    the root `AppState` aggregate, with the defaults their constructors assign. */
module Models {
  import opened Optional

  /** A point in time as `DateTime.Ticks`: 100-nanosecond units since 0001-01-01. */
  type Instant = int

  /** `DateTime.MinValue`, which is also `default(DateTime)`; used as "never". */
  const MinValue: Instant := 0

  /** Ticks in one minute (`TimeSpan.FromMinutes(1).Ticks`). */
  const TicksPerMinute: int := 600_000_000

  /** The identifier of the synthetic category that stands for "no filter". */
  const AllId: string := "all"

  /** A prompt template. `placeholders` are the bracketed names found in `content`. */
  datatype Prompt = Prompt(
    id: string,
    title: string,
    content: string,
    category: string,
    description: string,
    tags: seq<string>,
    usageCount: int,
    averageRating: real,
    createdAt: Instant,
    updatedAt: Instant,
    isPublic: bool,
    author: string,
    difficulty: string,
    placeholders: seq<string>,
    usageNotes: string,
    estimatedTime: string)

  /** A category of the remote catalog; `filePathName` locates its prompt file. */
  datatype Category = Category(
    id: string,
    name: string,
    description: string,
    icon: string,
    color: string,
    sortOrder: int,
    filePathName: string,
    promptCount: int)

  /** One user's rating of one prompt. */
  datatype UserRating = UserRating(promptId: string, rating: int, liked: bool)

  /** Bookkeeping for the cached catalog and its background refresh. */
  datatype CacheMetadata = CacheMetadata(
    lastUpdated: Instant,
    lastBackgroundRefresh: Instant,
    dataVersion: string,
    isStale: bool,
    refreshIntervalMinutes: int,
    backgroundRefreshEnabled: bool)

  /** The whole client state, persisted as one unit. A deserialised state may
      carry a null `CacheMetadata`, hence the `Option`. */
  datatype AppState = AppState(
    prompts: seq<Prompt>,
    categories: seq<Category>,
    favorites: seq<string>,
    userRatings: map<string, UserRating>,
    history: seq<string>,
    selectedCategory: string,
    searchQuery: string,
    theme: string,
    isLoading: bool,
    sortBy: string,
    showFavoritesOnly: bool,
    cacheMetadata: Option<CacheMetadata>)

  /** A prompt belongs to a category when its (non-empty) category field is that id. */
  predicate InCategory(p: Prompt, categoryId: string)
  {
    p.category != "" && p.category == categoryId
  }

  /** `new Prompt()`: the fresh GUID and the clock reading are the parameters. */
  function NewPrompt(freshId: string, now: Instant): (p: Prompt)
    ensures p.id == freshId && p.createdAt == now && p.updatedAt == now
    ensures p.title == "" && p.content == "" && p.category == "" && p.description == "" && p.author == ""
    ensures p.tags == [] && p.placeholders == [] && p.usageNotes == "" && p.estimatedTime == ""
    ensures p.usageCount == 0 && p.averageRating == 0.0
    ensures p.isPublic && p.difficulty == "beginner"
  {
    Prompt(freshId, "", "", "", "", [], 0, 0.0, now, now, true, "", "beginner", [], "", "")
  }

  /** `new CacheMetadata()` at clock reading `now`. */
  function NewCacheMetadata(now: Instant): (m: CacheMetadata)
    ensures m.lastUpdated == now && m.lastBackgroundRefresh == MinValue
    ensures m.dataVersion == "" && !m.isStale
    ensures m.refreshIntervalMinutes == 60 && m.backgroundRefreshEnabled
  {
    CacheMetadata(now, MinValue, "", false, 60, true)
  }

  /** `new AppState()` at clock reading `now`. */
  function NewAppState(now: Instant): (s: AppState)
    ensures s.prompts == [] && s.categories == [] && s.favorites == [] && s.userRatings == map[] && s.history == []
    ensures s.selectedCategory == AllId && s.searchQuery == "" && s.theme == "light"
    ensures !s.isLoading && s.sortBy == "newest" && !s.showFavoritesOnly
    ensures s.cacheMetadata == Some(NewCacheMetadata(now))
  {
    AppState([], [], [], map[], [], AllId, "", "light", false, "newest", false, Some(NewCacheMetadata(now)))
  }
}
