/**
 * The rows of the four collections (RssFeed, RssArticle, Newsletter, User) and the inputs the
 * actions receive. Only the columns the actions read or write are modelled.
 */
module Schema {
  import opened Common

  /** One subscription of one user to one RSS URL. The display columns stay null until a fetch fills them. */
  datatype Feed = Feed(
    id: FeedId,
    userId: UserId,
    url: string,
    title: Option<string>,
    description: Option<string>,
    link: Option<string>,
    imageUrl: Option<string>,
    language: Option<string>,
    lastFetched: Option<Time>)

  /** Channel-level data a fetch reports about a feed. */
  datatype FeedMetadata = FeedMetadata(
    title: Option<string>,
    description: Option<string>,
    link: Option<string>,
    imageUrl: Option<string>,
    language: Option<string>)

  /**
   * A deduplicated article: one row per `guid`. `feedId` is the feed that first surfaced it,
   * `sourceFeedIds` every feed that has surfaced it since.
   */
  datatype Article = Article(
    guid: string,
    feedId: FeedId,
    sourceFeedIds: seq<FeedId>,
    title: string,
    link: string,
    content: Option<string>,
    summary: Option<string>,
    pubDate: Time,
    author: Option<string>,
    categories: seq<string>,
    imageUrl: Option<string>)

  /** An item as the feed parser yields it. */
  datatype ParsedArticle = ParsedArticle(
    guid: string,
    title: string,
    link: string,
    content: Option<string>,
    summary: Option<string>,
    pubDate: Time,
    author: Option<string>,
    categories: Option<seq<string>>,
    imageUrl: Option<string>)

  /** What `createRssArticle` receives: a parsed item attributed to one feed. */
  datatype ArticleInput = ArticleInput(feedId: FeedId, item: ParsedArticle)

  /** The content of a generated newsletter as the caller supplies it. */
  datatype NewsletterData = NewsletterData(
    userId: UserId,
    suggestedTitles: seq<string>,
    suggestedSubjectLines: seq<string>,
    body: string,
    topAnnouncements: seq<string>,
    additionalInfo: Option<string>,
    startDate: Time,
    endDate: Time,
    userInput: Option<string>,
    feedsUsed: seq<FeedId>)

  /** A stored newsletter: the supplied data plus the columns the store fills in. */
  datatype Newsletter = Newsletter(id: NewsletterId, createdAt: Time, data: NewsletterData)

  /** A user row, keyed by the authentication provider's id. */
  datatype User = User(id: UserId, clerkUserId: string, createdAt: Time, updatedAt: Time)
}
