/**
 The mapping `syncFeed` applies to the headline API's response: each API
 article becomes a feed record, and only the first twenty are kept.
 */
module Feed {
  import opened Records

  /** Feed records kept per sync. */
  const MaxFeedRecords: nat := 20
  const DefaultSnippet: string := "No description available."
  const DefaultCategory: string := "General"
  const PlaceholderImage: string := "https://via.placeholder.com/300?text=News"

  /** One entry of the API's `articles` array. Text fields the API may omit
      or send as null are `None`; `publishedAt` is the already parsed time. */
  datatype RawArticle = RawArticle(
    url: Id,
    title: string,
    description: Option<string>,
    content: Option<string>,
    urlToImage: Option<string>,
    publishedAt: int)

  /** JavaScript truthiness of an optional string: present and non-empty. */
  function Truthy(v: Option<string>): (b: bool)
    ensures b ==> v.Some? && |v.value| > 0
    ensures !b ==> v == None || v == Some("")
  {
    v.Some? && v.value != ""
  }

  /** JavaScript `v || fallback` on an optional string. */
  function Or(v: Option<string>, fallback: string): (r: string)
    ensures r == fallback || Some(r) == v
    ensures r != "" <==> Truthy(v) || fallback != ""
  {
    if Truthy(v) then v.value else fallback
  }

  /** The record `syncFeed` builds from one API entry, stamped with `now`. */
  function ToRecord(raw: RawArticle, now: int): (r: Article)
    ensures r.id == raw.url && r.title == raw.title
    ensures r.category == DefaultCategory && r.isFresh
    ensures r.timestamp == raw.publishedAt && r.fetchedAt == now
    // snippet: description, else content, else the default text
    ensures Truthy(raw.description) ==> r.snippet == raw.description.value
    ensures !Truthy(raw.description) && Truthy(raw.content) ==> r.snippet == raw.content.value
    ensures !Truthy(raw.description) && !Truthy(raw.content) ==> r.snippet == DefaultSnippet
    ensures r.snippet != ""
    // content: content, else description, else empty
    ensures Truthy(raw.content) ==> r.content == raw.content.value
    ensures !Truthy(raw.content) && Truthy(raw.description) ==> r.content == raw.description.value
    ensures r.content == "" <==> !Truthy(raw.content) && !Truthy(raw.description)
    ensures Truthy(raw.urlToImage) ==> r.imageUrl == raw.urlToImage.value
    ensures !Truthy(raw.urlToImage) ==> r.imageUrl == PlaceholderImage
  {
    Article(
      id := raw.url,
      title := raw.title,
      snippet := Or(raw.description, Or(raw.content, DefaultSnippet)),
      content := Or(raw.content, Or(raw.description, "")),
      category := DefaultCategory,
      timestamp := raw.publishedAt,
      imageUrl := Or(raw.urlToImage, PlaceholderImage),
      isFresh := true,
      fetchedAt := now)
  }

  /** `map` every API entry to a record, then `slice(0, 20)`. */
  function FreshArticles(items: seq<RawArticle>, now: int): (r: seq<Article>)
    ensures |r| <= MaxFeedRecords && |r| <= |items|
    ensures |r| == if |items| < MaxFeedRecords then |items| else MaxFeedRecords
    ensures forall i :: 0 <= i < |r| ==> r[i] == ToRecord(items[i], now)
  {
    var all := seq(|items|, i requires 0 <= i < |items| => ToRecord(items[i], now));
    if |all| <= MaxFeedRecords then all else all[..MaxFeedRecords]
  }

  /** Fresh records of a feed with distinct URLs have distinct ids. */
  lemma FreshArticlesDistinct(items: seq<RawArticle>, now: int)
    requires forall i, j :: 0 <= i < j < |items| ==> items[i].url != items[j].url
    ensures NoDupIds(FreshArticles(items, now))
  {
  }
}
