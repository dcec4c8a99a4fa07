/**
 The controller: the in-memory feed `articles` and reading `queue`, the tab
 being shown, and the steps that keep them and the record store in step.
 The network, the clock and `navigator.onLine` are parameters.
 */
module App {
  import opened Records
  import opened KeyOrder
  import opened Store
  import opened Feed
  import opened Search
  import opened QueueLogic

  datatype Tab = FeedTab | QueueTab

  /** What the headline fetch produced: a rejected fetch, an unreadable body
      or a body without an `articles` array (all end in the same `catch`), a
      response whose `ok` is false, or the parsed `articles` array. */
  datatype FeedResponse = NetworkError | NotOk | Fetched(items: seq<RawArticle>)

  class Reader {
    var articles: seq<Article>
    var queue: seq<Article>
    var currentTab: Tab
    const db: Database

    /** The queue holds each saved record once, and exactly the records of
        the `queue` store. */
    ghost predicate Valid()
      reads this, db
    {
      db.Valid() && Mirrors(queue, db.queue)
    }

    /** The `articles` store holds a record for exactly the ids of the feed list. */
    ghost predicate FeedInSync()
      reads this, db
    {
      db.articles.Keys == IdSet(articles)
    }

    /** Module state before `init()` has run. */
    constructor(store: Database)
      ensures db == store
      ensures articles == [] && queue == [] && currentTab == FeedTab
    {
      db := store;
      articles, queue, currentTab := [], [], FeedTab;
    }

    /** `init()`: load the queue, then the articles (syncing when online). */
    method Init(online: bool, response: FeedResponse, now: int)
      requires db.Valid()
      modifies this`queue, this`articles, db`articles
      ensures Valid() && SortedByKey(queue)
      ensures db.queue == old(db.queue)
      ensures online && response.Fetched? ==>
        articles == FreshArticles(response.items, now) && db.articles == PutAll(map[], articles)
      ensures !(online && response.Fetched?) ==> db.articles == old(db.articles)
      ensures !(online && response.Fetched?) && old(db.articles) != map[] ==>
        Mirrors(articles, db.articles) && SortedByKey(articles)
      ensures !(online && response.Fetched?) && old(db.articles) == map[] ==> articles == old(articles)
      ensures old(articles) == [] ==> FeedInSync()
    {
      LoadQueue();
      LoadArticles(online, response, now);
    }

    /** `loadQueue()`: the queue becomes the `queue` store's records, in key order. */
    method LoadQueue()
      requires db.Valid()
      modifies this`queue
      ensures Valid() && SortedByKey(queue)
      ensures articles == old(articles)
    {
      queue := db.GetQueue();
    }

    /** `loadArticles()`: show the cached feed if there is one, then sync when online. */
    method LoadArticles(online: bool, response: FeedResponse, now: int)
      requires Valid()
      modifies this`articles, db`articles
      ensures Valid()
      ensures queue == old(queue) && db.queue == old(db.queue)
      ensures online && response.Fetched? ==>
        articles == FreshArticles(response.items, now) && db.articles == PutAll(map[], articles)
      ensures !(online && response.Fetched?) && old(db.articles) != map[] ==>
        Mirrors(articles, db.articles) && SortedByKey(articles)
      ensures !(online && response.Fetched?) && old(db.articles) == map[] ==> articles == old(articles)
      ensures !(online && response.Fetched?) ==> db.articles == old(db.articles)
      ensures old(FeedInSync()) || old(articles) == [] ==> FeedInSync()
    {
      var cached := db.GetAllArticles();
      assert |cached| > 0 <==> db.articles != map[] by {
        if |cached| > 0 { assert cached[0].id in IdSet(cached); }
      }
      if |cached| > 0 {
        articles := cached;
      }
      if online {
        SyncFeed(online, response, now);
      }
    }

    /** `syncFeed()`: offline or on a failed fetch nothing changes; otherwise
        the `articles` store is cleared and refilled with the fresh records.
        The queue and the `queue` store are never touched. */
    method SyncFeed(online: bool, response: FeedResponse, now: int)
      requires Valid()
      modifies this`articles, db`articles
      ensures Valid()
      ensures queue == old(queue) && db.queue == old(db.queue)
      ensures !(online && response.Fetched?) ==>
        articles == old(articles) && db.articles == old(db.articles)
      ensures online && response.Fetched? ==>
        && articles == FreshArticles(response.items, now)
        && db.articles == PutAll(map[], articles)
        && FeedInSync()
      ensures old(FeedInSync()) ==> FeedInSync()
    {
      if !online {
        return;
      }
      match response
      case Fetched(items) =>
        var records := FreshArticles(items, now);
        db.ClearArticles();
        db.SaveArticles(records);
        articles := records;
        ClearThenSaveKeys(records);
      case _ =>
    }

    /** `toggleQueue(id)`: save the record found by id, or remove it when it
        is already saved, in memory and in the `queue` store. */
    method ToggleQueue(id: Id)
      requires Valid()
      modifies this`queue, db`queue
      ensures Valid()
      ensures queue == Toggled(old(articles), old(queue), id)
      ensures db.queue == ToggledStore(old(articles), old(queue), old(db.queue), id)
      ensures articles == old(articles) && db.articles == old(db.articles)
      ensures old(FeedInSync()) ==> FeedInSync()
    {
      ToggleKeepsMirror(articles, queue, db.queue, id);
      var article := Lookup(articles, queue, id);
      if article.None? {
        return;
      }
      var index := FindIndex(queue, id);
      if index == -1 {
        queue := queue + [article.value];
        db.AddToQueue(article.value);
      } else {
        queue := RemoveAt(queue, index);
        db.RemoveFromQueue(id);
      }
    }

    /** `switchTab(tab)`, without the styling. */
    method SwitchTab(tab: Tab)
      modifies this`currentTab
      ensures currentTab == tab
    {
      currentTab := tab;
    }

    /** The list the current tab shows. */
    function ActiveList(): (r: seq<Article>)
      reads this
      ensures currentTab == FeedTab ==> r == articles
      ensures currentTab == QueueTab ==> r == queue
    {
      if currentTab == FeedTab then articles else queue
    }

    /** The records `renderArticles(filterText)` shows: the active list,
        filtered, in its order; an empty search text shows all of it. */
    function Shown(filterText: string): (r: seq<Article>)
      reads this
      ensures IsSubsequence(r, ActiveList())
      ensures forall i :: 0 <= i < |r| ==> Matches(r[i], filterText)
      ensures forall a :: a in ActiveList() && Matches(a, filterText) ==> a in r
      ensures forall a :: multiset(r)[a] == if Matches(a, filterText) then multiset(ActiveList())[a] else 0
      ensures filterText == "" ==> r == ActiveList()
    {
      FilterEmptyKeepsAll(ActiveList());
      var r := Filter(ActiveList(), filterText);
      assert forall a :: a in ActiveList() ==> multiset(ActiveList())[a] > 0;
      r
    }

    /** `openArticle(id)`: the record the modal shows, feed copy first. */
    function OpenArticle(id: Id): (r: Option<Article>)
      reads this
      ensures r.Some? <==> id in IdSet(articles) || id in IdSet(queue)
      ensures id in IdSet(articles) ==> r == Some(articles[FindIndex(articles, id)])
      ensures id !in IdSet(articles) && id in IdSet(queue) ==> r == Some(queue[FindIndex(queue, id)])
      ensures r.Some? ==> r.value.id == id
    {
      Lookup(articles, queue, id)
    }
  }
}
