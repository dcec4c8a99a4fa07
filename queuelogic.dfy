/**
 The list logic behind `openArticle` and `toggleQueue`: finding a record by
 id, the feed-then-queue lookup, and what one toggle does to the in-memory
 queue and to the `queue` object store.
 */
module QueueLogic {
  import opened Records
  import Store

  /** `xs.findIndex(a => a.id === id)`: the first index holding `id`, or -1. */
  function FindIndex(xs: seq<Article>, id: Id): (i: int)
    ensures -1 <= i < |xs|
    ensures i == -1 <==> id !in IdSet(xs)
    ensures 0 <= i ==> xs[i].id == id
    ensures forall j :: 0 <= j < i ==> xs[j].id != id
    decreases |xs|
  {
    if xs == [] then -1
    else if xs[0].id == id then 0
    else
      var k := FindIndex(xs[1..], id);
      assert forall j :: 0 < j < |xs| ==> xs[1..][j - 1] == xs[j];
      if k == -1 then -1 else k + 1
  }

  /** `xs.find(a => a.id === id)`: the first record holding `id`, if any. */
  function Find(xs: seq<Article>, id: Id): (r: Option<Article>)
    ensures r.Some? <==> id in IdSet(xs)
    ensures r.Some? ==> r.value.id == id && r.value == xs[FindIndex(xs, id)]
  {
    var i := FindIndex(xs, id);
    if i == -1 then None else Some(xs[i])
  }

  /** `articles.find(...) || queue.find(...)`: the feed first, then the queue. */
  function Lookup(articles: seq<Article>, queue: seq<Article>, id: Id): (r: Option<Article>)
    ensures r.Some? <==> id in IdSet(articles) || id in IdSet(queue)
    ensures r.Some? ==> r.value.id == id
    ensures id in IdSet(articles) ==> r == Some(articles[FindIndex(articles, id)])
    ensures id !in IdSet(articles) && id in IdSet(queue) ==> r == Some(queue[FindIndex(queue, id)])
  {
    match Find(articles, id)
    case Some(a) => Some(a)
    case None => Find(queue, id)
  }

  /** `xs.splice(i, 1)`. */
  function RemoveAt(xs: seq<Article>, i: nat): (r: seq<Article>)
    requires i < |xs|
    ensures |r| == |xs| - 1
    ensures forall j :: 0 <= j < i ==> r[j] == xs[j]
    ensures forall j :: i <= j < |r| ==> r[j] == xs[j + 1]
  {
    xs[..i] + xs[i + 1..]
  }

  /** The in-memory queue after `toggleQueue(id)`. */
  function Toggled(articles: seq<Article>, queue: seq<Article>, id: Id): (r: seq<Article>)
    ensures |queue| - 1 <= |r| <= |queue| + 1
    ensures |r| == |queue| + 1 ==> id !in IdSet(queue) && r[..|queue|] == queue && r[|queue|].id == id
    ensures |r| == |queue| - 1 ==> id in IdSet(queue)
    ensures forall a :: a in r && a.id != id ==> a in queue
  {
    match Lookup(articles, queue, id)
    case None => queue
    case Some(a) =>
      var i := FindIndex(queue, id);
      if i == -1 then queue + [a] else RemoveAt(queue, i)
  }

  /** The `queue` object store after `toggleQueue(id)`. */
  function ToggledStore(articles: seq<Article>, queue: seq<Article>, store: map<Id, Article>, id: Id): (r: map<Id, Article>)
    ensures forall k :: k != id ==> (k in r <==> k in store)
    ensures forall k :: k != id && k in r ==> r[k] == store[k]
    ensures id in r && id !in store ==> r[id].id == id
  {
    match Lookup(articles, queue, id)
    case None => store
    case Some(a) =>
      if FindIndex(queue, id) == -1 then store[a.id := a] else store - {id}
  }

  /** When the feed holds the id, its copy is the one found, whatever the queue holds. */
  lemma LookupPrefersFeed(articles: seq<Article>, queue: seq<Article>, id: Id)
    requires id in IdSet(articles)
    ensures Lookup(articles, queue, id) == Some(articles[FindIndex(articles, id)])
  {
  }

  /** An id known to neither list changes neither the queue nor the store. */
  lemma ToggleUnknownIsNoop(articles: seq<Article>, queue: seq<Article>, store: map<Id, Article>, id: Id)
    requires id !in IdSet(articles) && id !in IdSet(queue)
    ensures Toggled(articles, queue, id) == queue
    ensures ToggledStore(articles, queue, store, id) == store
  {
  }

  /** A feed id that is not queued is appended, and put into the store. */
  lemma ToggleAppends(articles: seq<Article>, queue: seq<Article>, store: map<Id, Article>, id: Id)
    requires id in IdSet(articles) && id !in IdSet(queue)
    ensures var a := articles[FindIndex(articles, id)];
      && Toggled(articles, queue, id) == queue + [a]
      && |Toggled(articles, queue, id)| == |queue| + 1
      && ToggledStore(articles, queue, store, id) == store[id := a]
  {
  }

  /** A queued id is spliced out at its first index, the other records keeping
      their order, and deleted from the store. */
  lemma ToggleRemovesFirst(articles: seq<Article>, queue: seq<Article>, store: map<Id, Article>, id: Id, i: nat)
    requires i < |queue| && queue[i].id == id
    requires forall j :: 0 <= j < i ==> queue[j].id != id
    ensures Toggled(articles, queue, id) == queue[..i] + queue[i + 1..]
    ensures ToggledStore(articles, queue, store, id) == store - {id}
  {
    assert id in IdSet(queue);
  }

  /** Splicing a record out of a list with distinct ids drops exactly its id. */
  lemma {:induction false} RemoveAtIds(xs: seq<Article>, i: nat)
    requires i < |xs| && NoDupIds(xs)
    ensures NoDupIds(RemoveAt(xs, i))
    ensures IdSet(RemoveAt(xs, i)) == IdSet(xs) - {xs[i].id}
  {
    var r := RemoveAt(xs, i);
    forall k | k in IdSet(xs) - {xs[i].id} ensures k in IdSet(r) {
      var j :| 0 <= j < |xs| && xs[j].id == k;
      if j < i { assert r[j] == xs[j]; } else { assert r[j - 1] == xs[j]; }
    }
    forall k | k in IdSet(r) ensures k in IdSet(xs) - {xs[i].id} {
      var j :| 0 <= j < |r| && r[j].id == k;
      if j >= i { assert r[j] == xs[j + 1]; }
    }
  }

  /** Appending a record whose id the store lacks keeps list and store in step. */
  lemma {:induction false} AppendKeepsMirror(queue: seq<Article>, store: map<Id, Article>, a: Article)
    requires Mirrors(queue, store) && a.id !in store
    ensures Mirrors(queue + [a], store[a.id := a])
  {
    var q := queue + [a];
    var s := store[a.id := a];
    assert IdSet(q) == s.Keys by {
      forall k | k in IdSet(q) ensures k in IdSet(queue) + {a.id} {
        var j :| 0 <= j < |q| && q[j].id == k;
        if j < |queue| { assert q[j] == queue[j]; }
      }
      forall k | k in IdSet(queue) ensures k in IdSet(q) {
        var j :| 0 <= j < |queue| && queue[j].id == k;
        assert q[j] == queue[j];
      }
      assert q[|queue|] == a;
    }
    assert NoDupIds(q) by {
      forall i, j | 0 <= i < j < |q| ensures q[i].id != q[j].id {
        if j == |queue| { assert q[i] == queue[i] && queue[i].id in store; }
        else { assert q[i] == queue[i] && q[j] == queue[j]; }
      }
    }
    assert forall i :: 0 <= i < |q| ==> s[q[i].id] == q[i] by {
      forall i | 0 <= i < |q| ensures s[q[i].id] == q[i] {
        if i < |queue| { assert q[i] == queue[i] && queue[i].id in store; }
      }
    }
  }

  /** Splicing out a record and deleting its id keeps list and store in step. */
  lemma {:induction false} RemoveKeepsMirror(queue: seq<Article>, store: map<Id, Article>, i: nat)
    requires Mirrors(queue, store) && i < |queue|
    ensures Mirrors(RemoveAt(queue, i), store - {queue[i].id})
  {
    RemoveAtIds(queue, i);
    var r := RemoveAt(queue, i);
    forall j | 0 <= j < |r| ensures r[j].id != queue[i].id {
      assert r[j].id in IdSet(r);
    }
  }

  /** One toggle keeps the queue and the store in step: distinct ids, the
      same id set, the same record under each id. */
  lemma ToggleKeepsMirror(articles: seq<Article>, queue: seq<Article>, store: map<Id, Article>, id: Id)
    requires Mirrors(queue, store)
    ensures Mirrors(Toggled(articles, queue, id), ToggledStore(articles, queue, store, id))
  {
    match Lookup(articles, queue, id)
    case None =>
    case Some(a) =>
      var i := FindIndex(queue, id);
      if i == -1 {
        AppendKeepsMirror(queue, store, a);
      } else {
        RemoveKeepsMirror(queue, store, i);
      }
  }

  /** Toggling the id of the record just appended splices it off the end and
      deletes it from the store again. */
  lemma {:induction false} ToggleDropsAppended(articles: seq<Article>, queue: seq<Article>, store: map<Id, Article>, a: Article)
    requires a.id !in IdSet(queue) && a.id !in store
    ensures Toggled(articles, queue + [a], a.id) == queue
    ensures ToggledStore(articles, queue + [a], store[a.id := a], a.id) == store
  {
    var q := queue + [a];
    forall j | 0 <= j < |queue| ensures q[j].id != a.id {
      assert q[j] == queue[j];
    }
    ToggleRemovesFirst(articles, q, store[a.id := a], a.id, |queue|);
    assert q[..|queue|] + q[|queue| + 1..] == queue;
    Store.PutThenDeleteIsNoop(store, a);
  }

  /** Toggling an unqueued feed id twice restores the queue and the store. */
  lemma {:induction false} ToggleTwiceRestores(articles: seq<Article>, queue: seq<Article>, store: map<Id, Article>, id: Id)
    requires Mirrors(queue, store)
    requires id in IdSet(articles) && id !in IdSet(queue)
    ensures var q := Toggled(articles, queue, id);
      && Toggled(articles, q, id) == queue
      && ToggledStore(articles, q, ToggledStore(articles, queue, store, id), id) == store
  {
    var a := articles[FindIndex(articles, id)];
    ToggleAppends(articles, queue, store, id);
    assert a.id == id && id !in store;
    ToggleDropsAppended(articles, queue, store, a);
  }

  /** Toggling a queued id twice does not restore the queue: the record leaves
      its place and, when the feed holds the id, the feed copy is appended at
      the end; otherwise it is gone. The store follows the queue. */
  lemma {:induction false} ToggleTwiceRequeues(articles: seq<Article>, queue: seq<Article>, store: map<Id, Article>, id: Id, i: nat)
    requires Mirrors(queue, store)
    requires i < |queue| && queue[i].id == id
    ensures var q := Toggled(articles, queue, id);
      var s := ToggledStore(articles, queue, store, id);
      && (id in IdSet(articles) ==>
            var a := articles[FindIndex(articles, id)];
            Toggled(articles, q, id) == RemoveAt(queue, i) + [a] && ToggledStore(articles, q, s, id) == (store - {id})[id := a])
      && (id !in IdSet(articles) ==>
            Toggled(articles, q, id) == RemoveAt(queue, i) && ToggledStore(articles, q, s, id) == store - {id})
  {
    assert forall j :: 0 <= j < i ==> queue[j].id != id by {
      forall j | 0 <= j < i ensures queue[j].id != id {
        assert queue[j].id in IdSet(queue);
      }
    }
    ToggleRemovesFirst(articles, queue, store, id, i);
    var q := RemoveAt(queue, i);
    var s := store - {id};
    assert Toggled(articles, queue, id) == q && ToggledStore(articles, queue, store, id) == s;
    RemoveAtIds(queue, i);
    assert id !in IdSet(q);
    if id in IdSet(articles) {
      ToggleAppends(articles, q, s, id);
    } else {
      ToggleUnknownIsNoop(articles, q, s, id);
    }
  }
}
