/**
 The IndexedDB database "offline-news-db": two independent object stores,
 `articles` and `queue`, both with keyPath `id`. A store is a map from key to
 record; `put` inserts or replaces the record filed under the record's own id.
 Each awaited store call is one atomic step.
 */
module Store {
  import opened Records
  import opened KeyOrder

  /** The store after `put` of each record of `xs`, in list order. */
  function PutAll(m: map<Id, Article>, xs: seq<Article>): (r: map<Id, Article>)
    ensures forall k :: k in m ==> k in r
    ensures forall i :: 0 <= i < |xs| ==> xs[i].id in r
    decreases |xs|
  {
    if xs == [] then m
    else PutAll(m, xs[..|xs| - 1])[xs[|xs| - 1].id := xs[|xs| - 1]]
  }

  /** After the puts the store holds its old keys and the ids of `xs`. */
  lemma {:induction false} PutAllKeys(m: map<Id, Article>, xs: seq<Article>)
    ensures PutAll(m, xs).Keys == m.Keys + IdSet(xs)
    decreases |xs|
  {
    if xs != [] {
      var init := xs[..|xs| - 1];
      PutAllKeys(m, init);
      assert IdSet(xs) == IdSet(init) + {xs[|xs| - 1].id} by {
        forall k | k in IdSet(xs) ensures k in IdSet(init) + {xs[|xs| - 1].id} {
          var i :| 0 <= i < |xs| && xs[i].id == k;
          if i < |xs| - 1 { assert init[i] == xs[i]; }
        }
      }
    }
  }

  /** When ids repeat, the last record with that id wins. */
  lemma {:induction false} PutAllLastWins(m: map<Id, Article>, xs: seq<Article>, i: nat)
    requires i < |xs|
    requires forall j :: i < j < |xs| ==> xs[j].id != xs[i].id
    ensures xs[i].id in PutAll(m, xs) && PutAll(m, xs)[xs[i].id] == xs[i]
    decreases |xs|
  {
    if i < |xs| - 1 {
      var init := xs[..|xs| - 1];
      assert init[i] == xs[i];
      PutAllLastWins(m, init, i);
    }
  }

  /** Records whose ids do not occur in `xs` are kept as they were. */
  lemma {:induction false} PutAllKeepsOthers(m: map<Id, Article>, xs: seq<Article>, k: Id)
    requires k in m && k !in IdSet(xs)
    ensures k in PutAll(m, xs) && PutAll(m, xs)[k] == m[k]
    decreases |xs|
  {
    if xs != [] {
      var init := xs[..|xs| - 1];
      forall i | 0 <= i < |init| ensures init[i].id != k {
        assert init[i] == xs[i];
      }
      PutAllKeepsOthers(m, init, k);
    }
  }

  /** Putting records keeps every record filed under its own id. */
  lemma {:induction false} PutAllKeyPath(m: map<Id, Article>, xs: seq<Article>)
    requires KeyPathInvariant(m)
    ensures KeyPathInvariant(PutAll(m, xs))
    decreases |xs|
  {
    if xs != [] { PutAllKeyPath(m, xs[..|xs| - 1]); }
  }

  /** `put` under an id the store lacks, then `delete` of that id, gives back the store. */
  lemma PutThenDeleteIsNoop(store: map<Id, Article>, a: Article)
    requires a.id !in store
    ensures store[a.id := a] - {a.id} == store
  {
  }

  /** Clearing a store and then saving `xs` leaves exactly the ids of `xs`. */
  lemma ClearThenSaveKeys(xs: seq<Article>)
    ensures PutAll(map[], xs).Keys == IdSet(xs)
  {
    PutAllKeys(map[], xs);
  }

  /** Saving records with distinct ids into an empty store stores exactly them. */
  lemma {:induction false} ClearThenSaveDistinct(xs: seq<Article>)
    requires NoDupIds(xs)
    ensures Mirrors(xs, PutAll(map[], xs))
  {
    PutAllKeys(map[], xs);
    forall i | 0 <= i < |xs| ensures PutAll(map[], xs)[xs[i].id] == xs[i] {
      PutAllLastWins(map[], xs, i);
    }
  }

  /** Loop invariant of ListStore: `xs` lists, in order, the records of `m`
      whose keys are not in `rest`, and every listed key precedes `rest`. */
  ghost predicate Listed(m: map<Id, Article>, xs: seq<Article>, rest: set<Id>) {
    && rest <= m.Keys
    && IdSet(xs) + rest == m.Keys && IdSet(xs) !! rest
    && NoDupIds(xs) && SortedByKey(xs)
    && (forall i :: 0 <= i < |xs| ==> m[xs[i].id] == xs[i])
    && (forall i, k :: 0 <= i < |xs| && k in rest ==> KeyLe(xs[i].id, k))
  }

  /** Moving the smallest remaining key to the end of the listing keeps it ordered. */
  lemma ListedStep(m: map<Id, Article>, xs: seq<Article>, rest: set<Id>, k: Id)
    requires KeyPathInvariant(m) && Listed(m, xs, rest)
    requires k in rest && forall x :: x in rest ==> KeyLe(k, x)
    ensures Listed(m, xs + [m[k]], rest - {k})
  {
    var ys := xs + [m[k]];
    assert ys[|xs|].id == k;
    assert IdSet(ys) == IdSet(xs) + {k} by {
      forall x | x in IdSet(ys) ensures x in IdSet(xs) + {k} {
        var i :| 0 <= i < |ys| && ys[i].id == x;
        if i < |xs| { assert ys[i] == xs[i]; }
      }
      forall x | x in IdSet(xs) ensures x in IdSet(ys) {
        var i :| 0 <= i < |xs| && xs[i].id == x;
        assert ys[i] == xs[i];
      }
    }
    assert NoDupIds(ys) by {
      forall i, j | 0 <= i < j < |ys| ensures ys[i].id != ys[j].id {
        if j == |xs| { assert ys[i] == xs[i] && ys[i].id in IdSet(xs); }
        else { assert ys[i] == xs[i] && ys[j] == xs[j]; }
      }
    }
    assert SortedByKey(ys) by {
      forall i, j | 0 <= i < j < |ys| ensures KeyLe(ys[i].id, ys[j].id) {
        assert ys[i] == xs[i];
        if j < |xs| { assert ys[j] == xs[j]; }
      }
    }
    assert forall i, x :: 0 <= i < |ys| && x in rest - {k} ==> KeyLe(ys[i].id, x) by {
      forall i, x | 0 <= i < |ys| && x in rest - {k} ensures KeyLe(ys[i].id, x) {
        if i < |xs| { assert ys[i] == xs[i]; }
      }
    }
    assert forall i :: 0 <= i < |ys| ==> m[ys[i].id] == ys[i] by {
      forall i | 0 <= i < |ys| ensures m[ys[i].id] == ys[i] {
        if i < |xs| { assert ys[i] == xs[i]; }
      }
    }
  }

  /** Every record of a store, once each, in ascending key order (what
      `getAll()` without a range returns). */
  method ListStore(m: map<Id, Article>) returns (xs: seq<Article>)
    requires KeyPathInvariant(m)
    ensures Mirrors(xs, m) && SortedByKey(xs)
  {
    xs := [];
    var rest := m.Keys;
    while rest != {}
      invariant Listed(m, xs, rest)
      decreases rest
    {
      var k := MinKey(rest);
      ListedStep(m, xs, rest, k);
      xs, rest := xs + [m[k]], rest - {k};
    }
  }

  /** Dropping the first record of a listing lists the store without its key. */
  lemma MirrorsTail(xs: seq<Article>, m: map<Id, Article>)
    requires Mirrors(xs, m) && xs != []
    ensures Mirrors(xs[1..], m - {xs[0].id})
  {
    var t := xs[1..];
    forall k | k in IdSet(t) ensures k in m.Keys - {xs[0].id} {
      var i :| 0 <= i < |t| && t[i].id == k;
      assert t[i] == xs[i + 1];
    }
    forall k | k in m.Keys - {xs[0].id} ensures k in IdSet(t) {
      var i :| 0 <= i < |xs| && xs[i].id == k;
      assert t[i - 1] == xs[i];
    }
  }

  /** The first record of a key-ordered listing has the store's smallest key. */
  lemma ListingHeadIsMin(xs: seq<Article>, m: map<Id, Article>, k: Id)
    requires Mirrors(xs, m) && SortedByKey(xs) && xs != [] && k in m
    ensures KeyLe(xs[0].id, k)
  {
    assert k in IdSet(xs);
    var j :| 0 <= j < |xs| && xs[j].id == k;
    if j == 0 { KeyLeReflexive(k); }
  }

  /** A listing is empty exactly when its store is. */
  lemma ListingEmpty(xs: seq<Article>, m: map<Id, Article>)
    requires Mirrors(xs, m)
    ensures (xs == []) == (m.Keys == {})
  {
    if xs != [] { assert xs[0].id in IdSet(xs); }
  }

  /** Two key-ordered listings of one store start with the same record. */
  lemma ListingHeadsAgree(xs: seq<Article>, ys: seq<Article>, m: map<Id, Article>)
    requires Mirrors(xs, m) && SortedByKey(xs) && xs != []
    requires Mirrors(ys, m) && SortedByKey(ys) && ys != []
    ensures xs[0] == ys[0]
  {
    var a, b := xs[0].id, ys[0].id;
    assert a in IdSet(xs) && b in IdSet(ys);
    ListingHeadIsMin(xs, m, b);
    ListingHeadIsMin(ys, m, a);
    KeyLeAntisymmetric(a, b);
  }

  /** A store has only one listing that holds each record once in ascending
      key order, so reading it back always gives the same list. */
  lemma {:induction false} ListingUnique(xs: seq<Article>, ys: seq<Article>, m: map<Id, Article>)
    requires Mirrors(xs, m) && SortedByKey(xs)
    requires Mirrors(ys, m) && SortedByKey(ys)
    ensures xs == ys
    decreases |xs|
  {
    ListingEmpty(xs, m);
    ListingEmpty(ys, m);
    if xs != [] {
      ListingHeadsAgree(xs, ys, m);
      MirrorsTail(xs, m);
      MirrorsTail(ys, m);
      ListingUnique(xs[1..], ys[1..], m - {xs[0].id});
      assert xs == [xs[0]] + xs[1..] && ys == [ys[0]] + ys[1..];
    }
  }

  class Database {
    var articles: map<Id, Article>
    var queue: map<Id, Article>

    /** Both object stores file each record under its own id. */
    ghost predicate Valid()
      reads this
    {
      KeyPathInvariant(articles) && KeyPathInvariant(queue)
    }

    /** A freshly upgraded database: both object stores exist and are empty. */
    constructor()
      ensures Valid() && articles == map[] && queue == map[]
    {
      articles, queue := map[], map[];
    }

    /** Reads the whole `articles` store; changes nothing. */
    method GetAllArticles() returns (xs: seq<Article>)
      requires Valid()
      ensures Mirrors(xs, articles) && SortedByKey(xs)
    {
      xs := ListStore(articles);
    }

    /** `put` into `queue`: insert, or replace the record with the same id. */
    method AddToQueue(a: Article)
      requires Valid()
      modifies this`queue
      ensures Valid()
      ensures queue == old(queue)[a.id := a]
    {
      queue := queue[a.id := a];
    }

    /** `delete` from `queue`; deleting an absent id changes nothing. */
    method RemoveFromQueue(id: Id)
      requires Valid()
      modifies this`queue
      ensures Valid()
      ensures queue == old(queue) - {id}
    {
      queue := queue - {id};
    }

    /** Reads the whole `queue` store; changes nothing. */
    method GetQueue() returns (xs: seq<Article>)
      requires Valid()
      ensures Mirrors(xs, queue) && SortedByKey(xs)
    {
      xs := ListStore(queue);
    }

    /** `clear` of the `articles` store. */
    method ClearArticles()
      requires Valid()
      modifies this`articles
      ensures Valid()
      ensures articles == map[]
    {
      articles := map[];
    }

    /** One `put` into `articles` per record, in list order, in one transaction. */
    method SaveArticles(xs: seq<Article>)
      requires Valid()
      modifies this`articles
      ensures Valid()
      ensures articles == PutAll(old(articles), xs)
    {
      for i := 0 to |xs|
        invariant articles == PutAll(old(articles), xs[..i])
        invariant KeyPathInvariant(articles)
      {
        assert xs[..i + 1][..i] == xs[..i];
        articles := articles[xs[i].id := xs[i]];
      }
      assert xs[..|xs|] == xs;
    }
  }
}
