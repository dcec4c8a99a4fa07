/**
 The article record shared by the controller and the record store, and the
 relations between a list of records and a keyPath-`id` object store.
 */
module Records {

  datatype Option<+T> = None | Some(value: T)

  /** Record keys: the article URL. */
  type Id = string

  /** The record the controller keeps in `articles` and `queue` and writes to
      both object stores. `timestamp` and `fetchedAt` are opaque clock values. */
  datatype Article = Article(
    id: Id,
    title: string,
    snippet: string,
    content: string,
    category: string,
    timestamp: int,
    imageUrl: string,
    isFresh: bool,
    fetchedAt: int)

  /** The set of ids of a list of records. */
  function IdSet(xs: seq<Article>): (ids: set<Id>)
    ensures forall i :: 0 <= i < |xs| ==> xs[i].id in ids
    ensures forall k :: k in ids ==> exists i :: 0 <= i < |xs| && xs[i].id == k
  {
    set i | 0 <= i < |xs| :: xs[i].id
  }

  /** No two records of the list share an id. */
  predicate NoDupIds(xs: seq<Article>) {
    forall i, j :: 0 <= i < j < |xs| ==> xs[i].id != xs[j].id
  }

  /** A keyPath-`id` object store: every record is filed under its own id. */
  predicate KeyPathInvariant(m: map<Id, Article>) {
    forall k :: k in m ==> m[k].id == k
  }

  /** The list holds exactly the records of the store, each once. */
  predicate Mirrors(xs: seq<Article>, m: map<Id, Article>) {
    && NoDupIds(xs)
    && IdSet(xs) == m.Keys
    && forall i :: 0 <= i < |xs| ==> m[xs[i].id] == xs[i]
  }
}
