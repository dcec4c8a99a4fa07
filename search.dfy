/**
 The search box filter of `renderArticles`: a record is shown when its title
 or its snippet contains the search text, ignoring case.
 */
module Search {
  import opened Records

  /** Case folding of one character; only ASCII letters are folded. */
  function Lower(c: char): (d: char)
    ensures 'A' <= c <= 'Z' ==> d as int == c as int + 32
    ensures !('A' <= c <= 'Z') ==> d == c
    ensures !('A' <= d <= 'Z')
  {
    if 'A' <= c <= 'Z' then (c as int + 32) as char else c
  }

  /** `toLowerCase()` on a string. */
  function LowerStr(s: string): (t: string)
    ensures |t| == |s|
    ensures forall i :: 0 <= i < |s| ==> t[i] == Lower(s[i])
  {
    seq(|s|, i requires 0 <= i < |s| => Lower(s[i]))
  }

  /** `t` occurs in `s` starting at index `i`. */
  predicate OccursAt(s: string, t: string, i: int) {
    0 <= i && i + |t| <= |s| && s[i..i + |t|] == t
  }

  /** `s.includes(t)`: `t` is a substring of `s`. */
  function Contains(s: string, t: string): (b: bool)
    ensures b <==> exists i :: OccursAt(s, t, i)
    decreases |s|
  {
    if |t| <= |s| && s[..|t|] == t then
      assert OccursAt(s, t, 0);
      true
    else if s == [] then
      false
    else
      assert forall i :: OccursAt(s[1..], t, i) <==> OccursAt(s, t, i + 1) by {
        forall i ensures OccursAt(s[1..], t, i) <==> OccursAt(s, t, i + 1) {
          if 0 <= i && i + |t| <= |s| - 1 { assert s[1..][i..i + |t|] == s[i + 1..i + 1 + |t|]; }
        }
      }
      assert !OccursAt(s, t, 0);
      assert forall i :: OccursAt(s, t, i) ==> i == 0 || OccursAt(s[1..], t, i - 1);
      Contains(s[1..], t)
  }

  /** The filter predicate: title or snippet contains the text, ignoring case. */
  function Matches(a: Article, filterText: string): (b: bool)
    ensures filterText == "" ==> b
    ensures b ==> |filterText| <= |a.title| || |filterText| <= |a.snippet|
    ensures b <==> ((exists i :: OccursAt(LowerStr(a.title), LowerStr(filterText), i)) || (exists i :: OccursAt(LowerStr(a.snippet), LowerStr(filterText), i)))
  {
    assert filterText == "" ==> OccursAt(LowerStr(a.title), LowerStr(filterText), 0);
    || Contains(LowerStr(a.title), LowerStr(filterText))
    || Contains(LowerStr(a.snippet), LowerStr(filterText))
  }

  /** `sub` is `xs` with some elements left out, the rest in their order. */
  predicate IsSubsequence(sub: seq<Article>, xs: seq<Article>)
    decreases |xs|
  {
    if sub == [] then true
    else if xs == [] then false
    else if sub[0] == xs[0] then IsSubsequence(sub[1..], xs[1..])
    else IsSubsequence(sub, xs[1..])
  }

  /** `list.filter(a => Matches(a, filterText))`. */
  function Filter(xs: seq<Article>, filterText: string): (r: seq<Article>)
    ensures IsSubsequence(r, xs)
    ensures forall i :: 0 <= i < |r| ==> Matches(r[i], filterText)
    ensures forall a :: multiset(r)[a] == if Matches(a, filterText) then multiset(xs)[a] else 0
    decreases |xs|
  {
    if xs == [] then []
    else
      var rest := Filter(xs[1..], filterText);
      assert xs == [xs[0]] + xs[1..];
      if Matches(xs[0], filterText) then
        assert ([xs[0]] + rest)[1..] == rest;
        [xs[0]] + rest
      else
        rest
  }

  lemma ContainsEmpty(s: string)
    ensures Contains(s, "")
  {
    assert OccursAt(s, "", 0);
  }

  /** An empty search text keeps every record. */
  lemma {:induction false} FilterEmptyKeepsAll(xs: seq<Article>)
    ensures Filter(xs, "") == xs
    decreases |xs|
  {
    if xs != [] {
      ContainsEmpty(LowerStr(xs[0].title));
      assert LowerStr("") == "";
      FilterEmptyKeepsAll(xs[1..]);
    }
  }
}
