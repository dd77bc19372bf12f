/** The search handler: an order-preserving filter of the collection by
    case-insensitive substring tests on title and content, ANDed, where an
    empty query places no condition on its field. */
module Search {
  import opened Text
  import opened Posts

  /** The test one post must pass, given the lower-cased queries: a
      non-empty title query must occur in the lower-cased title, and a
      non-empty content query in the lower-cased content. */
  predicate Matches(p: Post, titleQuery: string, contentQuery: string) {
    (if titleQuery != [] then Contains(Lower(p.title), titleQuery) else true) &&
    (if contentQuery != [] then Contains(Lower(p.content), contentQuery) else true)
  }

  /** The posts of s that pass the test, in their order in s. */
  function Filter(s: seq<Post>, titleQuery: string, contentQuery: string): (r: seq<Post>)
    ensures |r| <= |s|
    decreases |s|
  {
    if s == [] then []
    else
      var last := s[|s| - 1];
      Filter(s[..|s| - 1], titleQuery, contentQuery) +
      (if Matches(last, titleQuery, contentQuery) then [last] else [])
  }

  /** The search over the collection with the queries as given: both are
      lower-cased before they are compared. */
  function SearchPosts(s: seq<Post>, title: string, content: string): seq<Post> {
    Filter(s, Lower(title), Lower(content))
  }

  /** idx lists, in increasing order, exactly the positions of s holding a
      post that passes the test, and r holds the posts at those positions. */
  ghost predicate SelectsMatching(r: seq<Post>, s: seq<Post>, idx: seq<int>, titleQuery: string, contentQuery: string) {
    |idx| == |r| &&
    (forall k :: 0 <= k < |idx| ==> 0 <= idx[k] < |s| && r[k] == s[idx[k]]) &&
    (forall k, l :: 0 <= k < l < |idx| ==> idx[k] < idx[l]) &&
    (forall k :: 0 <= k < |idx| ==> Matches(s[idx[k]], titleQuery, contentQuery)) &&
    (forall i :: 0 <= i < |s| && Matches(s[i], titleQuery, contentQuery) ==> i in idx)
  }

  /** The filter keeps every matching post and only those, in stored order. */
  lemma {:induction false} FilterSelects(s: seq<Post>, titleQuery: string, contentQuery: string)
    ensures exists idx :: SelectsMatching(Filter(s, titleQuery, contentQuery), s, idx, titleQuery, contentQuery)
    decreases |s|
  {
    if s == [] {
      assert SelectsMatching(Filter(s, titleQuery, contentQuery), s, [], titleQuery, contentQuery);
    } else {
      var s', last := s[..|s| - 1], s[|s| - 1];
      FilterSelects(s', titleQuery, contentQuery);
      var r' := Filter(s', titleQuery, contentQuery);
      var idx' :| SelectsMatching(r', s', idx', titleQuery, contentQuery);
      assert s == s' + [last];
      SelectsSnoc(r', s', idx', last, titleQuery, contentQuery);
      if Matches(last, titleQuery, contentQuery) {
        assert SelectsMatching(Filter(s, titleQuery, contentQuery), s, idx' + [|s'|], titleQuery, contentQuery);
      } else {
        assert SelectsMatching(Filter(s, titleQuery, contentQuery), s, idx', titleQuery, contentQuery);
      }
    }
  }

  /** One more stored post extends the selection by its position exactly
      when it passes the test. */
  lemma SelectsSnoc(r: seq<Post>, s: seq<Post>, idx: seq<int>, last: Post, titleQuery: string, contentQuery: string)
    requires SelectsMatching(r, s, idx, titleQuery, contentQuery)
    ensures Matches(last, titleQuery, contentQuery) ==>
      SelectsMatching(r + [last], s + [last], idx + [|s|], titleQuery, contentQuery)
    ensures !Matches(last, titleQuery, contentQuery) ==>
      SelectsMatching(r, s + [last], idx, titleQuery, contentQuery)
  {
    var t := s + [last];
    assert forall i :: 0 <= i < |s| ==> t[i] == s[i];
  }

  /** A post is in the result exactly when it is stored and passes the test. */
  lemma {:induction false} FilterMembers(s: seq<Post>, titleQuery: string, contentQuery: string)
    ensures forall p :: p in Filter(s, titleQuery, contentQuery) <==> p in s && Matches(p, titleQuery, contentQuery)
    decreases |s|
  {
    if s != [] {
      FilterMembers(s[..|s| - 1], titleQuery, contentQuery);
      assert s == s[..|s| - 1] + [s[|s| - 1]];
    }
  }

  /** Two empty queries return the whole collection in stored order. */
  lemma {:induction false} FilterEmptyQueries(s: seq<Post>)
    ensures Filter(s, [], []) == s
    decreases |s|
  {
    if s != [] {
      FilterEmptyQueries(s[..|s| - 1]);
      assert s == s[..|s| - 1] + [s[|s| - 1]];
    }
  }

  /** The `if query else True` guards change nothing: the empty string
      occurs in every string, so the test is the plain conjunction. */
  lemma MatchesUnguarded(p: Post, titleQuery: string, contentQuery: string)
    ensures Matches(p, titleQuery, contentQuery) <==>
      Contains(Lower(p.title), titleQuery) && Contains(Lower(p.content), contentQuery)
  {
    ContainsEmpty(Lower(p.title));
    ContainsEmpty(Lower(p.content));
  }

  /** If a pattern occurs in a text, so does each of its prefixes. */
  lemma {:induction false} ContainsPrefix(text: string, pat: string, more: string)
    requires Contains(text, pat + more)
    ensures Contains(text, pat)
    decreases |text|
  {
    if pat + more <= text {
      assert pat <= text by {
        assert (pat + more)[..|pat|] == pat;
      }
    } else {
      ContainsPrefix(text[1..], pat, more);
    }
  }

  /** Typing more of a title query only narrows the result: every post found
      with the longer query is found with the shorter one. */
  lemma {:induction false} LongerTitleQueryNarrows(s: seq<Post>, titleQuery: string, more: string, contentQuery: string)
    ensures forall p :: p in Filter(s, titleQuery + more, contentQuery) ==> p in Filter(s, titleQuery, contentQuery)
  {
    FilterMembers(s, titleQuery + more, contentQuery);
    FilterMembers(s, titleQuery, contentQuery);
    forall p | p in s && Matches(p, titleQuery + more, contentQuery)
      ensures Matches(p, titleQuery, contentQuery)
    {
      if titleQuery != [] {
        ContainsPrefix(Lower(p.title), titleQuery, more);
      }
    }
  }

  /** The search ignores the case of its queries: queries that lower-case
      alike find the same posts, and a lower-cased query finds what the
      query as given finds. */
  lemma SearchIgnoresQueryCase(s: seq<Post>, title: string, content: string, title': string, content': string)
    ensures Lower(title) == Lower(title') && Lower(content) == Lower(content') ==>
      SearchPosts(s, title, content) == SearchPosts(s, title', content')
    ensures SearchPosts(s, Lower(title), Lower(content)) == SearchPosts(s, title, content)
  {
    LowerIdempotent(title);
    LowerIdempotent(content);
  }

  /** Filtering keeps ids unique: the result is a subsequence of the store. */
  lemma FilterKeepsUniqueIds(s: seq<Post>, titleQuery: string, contentQuery: string)
    requires UniqueIds(s)
    ensures UniqueIds(Filter(s, titleQuery, contentQuery))
  {
    FilterSelects(s, titleQuery, contentQuery);
    var r := Filter(s, titleQuery, contentQuery);
    var idx :| SelectsMatching(r, s, idx, titleQuery, contentQuery);
    forall k, l | 0 <= k < l < |r|
      ensures r[k].id != r[l].id
    {
      assert idx[k] < idx[l];
    }
  }
}
