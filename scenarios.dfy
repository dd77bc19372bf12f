/** Request sequences on a store that starts from the seed posts. */
module Scenarios {
  import opened Text
  import opened Posts
  import opened Sorting
  import opened Search
  import opened Store

  /** Deleting the same id twice succeeds once and then reports NotFound. */
  method DeleteTwice() returns (first: Result<nat>, second: Result<nat>)
    ensures first == Ok(3) && second == Err(NotFound(3))
  {
    var store := new PostStore();
    assert store.posts[2].id == 3;
    first := store.Delete(3);
    forall k | 0 <= k < |store.posts|
      ensures store.posts[k].id != 3
    {
      assert store.posts[k] in store.posts;
    }
    second := store.Delete(3);
  }

  /** After the post with the largest id is deleted, the next created post
      receives that id again. */
  method IdReusedAfterDelete() returns (created: Result<Post>)
    ensures created == Ok(Post(4, "New", "Text"))
  {
    var store := new PostStore();
    ghost var seed := store.posts;
    var deleted := store.Delete(4);
    ghost var k :| 0 <= k < |seed| && seed[k].id == 4 && store.posts == seed[..k] + seed[k + 1..];
    assert k == 3;
    assert store.posts == Seed()[..3];
    NextIdReusedAfterDeletingMax();
    created := store.Create(Body(Some("New"), Some("Text")));
  }

  /** A body without content is refused and the store keeps its four posts. */
  method CreateWithoutContent() returns (r: Result<Post>, count: nat)
    ensures r == Err(MissingFields) && count == 4
  {
    var store := new PostStore();
    r := store.Create(Body(Some("New"), None));
    count := |store.posts|;
  }

  /** Without a sort field the posts come in stored order, whatever valid
      direction is given, and an invalid direction is refused even then. */
  method ListWithoutSort() returns (plain: Result<seq<Post>>, upper: Result<seq<Post>>, bad: Result<seq<Post>>)
    ensures plain == Ok(Seed()) && upper == Ok(Seed())
    ensures bad == Err(InvalidSortDirection("up"))
  {
    var store := new PostStore();
    plain := store.List(None, None);
    upper := store.List(Some(""), Some("DESC"));
    bad := store.List(None, Some("Up"));
  }

  /** Lower-casing, checked character by character. */
  lemma LowerOf(s: string, l: string)
    requires |s| == |l| && forall i :: 0 <= i < |s| ==> LowerChar(s[i]) == l[i]
    ensures Lower(s) == l
  {
    LowerAt(s);
  }

  lemma FirstPostKey(p: Post)
    requires p == Seed()[0]
    ensures KeyOf(ByTitle)(p) == "first post"
  {
    LowerOf(p.title, "first post");
  }

  lemma SecondPostKey(p: Post)
    requires p == Seed()[1]
    ensures KeyOf(ByTitle)(p) == "second post"
  {
    LowerOf(p.title, "second post");
  }

  lemma FlaskGuideKey(p: Post)
    requires p == Seed()[2]
    ensures KeyOf(ByTitle)(p) == "flask guide"
  {
    LowerOf(p.title, "flask guide");
  }

  lemma ApiDesignKey(p: Post)
    requires p == Seed()[3]
    ensures KeyOf(ByTitle)(p) == "api design"
  {
    LowerOf(p.title, "api design");
  }

  /** How the lower-cased seed titles compare, descending. */
  lemma SeedTitleOrder(k0: string, k1: string, k2: string, k3: string)
    requires k0 == "first post" && k1 == "second post" && k2 == "flask guide" && k3 == "api design"
    ensures Before(Desc, k1, k0) && Before(Desc, k2, k0)
    ensures !Before(Desc, k2, k1) && !Before(Desc, k3, k0)
  {
  }

  lemma SortedFirstOne<T>(s: seq<T>, key: T -> string, d: Direction)
    requires |s| >= 1
    ensures SortedBy(s[..1], key, d) == [s[0]]
  {
    SortedByPrefix(s, key, d, 0);
    assert s[..0] == [];
  }

  lemma SortedFirstTwo<T>(s: seq<T>, key: T -> string)
    requires |s| >= 2 && Before(Desc, key(s[1]), key(s[0]))
    ensures SortedBy(s[..2], key, Desc) == [s[1], s[0]]
  {
    SortedFirstOne(s, key, Desc);
    SortedByPrefix(s, key, Desc, 1);
    InsertAt([s[0]], s[1], key, Desc, 0);
  }

  lemma SortedFirstThree<T>(s: seq<T>, key: T -> string)
    requires |s| >= 3 && Before(Desc, key(s[1]), key(s[0]))
    requires Before(Desc, key(s[2]), key(s[0])) && !Before(Desc, key(s[2]), key(s[1]))
    ensures SortedBy(s[..3], key, Desc) == [s[1], s[2], s[0]]
  {
    var t := [s[1], s[0]];
    SortedFirstTwo(s, key);
    SortedByPrefix(s, key, Desc, 2);
    assert forall k :: 1 <= k < |t| ==> Before(Desc, key(s[2]), key(t[k]));
    InsertAt(t, s[2], key, Desc, 1);
    assert t[..1] + [s[2]] + t[1..] == [s[1], s[2], s[0]];
  }

  /** Four elements whose keys compare as the seed titles do sort,
      descending, into the order 1, 2, 0, 3. */
  lemma SortedFour<T>(s: seq<T>, key: T -> string)
    requires |s| == 4
    requires Before(Desc, key(s[1]), key(s[0])) && Before(Desc, key(s[2]), key(s[0]))
    requires !Before(Desc, key(s[2]), key(s[1])) && !Before(Desc, key(s[3]), key(s[0]))
    ensures SortedBy(s, key, Desc) == [s[1], s[2], s[0], s[3]]
  {
    SortedFirstThree(s, key);
    SortedByPrefix(s, key, Desc, 3);
    InsertAt([s[1], s[2], s[0]], s[3], key, Desc, 3);
    assert s[..4] == s;
  }

  /** Listing the seed by title, descending, gives "Second post",
      "Flask Guide", "First post", "API Design". */
  lemma SeedByTitleDescending(s: seq<Post>)
    requires s == Seed()
    ensures Listed(s, ListQuery(Some(ByTitle), Desc)) == [s[1], s[2], s[0], s[3]]
  {
    var key := KeyOf(ByTitle);
    FirstPostKey(s[0]);
    SecondPostKey(s[1]);
    FlaskGuideKey(s[2]);
    ApiDesignKey(s[3]);
    SeedTitleOrder(key(s[0]), key(s[1]), key(s[2]), key(s[3]));
    SortedFour(s, key);
  }

  /** A pattern with a character the text lacks does not occur in it. */
  lemma MissingCharNotContained(text: string, pat: string, m: int)
    requires 0 <= m < |pat| && pat[m] !in text
    ensures !Contains(text, pat)
  {
    ContainsIff(text, pat);
  }

  /** Which seed titles contain "api" once lower-cased: only the last. */
  lemma SeedTitlesWithApi(k0: string, k1: string, k2: string, k3: string)
    requires k0 == "first post" && k1 == "second post" && k2 == "flask guide" && k3 == "api design"
    ensures !Contains(k0, "api") && !Contains(k1, "api") && !Contains(k2, "api") && Contains(k3, "api")
  {
    MissingCharNotContained(k0, "api", 0);
    MissingCharNotContained(k1, "api", 0);
    MissingCharNotContained(k2, "api", 1);
  }

  /** Four posts of which only the last matches filter to that one. */
  lemma FilterOnlyLast(s: seq<Post>, titleQuery: string, contentQuery: string)
    requires |s| == 4 && Matches(s[3], titleQuery, contentQuery)
    requires !Matches(s[0], titleQuery, contentQuery) && !Matches(s[1], titleQuery, contentQuery)
    requires !Matches(s[2], titleQuery, contentQuery)
    ensures Filter(s, titleQuery, contentQuery) == [s[3]]
  {
    assert s[..3][..2][..1][..0] == [];
    assert Filter(s[..3][..2][..1], titleQuery, contentQuery) == [];
    assert Filter(s[..3][..2], titleQuery, contentQuery) == [];
    assert Filter(s[..3], titleQuery, contentQuery) == [];
  }

  /** Of the seed posts, only "API Design" passes the title test for "api". */
  lemma SeedMatchesApi(s: seq<Post>)
    requires s == Seed()
    ensures !Matches(s[0], "api", "") && !Matches(s[1], "api", "") && !Matches(s[2], "api", "")
    ensures Matches(s[3], "api", "")
  {
    var key := KeyOf(ByTitle);
    FirstPostKey(s[0]);
    SecondPostKey(s[1]);
    FlaskGuideKey(s[2]);
    ApiDesignKey(s[3]);
    SeedTitlesWithApi(key(s[0]), key(s[1]), key(s[2]), key(s[3]));
  }

  /** A title search for "api" on the seed finds only "API Design". */
  lemma SeedSearchApi(s: seq<Post>)
    requires s == Seed()
    ensures SearchPosts(s, "api", "") == [s[3]]
  {
    LowerOf("api", "api");
    assert Lower("") == "";
    SeedMatchesApi(s);
    FilterOnlyLast(s, "api", "");
  }

  /** GET /api/posts?sort=title&direction=desc on the seed store returns
      the posts with ids 2, 3, 1, 4. */
  method ListByTitleDescending() returns (r: Result<seq<Post>>)
    ensures r.Ok? && |r.value| == 4
    ensures [r.value[0].id, r.value[1].id, r.value[2].id, r.value[3].id] == [2, 3, 1, 4]
  {
    var store := new PostStore();
    LowerOf("desc", "desc");
    ParseListQueryNames(Some(ByTitle), Desc, "desc");
    SeedByTitleDescending(store.posts);
    r := store.List(Some("title"), Some("desc"));
  }

  /** GET /api/posts/search?title=api on the seed store returns only the
      post with id 4, "API Design". */
  method SearchApi() returns (r: seq<Post>)
    ensures |r| == 1 && r[0].id == 4 && r[0].title == "API Design"
  {
    var store := new PostStore();
    SeedSearchApi(store.posts);
    r := store.Search(Some("api"), None);
  }
}
