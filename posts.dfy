/** The records of the post service and the pure pieces the handlers are
    built from: the seed collection, id uniqueness, the next-id rule, the
    partial merge of an update and Python's list.remove. */
module Posts {

  datatype Option<T> = None | Some(value: T) {
    /** dict.get(key, default) on a key that may be absent. */
    function GetOr(default: T): T {
      match this
      case Some(v) => v
      case None => default
    }
  }

  /** A stored post: the dict {"id", "title", "content"}. */
  datatype Post = Post(id: int, title: string, content: string)

  /** A JSON request body, reduced to the two keys the handlers look at;
      None stands for an absent key. */
  datatype Body = Body(title: Option<string>, content: Option<string>)

  /** The failures a request can end in, with the HTTP status each is sent with. */
  datatype Error =
    | InvalidSortField(field: string)          // 400, names the field as given
    | InvalidSortDirection(direction: string)  // 400, names the lower-cased direction
    | MissingFields                            // 400, "Both 'title' and 'content' are required."
    | NotFound(id: int)                        // 404, "Post with id {id} not found."

  datatype Result<T> = Ok(value: T) | Err(error: Error)

  /** The four posts the collection holds when the process starts. */
  function Seed(): seq<Post> {
    [ Post(1, "First post", "This is the first post."),
      Post(2, "Second post", "This is the second post."),
      Post(3, "Flask Guide", "Learn how to build APIs with Flask."),
      Post(4, "API Design", "Best practices for designing APIs.") ]
  }

  /** No two stored posts share an id. */
  predicate UniqueIds(s: seq<Post>) {
    forall i, j :: 0 <= i < j < |s| ==> s[i].id != s[j].id
  }

  /** Every stored id is positive. */
  predicate PositiveIds(s: seq<Post>) {
    forall i :: 0 <= i < |s| ==> s[i].id >= 1
  }

  lemma SeedIsValid()
    ensures UniqueIds(Seed()) && PositiveIds(Seed())
  {
  }

  /** max(post['id'] for post in POSTS): an id of the collection that no other id exceeds. */
  function MaxId(s: seq<Post>): (m: int)
    requires s != []
    ensures exists i :: 0 <= i < |s| && s[i].id == m
    ensures forall i :: 0 <= i < |s| ==> s[i].id <= m
  {
    if |s| == 1 then s[0].id
    else
      var rest := MaxId(s[1..]);
      assert forall i :: 1 <= i < |s| ==> s[i] == s[1..][i - 1];
      if s[0].id >= rest then s[0].id else rest
  }

  /** The id given to a new post: one more than the largest stored id, or 1
      for an empty collection. It exceeds every stored id, and it is the
      least number that does so and is positive. */
  function NextId(s: seq<Post>): (n: int)
    ensures forall i :: 0 <= i < |s| ==> s[i].id < n
    ensures s == [] ==> n == 1
    ensures s != [] ==> exists i :: 0 <= i < |s| && s[i].id == n - 1
  {
    if s == [] then 1 else MaxId(s) + 1
  }

  /** Appending a post with the next id keeps ids unique and positive. */
  lemma AppendNextIdValid(s: seq<Post>, title: string, content: string)
    requires UniqueIds(s) && PositiveIds(s)
    ensures var t := s + [Post(NextId(s), title, content)];
      UniqueIds(t) && PositiveIds(t)
  {
  }

  /** Ids are reused: removing the post with the largest id from the seed and
      creating a post gives the new post the removed id again. */
  lemma NextIdReusedAfterDeletingMax()
    ensures NextId(Seed()) == 5
    ensures NextId(Seed()[..3]) == 4 == Seed()[3].id
  {
    assert Seed()[1..][1..][1..] == [Seed()[3]];
    assert Seed()[..3][1..][1..] == [Seed()[2]];
  }

  /** The update of a post from a request body: each of title and content is
      replaced only when the body has that key. */
  function Merge(p: Post, body: Body): (q: Post)
    ensures q.id == p.id
    ensures body.title.None? ==> q.title == p.title
    ensures body.title.Some? ==> q.title == body.title.value
    ensures body.content.None? ==> q.content == p.content
    ensures body.content.Some? ==> q.content == body.content.value
  {
    p.(title := body.title.GetOr(p.title), content := body.content.GetOr(p.content))
  }

  /** An update with an empty body changes nothing; repeating an update
      changes nothing more. */
  lemma MergeLaws(p: Post, body: Body)
    ensures Merge(p, Body(None, None)) == p
    ensures Merge(Merge(p, body), body) == Merge(p, body)
  {
  }

  /** Python's list.remove(x): drops the first element equal to x. */
  function RemoveFirst(s: seq<Post>, x: Post): (r: seq<Post>)
    requires x in s
    ensures |r| == |s| - 1
  {
    if s[0] == x then s[1..] else [s[0]] + RemoveFirst(s[1..], x)
  }

  /** list.remove(x) takes away one copy of x and nothing else. */
  lemma {:induction false} RemoveFirstMultiset(s: seq<Post>, x: Post)
    requires x in s
    ensures multiset(RemoveFirst(s, x)) == multiset(s) - multiset{x}
  {
    assert s == [s[0]] + s[1..];
    if s[0] != x {
      RemoveFirstMultiset(s[1..], x);
    }
  }

  /** list.remove(x) removes the first occurrence of x. */
  lemma {:induction false} RemoveFirstSplit(s: seq<Post>, k: int)
    requires 0 <= k < |s| && s[k] !in s[..k]
    ensures RemoveFirst(s, s[k]) == s[..k] + s[k + 1..]
    decreases k
  {
    if k > 0 {
      var x, t := s[k], s[1..];
      assert s[0] in s[..k];
      assert t[k - 1] == x;
      assert x !in t[..k - 1] by {
        assert t[..k - 1] == s[1..k];
      }
      RemoveFirstSplit(t, k - 1);
      var r := RemoveFirst(t, x);
      assert r == t[..k - 1] + t[k..];
      assert RemoveFirst(s, x) == [s[0]] + r;
      assert s[..k] + s[k + 1..] == [s[0]] + (t[..k - 1] + t[k..]);
    }
  }

  /** When s[i] is the first post with its id, list.remove(s[i]) removes
      exactly position i: an earlier equal record would have the same id. */
  lemma RemoveFirstAt(s: seq<Post>, i: int)
    requires 0 <= i < |s|
    requires forall j :: 0 <= j < i ==> s[j].id != s[i].id
    ensures RemoveFirst(s, s[i]) == s[..i] + s[i + 1..]
  {
    assert s[i] !in s[..i];
    RemoveFirstSplit(s, i);
  }

  /** With unique ids, deleting the post at position i keeps exactly the
      posts whose id differs from s[i].id, in their order. */
  lemma RemoveAtKeepsOthers(s: seq<Post>, i: int)
    requires UniqueIds(s) && 0 <= i < |s|
    ensures var r := s[..i] + s[i + 1..];
      UniqueIds(r) && (PositiveIds(s) ==> PositiveIds(r)) &&
      forall p :: p in r <==> p in s && p.id != s[i].id
  {
    var r := s[..i] + s[i + 1..];
    assert forall j :: 0 <= j < |r| ==> r[j] == if j < i then s[j] else s[j + 1];
  }

  /** Replacing a post by one with the same id keeps ids unique and positive. */
  lemma ReplaceKeepsIds(s: seq<Post>, i: int, q: Post)
    requires 0 <= i < |s| && q.id == s[i].id
    ensures UniqueIds(s) ==> UniqueIds(s[i := q])
    ensures PositiveIds(s) ==> PositiveIds(s[i := q])
  {
  }
}
