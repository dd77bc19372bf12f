/** The post service: the collection POSTS as the field of a store object,
    and its five request handlers as methods. Each handler returns a Result
    in place of the HTTP response; an Err carries the error the handler
    answers with, an Ok the body of a success response. */
module Store {
  import opened Text
  import opened Posts
  import opened Sorting
  import opened Search

  /** The fields the list handler may sort by. */
  datatype SortField = ByTitle | ByContent

  /** The validated query of the list handler: the field to sort by, if any,
      and the direction. */
  datatype ListQuery = ListQuery(field: Option<SortField>, direction: Direction)

  /** The `sort` value that names each field. */
  function FieldName(f: SortField): string {
    match f
    case ByTitle => "title"
    case ByContent => "content"
  }

  /** The lower-cased `direction` value that names each direction. */
  function DirectionName(d: Direction): string {
    match d
    case Asc => "asc"
    case Desc => "desc"
  }

  /** The sort key: the lower-cased value of the field. */
  function KeyOf(f: SortField): Post -> string {
    (p: Post) => if f == ByTitle then Lower(p.title) else Lower(p.content)
  }

  /** The validation of the list handler's query parameters. The sort field
      is checked first and only when it is present and non-empty; the
      direction, lower-cased and defaulting to "asc", is checked whether or
      not a sort field is given. */
  function ParseListQuery(sort: Option<string>, direction: Option<string>): (r: Result<ListQuery>)
    ensures r.Err? && r.error.InvalidSortField? <==>
      sort.Some? && sort.value != [] && sort.value != "title" && sort.value != "content"
    ensures r.Err? && r.error.InvalidSortField? ==> r.error.field == sort.value
    ensures r.Err? && r.error.InvalidSortDirection? ==>
      r.error.direction == Lower(direction.GetOr("asc"))
    ensures r.Err? ==> r.error.InvalidSortField? || r.error.InvalidSortDirection?
    ensures r.Ok? <==>
      !(sort.Some? && sort.value != [] && sort.value != "title" && sort.value != "content") &&
      (Lower(direction.GetOr("asc")) == "asc" || Lower(direction.GetOr("asc")) == "desc")
    ensures r.Ok? ==> DirectionName(r.value.direction) == Lower(direction.GetOr("asc"))
    ensures r.Ok? ==> (r.value.field.None? <==> sort.None? || sort.value == [])
    ensures r.Ok? && r.value.field.Some? ==> sort == Some(FieldName(r.value.field.value))
  {
    var dir := Lower(direction.GetOr("asc"));
    var field := sort.GetOr("");
    if field != [] && field != "title" && field != "content" then Err(InvalidSortField(field))
    else if dir != "asc" && dir != "desc" then Err(InvalidSortDirection(dir))
    else
      Ok(ListQuery(if field == [] then None else Some(if field == "title" then ByTitle else ByContent),
                   if dir == "asc" then Asc else Desc))
  }

  /** Every query is accepted when given by its names, whatever the case of
      the direction. */
  lemma ParseListQueryNames(f: Option<SortField>, d: Direction, direction: string)
    requires Lower(direction) == DirectionName(d)
    ensures ParseListQuery(if f.None? then None else Some(FieldName(f.value)), Some(direction)) == Ok(ListQuery(f, d))
  {
  }

  /** The direction is validated even when no sort field is given, and an
      empty sort field counts as none. */
  lemma DirectionCheckedWithoutSort(sort: Option<string>, direction: string)
    requires sort.None? || sort.value == []
    ensures ParseListQuery(sort, Some(direction)).Ok? <==>
      Lower(direction) == "asc" || Lower(direction) == "desc"
  {
  }

  /** The order a successful list request returns: the stored order without
      a sort field, the stable sort of a copy by the field's lower-cased
      value otherwise. */
  function Listed(s: seq<Post>, q: ListQuery): seq<Post> {
    match q.field
    case None => s
    case Some(f) => SortedBy(s, KeyOf(f), q.direction)
  }

  /** A listing holds the stored posts and no others, and with a sort field
      it is ordered by the field's lower-cased value in the requested
      direction, posts with equal keys in stored order. */
  lemma {:induction false} ListedSpec(s: seq<Post>, q: ListQuery)
    ensures multiset(Listed(s, q)) == multiset(s)
    ensures q.field.None? ==> Listed(s, q) == s
    ensures q.field.Some? ==> Ordered(Listed(s, q), KeyOf(q.field.value), q.direction)
    ensures q.field.Some? ==> forall k :: WithKey(Listed(s, q), KeyOf(q.field.value), k) == WithKey(s, KeyOf(q.field.value), k)
  {
    if q.field.Some? {
      var key := KeyOf(q.field.value);
      SortedByPermutes(s, key, q.direction);
      SortedByOrdered(s, key, q.direction);
      forall k {
        SortedByStable(s, key, q.direction, k);
      }
    }
  }

  class PostStore {
    /** The collection, in insertion order. */
    var posts: seq<Post>

    /** Ids are unique and positive. */
    ghost predicate Valid()
      reads this
    {
      UniqueIds(posts) && PositiveIds(posts)
    }

    /** A store holding the seed posts. */
    constructor ()
      ensures Valid() && posts == Seed()
    {
      posts := Seed();
      SeedIsValid();
    }

    /** GET /api/posts: validates the query, then returns the stored posts
        in stored order or sorted on a copy; the store is not changed. */
    method List(sort: Option<string>, direction: Option<string>) returns (r: Result<seq<Post>>)
      ensures ParseListQuery(sort, direction).Err? ==> r == Err(ParseListQuery(sort, direction).error)
      ensures ParseListQuery(sort, direction).Ok? ==> r == Ok(Listed(posts, ParseListQuery(sort, direction).value))
    {
      var q := ParseListQuery(sort, direction);
      if q.Err? {
        return Err(q.error);
      }
      var s := posts;
      var copy := new Post[|s|](i requires 0 <= i < |s| => s[i]);
      assert copy[..] == s;
      match q.value.field {
        case None =>
        case Some(f) =>
          SortInPlace(copy, KeyOf(f), q.value.direction);
      }
      r := Ok(copy[..]);
    }

    /** The generator `next(post for post in POSTS if post['id'] == id)`:
        the position of the first post with the id, or None. */
    method Find(id: int) returns (i: Option<nat>)
      ensures i.None? ==> forall k :: 0 <= k < |posts| ==> posts[k].id != id
      ensures i.Some? ==> i.value < |posts| && posts[i.value].id == id
      ensures i.Some? ==> forall k :: 0 <= k < i.value ==> posts[k].id != id
    {
      var k := 0;
      while k < |posts|
        invariant 0 <= k <= |posts|
        invariant forall m :: 0 <= m < k ==> posts[m].id != id
      {
        if posts[k].id == id {
          return Some(k);
        }
        k := k + 1;
      }
      return None;
    }

    /** POST /api/posts: with both keys present, appends a post with the
        next id and returns it; otherwise fails and changes nothing. */
    method Create(body: Body) returns (r: Result<Post>)
      requires Valid()
      modifies this
      ensures Valid()
      ensures body.title.None? || body.content.None? ==>
        r == Err(MissingFields) && posts == old(posts)
      ensures body.title.Some? && body.content.Some? ==>
        r == Ok(Post(NextId(old(posts)), body.title.value, body.content.value)) &&
        posts == old(posts) + [r.value]
    {
      if body.title.None? || body.content.None? {
        return Err(MissingFields);
      }
      var next := NextId(posts);
      var post := Post(next, body.title.value, body.content.value);
      AppendNextIdValid(posts, post.title, post.content);
      posts := posts + [post];
      r := Ok(post);
    }

    /** DELETE /api/posts/<id>: removes the post with the id by
        list.remove, or fails with NotFound and changes nothing. The
        remaining posts keep their order. */
    method Delete(id: nat) returns (r: Result<nat>)
      requires Valid()
      modifies this
      ensures Valid()
      ensures r.Err? <==> forall k :: 0 <= k < |old(posts)| ==> old(posts)[k].id != id
      ensures r.Err? ==> r.error == NotFound(id) && posts == old(posts)
      ensures r.Ok? ==> r.value == id
      ensures r.Ok? ==> exists k :: 0 <= k < |old(posts)| && old(posts)[k].id == id &&
                                   posts == old(posts)[..k] + old(posts)[k + 1..]
      ensures forall p :: p in posts <==> p in old(posts) && p.id != id
    {
      var i := Find(id);
      if i.None? {
        return Err(NotFound(id));
      }
      var k := i.value;
      RemoveFirstAt(posts, k);
      RemoveAtKeepsOthers(posts, k);
      posts := RemoveFirst(posts, posts[k]);
      r := Ok(id);
    }

    /** PUT /api/posts/<id>: merges the body into the post with the id and
        returns it, leaving its position and every other post as they were;
        fails with NotFound and changes nothing when no post has the id. */
    method Update(id: nat, body: Body) returns (r: Result<Post>)
      requires Valid()
      modifies this
      ensures Valid()
      ensures r.Err? <==> forall k :: 0 <= k < |old(posts)| ==> old(posts)[k].id != id
      ensures r.Err? ==> r.error == NotFound(id) && posts == old(posts)
      ensures r.Ok? ==> exists k :: 0 <= k < |old(posts)| && old(posts)[k].id == id &&
                                   r.value == Merge(old(posts)[k], body) && posts == old(posts)[k := r.value]
    {
      var i := Find(id);
      if i.None? {
        return Err(NotFound(id));
      }
      var k := i.value;
      var post := Merge(posts[k], body);
      ReplaceKeepsIds(posts, k, post);
      posts := posts[k := post];
      r := Ok(post);
    }

    /** GET /api/posts/search: the stored posts that match both queries,
        each lower-cased and defaulting to the empty string, in stored
        order; the store is not changed. */
    method Search(title: Option<string>, content: Option<string>) returns (r: seq<Post>)
      ensures r == SearchPosts(posts, title.GetOr(""), content.GetOr(""))
      ensures forall p :: p in r <==> p in posts && Matches(p, Lower(title.GetOr("")), Lower(content.GetOr("")))
      ensures exists idx :: SelectsMatching(r, posts, idx, Lower(title.GetOr("")), Lower(content.GetOr("")))
    {
      r := SearchPosts(posts, title.GetOr(""), content.GetOr(""));
      FilterMembers(posts, Lower(title.GetOr("")), Lower(content.GetOr("")));
      FilterSelects(posts, Lower(title.GetOr("")), Lower(content.GetOr("")));
    }
  }
}
