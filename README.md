# Masterblog post store, modelled in Dafny

The Masterblog API (`backend/backend_app.py`) keeps blog posts in a list
in memory. Each post is a record `{id, title, content}`, and the list starts
with four seed posts. Five HTTP handlers act on that list:

- **list** returns the posts in stored order, or a sorted copy;
- **create** appends a post with the next id;
- **delete** removes a post by id;
- **update** merges new values into a post;
- **search** filters the posts by case-insensitive substrings.

This project models that store and proves what each handler does.

Modules:

- `Text` (text.dfy) models the three string operations the handlers use:
  - `str.lower()` restricted to ASCII, as `Lower`;
  - Python's `<` on strings, a lexicographic order by code point, as `Lt`;
  - `pat in text` on strings, as `Contains`.

  Each gets an independent characterisation. `Lt` is proved to be a strict
  total order; `Contains` is proved equal to "occurs at some position".
- `Posts` (posts.dfy) holds:
  - the records: `Post`, the request `Body` with optional keys, and the
    `Error`s a handler answers with;
  - the seed collection and the id invariant (unique, positive);
  - the next-id rule, `max(ids) + 1` or 1 when empty;
  - the partial merge of an update;
  - Python's `list.remove` by value equality.
- `Sorting` (sorting.dfy) models `list.sort(key=..., reverse=...)`:
  - `SortedBy` specifies it as a stable insertion sort by a string key;
  - `SortInPlace` performs it on an array, and its postcondition states
    that it computes `SortedBy`;
  - `SortedBy` is proved ordered, a permutation and stable.

  Descending order is a stable sort with reversed comparisons, as Python's
  `reverse=True` has it. It is not the reverse of the ascending result.
- `Search` (search.dfy) models the order-preserving filter of the search
  handler. It is proved to keep exactly the matching posts, in stored order.
- `Store` (store.dfy) holds:
  - the validation of the list query;
  - the class `PostStore`, whose field `posts` is the collection;
  - the handlers as methods: `List`, `Create`, `Delete`, `Update`,
    `Search`, and `Find` for the id lookup that delete and update share.

  Each handler returns a `Result` in place of the HTTP response. `Valid()`
  (unique, positive ids) holds after the constructor and is kept by every
  method that changes the store.
- `Scenarios` (scenarios.dfy) states the outcome of request sequences on a
  store that starts from the seed posts.

Behaviour of the code worth noting:

- **Ids are reused.** The new id is one more than the largest stored id.
  So deleting the post with the largest id and then creating a post gives
  the new post that same id (`NextIdReusedAfterDeletingMax`,
  `IdReusedAfterDelete`).
- **The direction is always validated.** It is lower-cased and checked even
  when no sort field is given (`DirectionCheckedWithoutSort`).
- **An empty `sort` value counts as absent.**

## Model

| member | source | states |
|---|---|---|
| Text.Lower | backend/backend_app.py:36 | the ASCII lower-casing keeps the length; defined by its body, characterised by LowerAt |
| Text.Lt | backend/backend_app.py:35-38 | Python's `<` on str, as list.sort compares keys; defined by its body, characterised by LtIffLtAt, LtIrreflexive, LtTransitive and LtTrichotomy |
| Text.Contains | backend/backend_app.py:95-96 | Python's `in` on str; defined by its body, characterised by ContainsIff |
| Posts.Seed | backend/backend_app.py:7-12 | the four seed posts with their ids, titles and contents; characterised by SeedIsValid |
| Sorting.Insert | backend/backend_app.py:35-38 | one insertion step of the stable sort; defined by its body, characterised by InsertMultiset, InsertWithKey, InsertOrdered and InsertAt |
| Sorting.SortedBy | backend/backend_app.py:35-38 | `list.sort(key=..., reverse=...)`; defined by its body, characterised by SortedByOrdered, SortedByPermutes and SortedByStable |
| Search.Matches | backend/backend_app.py:95-96 | the comprehension's condition; defined by its body, characterised by MatchesUnguarded |
| Search.SearchPosts | backend/backend_app.py:89-97 | the filter with both queries lower-cased; characterised by FilterSelects, FilterMembers and SearchIgnoresQueryCase |
| Store.KeyOf | backend/backend_app.py:36 | the sort key lambda: the lower-cased value of the field; used by ListedSpec |
| Store.Listed | backend/backend_app.py:32-38 | the stored order without a sort field, the sorted copy with one; characterised by ListedSpec |
| Text.LowerAt | backend/backend_app.py:36 | lower-casing maps each character on its own, and no upper-case letter is left |
| Text.LowerIdempotent | backend/backend_app.py:89-90 | lower-casing an already lower-cased string changes nothing |
| Text.LowerEmpty | backend/backend_app.py:95-96 | a query lower-cases to the empty string exactly when it is empty, so the `if title_query` guard sees the same emptiness before and after lower-casing |
| Text.LtIffLtAt | backend/backend_app.py:35-38 | the recursive string order holds exactly when a is a proper prefix of b, or the first differing character is smaller in a |
| Text.LtIrreflexive | backend/backend_app.py:35-38 | no string sorts strictly before itself |
| Text.LtTransitive | backend/backend_app.py:35-38 | the string order is transitive |
| Text.LtTrichotomy | backend/backend_app.py:35-38 | any two strings are equal or ordered one way or the other |
| Text.ContainsIff | backend/backend_app.py:95-96 | the substring test holds exactly when the pattern occurs at some position of the text |
| Text.ContainsEmpty | backend/backend_app.py:95-96 | the empty string occurs in every string |
| Posts.SeedIsValid | backend/backend_app.py:7-12 | the four seed posts have unique, positive ids |
| Posts.MaxId | backend/backend_app.py:52 | the maximum is the id of some stored post and no stored id exceeds it |
| Posts.NextId | backend/backend_app.py:52 | the new id exceeds every stored id; it is 1 for an empty collection and otherwise one more than a stored id |
| Posts.AppendNextIdValid | backend/backend_app.py:52-58 | appending a post with the next id keeps ids unique and positive |
| Posts.NextIdReusedAfterDeletingMax | backend/backend_app.py:52 | the seed's next id is 5; after the post with id 4 is removed, the next id is 4 again |
| Posts.Merge | backend/backend_app.py:81-82 | the id is kept, and each of title and content is replaced exactly when the body has that key |
| Posts.MergeLaws | backend/backend_app.py:81-82 | an empty body changes nothing, and repeating the same update changes nothing more |
| Posts.RemoveFirst | backend/backend_app.py:68 | list.remove shortens the list by one |
| Posts.RemoveFirstMultiset | backend/backend_app.py:68 | list.remove takes away one copy of the value and nothing else |
| Posts.RemoveFirstSplit | backend/backend_app.py:68 | list.remove removes the first position holding the value |
| Posts.RemoveFirstAt | backend/backend_app.py:64-68 | removing the record found as the first with its id removes exactly that position |
| Posts.RemoveAtKeepsOthers | backend/backend_app.py:64-68 | with unique ids, removing a position keeps ids unique and positive, and keeps exactly the posts with a different id |
| Posts.ReplaceKeepsIds | backend/backend_app.py:81-82 | replacing a post by one with the same id keeps ids unique and positive |
| Sorting.BeforeIrreflexive | backend/backend_app.py:34-38 | no key must come before itself, in either direction |
| Sorting.BeforeTransitive | backend/backend_app.py:34-38 | "must come before" is transitive in either direction |
| Sorting.BeforeTrichotomy | backend/backend_app.py:34-38 | two keys are equal or one must come before the other |
| Sorting.WithKeySnoc | backend/backend_app.py:35-38 | the posts with a given key in s + [y] are those in s, followed by y when y has the key |
| Sorting.InsertMultiset | backend/backend_app.py:35-38 | inserting adds the element and keeps all others |
| Sorting.InsertWithKey | backend/backend_app.py:35-38 | inserting x puts it after every element with its key and keeps the order of every key's elements |
| Sorting.InsertWithKeyStop | backend/backend_app.py:35-38 | where x stops, it is appended behind the elements with its key |
| Sorting.InsertWithKeyPass | backend/backend_app.py:35-38 | x passes only elements with other keys, so passing one keeps the order of every key's elements |
| Sorting.NotBeforeLast | backend/backend_app.py:35-38 | in an ordered list, an element that need not precede the last need not precede any |
| Sorting.InsertOrdered | backend/backend_app.py:35-38 | inserting into an ordered list keeps it ordered |
| Sorting.InsertAt | backend/backend_app.py:35-38 | insertion puts x right after the last element it need not precede |
| Sorting.SortedByOrdered | backend/backend_app.py:35-38 | the sort never puts an element after one it must precede: non-decreasing keys ascending, non-increasing keys descending |
| Sorting.SortedByPermutes | backend/backend_app.py:35-38 | the sort is a permutation of its input |
| Sorting.SortedByStable | backend/backend_app.py:35-38 | the sort is stable: for every key, the elements with that key keep their input order, descending as well as ascending |
| Sorting.SortedByOfOrdered | backend/backend_app.py:35-38 | a list that is already in order is returned unchanged |
| Sorting.SortedByPrefix | backend/backend_app.py:35-38 | sorting one more element inserts it into the sorted prefix |
| Sorting.InsertInPlace | backend/backend_app.py:35-38 | on the array, shifts the elements that a[i] must precede one place right and writes a[i] into the gap; the rest of the array is unchanged |
| Sorting.SortInPlace | backend/backend_app.py:35-38 | the array ends up holding the stable sort of its old contents |
| Search.Filter | backend/backend_app.py:93-97 | the result is no longer than the collection |
| Search.FilterSelects | backend/backend_app.py:93-97 | the result is the posts at exactly the matching positions, taken in increasing order |
| Search.SelectsSnoc | backend/backend_app.py:93-97 | one more stored post extends the selection by its position exactly when it matches |
| Search.FilterMembers | backend/backend_app.py:93-97 | a post is in the result exactly when it is stored and matches both queries |
| Search.FilterEmptyQueries | backend/backend_app.py:93-97 | with both queries empty, the whole collection is returned in stored order |
| Search.MatchesUnguarded | backend/backend_app.py:95-96 | the `if query else True` guards change nothing, so the test is the plain conjunction of the two substring tests |
| Search.ContainsPrefix | backend/backend_app.py:95 | when a pattern occurs in a text, so does every prefix of the pattern |
| Search.LongerTitleQueryNarrows | backend/backend_app.py:95 | extending the title query never adds posts to the result |
| Search.SearchIgnoresQueryCase | backend/backend_app.py:89-90 | queries that lower-case alike return the same posts, and a lower-cased query returns what the query as given returns |
| Search.FilterKeepsUniqueIds | backend/backend_app.py:93-97 | the result of a search has unique ids when the store does |
| Store.ParseListQuery | backend/backend_app.py:18-29 | a present, non-empty sort value other than "title" or "content" is refused, and the error names it; otherwise a lower-cased direction (default "asc") other than "asc" or "desc" is refused, and the error names the lower-cased value; a query passing both checks is accepted; on success the field is absent exactly when sort is absent or empty, and the direction is the one named |
| Store.ParseListQueryNames | backend/backend_app.py:18-29 | every query, given by its field name and any casing of its direction name, is accepted as that query |
| Store.DirectionCheckedWithoutSort | backend/backend_app.py:19-28 | without a sort field, the query is accepted exactly when the lower-cased direction is "asc" or "desc" |
| Store.ListedSpec | backend/backend_app.py:32-38 | a listing is a permutation of the store; without a sort field it is the stored order; with one it is ordered by the lower-cased field in the requested direction and stable |
| Store.PostStore.constructor | backend/backend_app.py:7-12 | a new store holds the seed posts and satisfies the id invariant |
| Store.PostStore.List | backend/backend_app.py:15-40 | an invalid query gives its error; a valid one gives the stored posts in the order Listed defines; the store is not changed |
| Store.PostStore.Find | backend/backend_app.py:64 | returns the first position holding the id, or None when no post has it |
| Store.PostStore.Create | backend/backend_app.py:45-59 | with a key missing, fails with MissingFields and leaves the store unchanged; otherwise appends and returns the post with the next id and the body's values; ids stay unique |
| Store.PostStore.Delete | backend/backend_app.py:62-69 | fails with NotFound exactly when no post has the id, and then changes nothing; otherwise removes exactly that post, keeps the others in order, and keeps ids unique |
| Store.PostStore.Update | backend/backend_app.py:72-84 | fails with NotFound exactly when no post has the id, and then changes nothing; otherwise replaces that post in place by its merge with the body, returns it, and keeps ids unique |
| Store.PostStore.Search | backend/backend_app.py:87-99 | returns exactly the stored posts that match both lower-cased queries, each defaulting to empty; an increasing list of positions picks out exactly the matching posts, so the result keeps stored order; the store is not changed |
| Scenarios.DeleteTwice | backend/backend_app.py:62-69 | deleting id 3 twice from the seed succeeds once and then reports NotFound |
| Scenarios.IdReusedAfterDelete | backend/backend_app.py:52 | after deleting id 4 from the seed, the created post gets id 4 |
| Scenarios.CreateWithoutContent | backend/backend_app.py:49-50 | a body without content is refused and the store keeps its four posts |
| Scenarios.ListWithoutSort | backend/backend_app.py:18-33 | without a sort field the seed comes back in stored order, for no direction and for "DESC"; the direction "Up" is refused as "up" |
| Scenarios.LowerOf | backend/backend_app.py:36 | a string lower-cases to l when each character lower-cases to the character of l at its position |
| Scenarios.FirstPostKey | backend/backend_app.py:36 | the title key of seed post 1 is "first post" |
| Scenarios.SecondPostKey | backend/backend_app.py:36 | the title key of seed post 2 is "second post" |
| Scenarios.FlaskGuideKey | backend/backend_app.py:36 | the title key of seed post 3 is "flask guide" |
| Scenarios.ApiDesignKey | backend/backend_app.py:36 | the title key of seed post 4 is "api design" |
| Scenarios.SeedTitleOrder | backend/backend_app.py:34-38 | with reverse=True, "second post" and "flask guide" go before "first post"; "flask guide" does not go before "second post", nor "api design" before "first post" |
| Scenarios.SortedFirstOne | backend/backend_app.py:35-38 | sorting one element leaves it as it is |
| Scenarios.SortedFirstTwo | backend/backend_app.py:35-38 | descending, a second element that goes before the first is placed in front of it |
| Scenarios.SortedFirstThree | backend/backend_app.py:35-38 | descending, with keys compared as the first three seed titles, the first three elements sort into the order 2, 3, 1 |
| Scenarios.SortedFour | backend/backend_app.py:35-38 | descending, four elements with keys compared as the seed titles sort into the order 2, 3, 1, 4 |
| Scenarios.SeedByTitleDescending | backend/backend_app.py:32-38 | the seed listed by title, descending, is the posts with ids 2, 3, 1, 4 |
| Scenarios.ListByTitleDescending | backend/backend_app.py:15-40 | the request sort=title, direction=desc on the seed store succeeds with ids 2, 3, 1, 4 |
| Scenarios.MissingCharNotContained | backend/backend_app.py:95-96 | a pattern holding a character the text lacks does not occur in it |
| Scenarios.SeedTitlesWithApi | backend/backend_app.py:95 | of the lower-cased seed titles only "api design" contains "api" |
| Scenarios.FilterOnlyLast | backend/backend_app.py:93-97 | four posts of which only the last matches filter to that one post |
| Scenarios.SeedMatchesApi | backend/backend_app.py:95-96 | of the seed posts only id 4 passes the title test for "api" with no content query |
| Scenarios.SeedSearchApi | backend/backend_app.py:89-97 | the search with title "api" and no content on the seed returns only the post with id 4 |
| Scenarios.SearchApi | backend/backend_app.py:87-99 | the request title=api on the seed store returns exactly one post, id 4 "API Design" |

## Left out

- Flask and CORS plumbing is left out: routing, `jsonify`, `CORS(app)` and
  `app.run`. HTTP status codes and message texts are folded into the
  `Error` datatype; its comments give each status.
- The delete handler's success message is represented by the deleted id.
- JSON parsing (`request.get_json()`) is left out. A body is modelled as a
  record of two optional strings. The crash when the body is not a JSON
  object is not modelled.
- Non-string field values are left out, including the `isinstance` branch
  of the sort key. Titles and contents are strings.
- Text.Lower: lower-cases ASCII letters only. Python's `str.lower()`
  applies the full Unicode case mapping, which is not modelled.
- Sorting.SortInPlace: performs a stable insertion sort, not Python's
  Timsort. Its result is ordered, a permutation and stable, the properties
  that fix the outcome of any stable sort. The uniqueness of such a result
  is not proved.
- Posts are values in a `seq`. Update replaces the element at its position,
  where Python assigns into the dict that the list holds. No other
  reference to that dict exists, so nothing else can observe the
  difference.
- Integers are unbounded, as Python's are. Path ids are natural numbers,
  as Flask's `int` converter accepts only digits.
- Concurrency is left out. The model is single-threaded, one request at a
  time.
