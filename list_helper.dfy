/** Aggregations over a list of blog records (utils/list_helper.js). */
module ListHelper {
  import opened Wrappers

  /** The fields of a blog record the helpers look at. */
  datatype Blog = Blog(title: string, author: string, url: string, likes: int)

  /** A key/value pair of a JavaScript object, as produced by `_.toPairs`. */
  datatype Entry = Entry(key: string, value: int)

  /** Result of `mostBlogs`: `{ author, blogs }`. */
  datatype AuthorBlogs = AuthorBlogs(author: string, blogs: int)

  /** Result of `mostLikes`: `{ author, likes }`. */
  datatype AuthorLikes = AuthorLikes(author: string, likes: int)

  // ---------------------------------------------------------------------------
  // dummy

  function Dummy(blogs: seq<Blog>): (r: int)
    ensures r == 1
  {
    1
  }

  // ---------------------------------------------------------------------------
  // totalLikes

  /** Reference definition: the sum of `likes` over the list. */
  function SumLikes(blogs: seq<Blog>): int
  {
    if blogs == [] then 0 else blogs[0].likes + SumLikes(blogs[1..])
  }

  /** `blogs.map(b => b.likes)` */
  function MapLikes(blogs: seq<Blog>): seq<int>
  {
    seq(|blogs|, i requires 0 <= i < |blogs| => blogs[i].likes)
  }

  /** `xs.reduce((sum, curr) => sum + curr, acc)`: a left fold. */
  function Reduce(xs: seq<int>, acc: int): int
  {
    if xs == [] then acc else Reduce(xs[1..], acc + xs[0])
  }

  /** The left fold over the mapped likes adds the reference sum to its seed. */
  lemma {:induction false} ReduceMapLikes(blogs: seq<Blog>, acc: int)
    ensures Reduce(MapLikes(blogs), acc) == acc + SumLikes(blogs)
  {
    if blogs != [] {
      assert MapLikes(blogs)[1..] == MapLikes(blogs[1..]);
      ReduceMapLikes(blogs[1..], acc + blogs[0].likes);
    }
  }

  function TotalLikes(blogs: seq<Blog>): (r: int)
    ensures r == SumLikes(blogs)
    ensures blogs == [] ==> r == 0
  {
    if |blogs| > 0 then
      ReduceMapLikes(blogs, 0);
      Reduce(MapLikes(blogs), 0)
    else
      0
  }

  /** Total likes distribute over concatenation of lists. */
  lemma {:induction false} TotalLikesAppend(a: seq<Blog>, b: seq<Blog>)
    ensures TotalLikes(a + b) == TotalLikes(a) + TotalLikes(b)
  {
    if a != [] {
      assert (a + b)[1..] == a[1..] + b;
      TotalLikesAppend(a[1..], b);
    } else {
      assert a + b == b;
    }
  }

  /** Appending one blog adds its likes. */
  lemma TotalLikesSnoc(a: seq<Blog>, x: Blog)
    ensures TotalLikes(a + [x]) == TotalLikes(a) + x.likes
  {
    TotalLikesAppend(a, [x]);
    assert [x][1..] == [];
    assert SumLikes([x]) == x.likes + SumLikes([]);
  }

  // ---------------------------------------------------------------------------
  // favoriteBlog

  /** Index `k` holds a blog with the most likes, and every earlier blog has strictly fewer. */
  ghost predicate IsFirstFavorite(blogs: seq<Blog>, k: int)
  {
    && 0 <= k < |blogs|
    && (forall j :: 0 <= j < |blogs| ==> blogs[j].likes <= blogs[k].likes)
    && (forall j :: 0 <= j < k ==> blogs[j].likes < blogs[k].likes)
  }

  /** `blogs[0]` is `undefined` for the empty list and the loop body never runs. */
  method FavoriteBlog(blogs: seq<Blog>) returns (fave: Option<Blog>)
    ensures blogs == [] ==> fave == None
    ensures blogs != [] ==> fave.Some? && exists k :: IsFirstFavorite(blogs, k) && blogs[k] == fave.value
  {
    fave := if |blogs| > 0 then Some(blogs[0]) else None;
    ghost var k := 0;
    for i := 0 to |blogs|
      invariant blogs == [] ==> fave == None
      invariant blogs != [] ==> 0 <= k < |blogs| && k <= i && fave == Some(blogs[k])
      invariant blogs != [] ==> forall j :: 0 <= j < i ==> blogs[j].likes <= blogs[k].likes
      invariant blogs != [] ==> forall j :: 0 <= j < k ==> blogs[j].likes < blogs[k].likes
    {
      if blogs[i].likes > fave.value.likes {
        fave := Some(blogs[i]);
        k := i;
      }
    }
    if blogs != [] {
      assert IsFirstFavorite(blogs, k);
    }
  }

  /** At most one index satisfies `IsFirstFavorite`, so `FavoriteBlog` is fully determined. */
  lemma FirstFavoriteUnique(blogs: seq<Blog>, k1: int, k2: int)
    requires IsFirstFavorite(blogs, k1) && IsFirstFavorite(blogs, k2)
    ensures k1 == k2
  {
    assert blogs[k1].likes == blogs[k2].likes;
  }

  // ---------------------------------------------------------------------------
  // Grouping by author (the order of keys in lodash's result objects)

  /** Number of blogs by `author`. */
  function Count(blogs: seq<Blog>, author: string): nat
  {
    if blogs == [] then 0
    else Count(blogs[..|blogs| - 1], author) + (if blogs[|blogs| - 1].author == author then 1 else 0)
  }

  /** The blogs by `author`, in list order. */
  function ByAuthor(blogs: seq<Blog>, author: string): seq<Blog>
  {
    if blogs == [] then []
    else
      var rest := ByAuthor(blogs[..|blogs| - 1], author);
      if blogs[|blogs| - 1].author == author then rest + [blogs[|blogs| - 1]] else rest
  }

  /** The distinct authors in order of first appearance: the keys of the
      objects built by `_.countBy` and `_.groupBy`. */
  function Authors(blogs: seq<Blog>): (r: seq<string>)
    ensures forall i :: 0 <= i < |blogs| ==> blogs[i].author in r
    ensures forall a :: a in r ==> Count(blogs, a) >= 1
    ensures forall i, j :: 0 <= i < j < |r| ==> r[i] != r[j]
  {
    if blogs == [] then []
    else
      var rest := Authors(blogs[..|blogs| - 1]);
      var a := blogs[|blogs| - 1].author;
      assert forall i :: 0 <= i < |blogs| - 1 ==> blogs[i] == blogs[..|blogs| - 1][i];
      if a in rest then rest else rest + [a]
  }

  /** `_.toPairs(_.countBy(blogs, b => b.author))` restricted to `authors`:
      one entry per author, valued with that author's number of blogs. */
  function CountEntries(blogs: seq<Blog>, authors: seq<string>): (r: seq<Entry>)
    ensures |r| == |authors|
    ensures forall e :: e in r ==> e.key in authors && e.value == Count(blogs, e.key)
    ensures forall a :: a in authors ==> Entry(a, Count(blogs, a)) in r
  {
    if authors == [] then []
    else [Entry(authors[0], Count(blogs, authors[0]))] + CountEntries(blogs, authors[1..])
  }

  function CountBy(blogs: seq<Blog>): seq<Entry>
  {
    CountEntries(blogs, Authors(blogs))
  }

  /** `_.toPairs(_.mapValues(_.groupBy(blogs, b => b.author), totalLikes))` restricted
      to `authors`: one entry per author, valued with the total likes of that author's blogs. */
  function LikesEntries(blogs: seq<Blog>, authors: seq<string>): (r: seq<Entry>)
    ensures |r| == |authors|
    ensures forall e :: e in r ==> e.key in authors && e.value == TotalLikes(ByAuthor(blogs, e.key))
    ensures forall a :: a in authors ==> Entry(a, TotalLikes(ByAuthor(blogs, a))) in r
  {
    if authors == [] then []
    else [Entry(authors[0], TotalLikes(ByAuthor(blogs, authors[0])))] + LikesEntries(blogs, authors[1..])
  }

  function LikesBy(blogs: seq<Blog>): seq<Entry>
  {
    LikesEntries(blogs, Authors(blogs))
  }

  /** `_.maxBy(entries, entry => entry[1])`: the first entry with the greatest
      value (lodash only replaces the current best on a strict `>`). */
  function MaxBy(entries: seq<Entry>): (r: Option<Entry>)
    ensures r.None? <==> entries == []
    ensures r.Some? ==> r.value in entries
    ensures r.Some? ==> forall e :: e in entries ==> e.value <= r.value.value
    ensures r.Some? ==> exists k :: 0 <= k < |entries| && entries[k] == r.value &&
                          forall j :: 0 <= j < k ==> entries[j].value < r.value.value
  {
    if entries == [] then None
    else
      var init := entries[..|entries| - 1];
      var last := entries[|entries| - 1];
      assert entries == init + [last];
      match MaxBy(init)
      case None => Some(last)
      case Some(best) => if last.value > best.value then Some(last) else Some(best)
  }

  // ---------------------------------------------------------------------------
  // mostBlogs and mostLikes

  function MostBlogs(blogs: seq<Blog>): (r: Option<AuthorBlogs>)
    ensures r.None? <==> blogs == []
    ensures r.Some? ==> r.value.blogs == Count(blogs, r.value.author) >= 1
    ensures r.Some? ==> forall b :: b in blogs ==> Count(blogs, b.author) <= r.value.blogs
  {
    if |blogs| > 0 then
      var entries := CountBy(blogs);
      assert blogs[0].author in Authors(blogs);
      match MaxBy(entries)
      case Some(res) => Some(AuthorBlogs(res.key, res.value))
      case None => None
    else
      None
  }

  function MostLikes(blogs: seq<Blog>): (r: Option<AuthorLikes>)
    ensures r.None? <==> blogs == []
    ensures r.Some? ==> Count(blogs, r.value.author) >= 1
    ensures r.Some? ==> r.value.likes == TotalLikes(ByAuthor(blogs, r.value.author))
    ensures r.Some? ==> forall b :: b in blogs ==> TotalLikes(ByAuthor(blogs, b.author)) <= r.value.likes
  {
    if |blogs| > 0 then
      var entries := LikesBy(blogs);
      assert blogs[0].author in Authors(blogs);
      match MaxBy(entries)
      case Some(res) => Some(AuthorLikes(res.key, res.value))
      case None => None
    else
      None
  }

  // ---------------------------------------------------------------------------
  // Every blog is counted under exactly one author

  /** `_.countBy` and `_.groupBy` agree: an author's count is the size of their group. */
  lemma {:induction false} CountIsGroupSize(blogs: seq<Blog>, author: string)
    ensures Count(blogs, author) == |ByAuthor(blogs, author)|
  {
    if blogs != [] {
      CountIsGroupSize(blogs[..|blogs| - 1], author);
    }
  }

  /** Sum of the values of a list of entries. */
  function SumValues(entries: seq<Entry>): int
  {
    if entries == [] then 0 else entries[0].value + SumValues(entries[1..])
  }

  ghost predicate Distinct(authors: seq<string>)
  {
    forall i, j :: 0 <= i < j < |authors| ==> authors[i] != authors[j]
  }

  lemma {:induction false} CountEntriesSnoc(blogs: seq<Blog>, x: Blog, authors: seq<string>)
    requires Distinct(authors)
    ensures SumValues(CountEntries(blogs + [x], authors)) ==
            SumValues(CountEntries(blogs, authors)) + (if x.author in authors then 1 else 0)
  {
    if authors != [] {
      assert (blogs + [x])[..|blogs + [x]| - 1] == blogs;
      assert Distinct(authors[1..]);
      assert x.author in authors <==> x.author == authors[0] || x.author in authors[1..];
      assert authors[0] !in authors[1..];
      CountEntriesSnoc(blogs, x, authors[1..]);
    }
  }

  lemma {:induction false} CountEntriesTotal(blogs: seq<Blog>, authors: seq<string>)
    requires Distinct(authors)
    requires forall i :: 0 <= i < |blogs| ==> blogs[i].author in authors
    ensures SumValues(CountEntries(blogs, authors)) == |blogs|
  {
    if blogs == [] {
      CountEntriesEmpty(authors);
    } else {
      var init, x := blogs[..|blogs| - 1], blogs[|blogs| - 1];
      assert blogs == init + [x];
      CountEntriesTotal(init, authors);
      CountEntriesSnoc(init, x, authors);
    }
  }

  lemma {:induction false} CountEntriesEmpty(authors: seq<string>)
    ensures SumValues(CountEntries([], authors)) == 0
  {
    if authors != [] {
      CountEntriesEmpty(authors[1..]);
    }
  }

  /** The counts of `_.countBy` add up to the length of the list. */
  lemma CountByPartitions(blogs: seq<Blog>)
    ensures SumValues(CountBy(blogs)) == |blogs|
  {
    CountEntriesTotal(blogs, Authors(blogs));
  }

  lemma {:induction false} LikesEntriesSnoc(blogs: seq<Blog>, x: Blog, authors: seq<string>)
    requires Distinct(authors)
    ensures SumValues(LikesEntries(blogs + [x], authors)) ==
            SumValues(LikesEntries(blogs, authors)) + (if x.author in authors then x.likes else 0)
  {
    if authors != [] {
      assert (blogs + [x])[..|blogs + [x]| - 1] == blogs;
      var a := authors[0];
      if x.author == a {
        TotalLikesSnoc(ByAuthor(blogs, a), x);
      }
      assert Distinct(authors[1..]);
      assert x.author in authors <==> x.author == a || x.author in authors[1..];
      assert a !in authors[1..];
      LikesEntriesSnoc(blogs, x, authors[1..]);
    }
  }

  lemma {:induction false} LikesEntriesEmpty(authors: seq<string>)
    ensures SumValues(LikesEntries([], authors)) == 0
  {
    if authors != [] {
      LikesEntriesEmpty(authors[1..]);
    }
  }

  lemma {:induction false} LikesEntriesTotal(blogs: seq<Blog>, authors: seq<string>)
    requires Distinct(authors)
    requires forall i :: 0 <= i < |blogs| ==> blogs[i].author in authors
    ensures SumValues(LikesEntries(blogs, authors)) == TotalLikes(blogs)
  {
    if blogs == [] {
      LikesEntriesEmpty(authors);
    } else {
      var init, x := blogs[..|blogs| - 1], blogs[|blogs| - 1];
      assert blogs == init + [x];
      LikesEntriesTotal(init, authors);
      LikesEntriesSnoc(init, x, authors);
      TotalLikesSnoc(init, x);
    }
  }

  /** The per-author totals that `mostLikes` compares add up to `totalLikes`. */
  lemma LikesByPartitions(blogs: seq<Blog>)
    ensures SumValues(LikesBy(blogs)) == TotalLikes(blogs)
  {
    LikesEntriesTotal(blogs, Authors(blogs));
  }
}
