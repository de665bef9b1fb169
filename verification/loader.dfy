/** `load_posts_by_agent` and `posts_to_inputs` of run_judge.py: group the
    collected posts by author, keep authors with enough posts, order each
    author's posts by creation time, and number them. */
module Loader {
  import opened Wrappers
  import opened Seqs
  import opened Ordering
  import opened Grouping
  import opened Schemas
  import opened Records
  import Strings

  /** Why loading stops: a line that is not JSON (`json.loads` of a blank line),
      or a truthy author without a `name` (`author["name"]`). Lines count from 0. */
  datatype LoadError = UnparsableLine(line: nat) | NoAuthorName(line: nat)

  /** An author's posts: `Bucket(name, posts)`. */
  type Agents = seq<Bucket<string, RawPost>>

  /** The grouping key: the author's name, None for an authorless post. */
  function AuthorName(p: RawPost): Option<string> {
    match p.author
    case Author(Some(name), _) => Some(name)
    case _ => None
  }

  /** `[p for p in posts if p["author"]["name"] == name]`, authorless posts never included. */
  function PostsBy(posts: seq<RawPost>, name: string): seq<RawPost> {
    Filter(posts, KeyIs(AuthorName, Some(name)))
  }

  /** A line the reading loop gets past: it parses, and its author, when
      truthy, has a name. */
  predicate Loadable(line: Line) {
    line.Record? && !(line.post.author.Author? && line.post.author.name.None?)
  }

  /** The error the reading loop raises first, if any; `from` is the index of `lines[0]`. */
  function FirstLoadError(lines: seq<Line>, from: nat): (e: Option<LoadError>)
    ensures e.None? <==> forall i :: 0 <= i < |lines| ==> Loadable(lines[i])
    ensures e.Some? ==> from <= e.value.line < from + |lines| && !Loadable(lines[e.value.line - from])
    decreases |lines|
  {
    if |lines| == 0 then None
    else match lines[0]
      case Blank => Some(UnparsableLine(from))
      case Record(p) =>
        if p.author.Author? && p.author.name.None? then Some(NoAuthorName(from))
        else FirstLoadError(lines[1..], from + 1)
  }

  /** The records of lines that all parse, in file order. */
  function Parsed(lines: seq<Line>): (posts: seq<RawPost>)
    requires forall i :: 0 <= i < |lines| ==> lines[i].Record?
    ensures |posts| == |lines|
    ensures forall i :: 0 <= i < |lines| ==> posts[i] == lines[i].post
  {
    seq(|lines|, i requires 0 <= i < |lines| => lines[i].post)
  }

  /** "has at least `min_posts` posts" */
  function Enough(minPosts: int): Bucket<string, RawPost> -> bool {
    (g: Bucket<string, RawPost>) => |g.items| >= minPosts
  }

  /** `posts.sort(key=lambda p: p["created_at"])` applied to one author's entry. */
  function SortEntry(g: Bucket<string, RawPost>): Bucket<string, RawPost> {
    Bucket(g.key, SortBy(g.items, CreatedAt, Strings.Less))
  }

  /** The filter-and-sort loop over the grouped authors. */
  function KeepAndSort(groups: Agents, minPosts: int): (r: Agents)
    ensures |r| == |Filter(groups, Enough(minPosts))|
    ensures forall i :: 0 <= i < |r| ==> r[i] == SortEntry(Filter(groups, Enough(minPosts))[i])
  {
    var kept := Filter(groups, Enough(minPosts));
    seq(|kept|, i requires 0 <= i < |kept| => SortEntry(kept[i]))
  }

  /** The body of `load_posts_by_agent` once every line has been read. */
  function GroupAndSort(posts: seq<RawPost>, minPosts: int): Agents {
    KeepAndSort(GroupBy(posts, AuthorName), minPosts)
  }

  /** `load_posts_by_agent(raw_path, min_posts)` on the file's lines. */
  function LoadPostsByAgent(lines: seq<Line>, minPosts: int): (r: Result<Agents, LoadError>)
    ensures r.Failure? <==> FirstLoadError(lines, 0).Some?
    ensures r.Success? ==> r.value == GroupAndSort(Parsed(lines), minPosts)
  {
    match FirstLoadError(lines, 0)
    case Some(e) => Failure(e)
    case None => Success(GroupAndSort(Parsed(lines), minPosts))
  }

  /** The `submolt` value `posts_to_inputs` stores: an object's `name` (default
      "unknown"), "unknown" when the key is absent (the `{}` default), and `str()`
      of anything else, so an explicit null becomes "None". */
  function SubmoltName(s: Submolt): string {
    match s
    case NoSubmolt => "unknown"
    case NullSubmolt => "None"
    case Community(name) => name.GetOr("unknown")
    case Bare(text, _) => text
  }

  /** The `PostInput` built for `post` as the author's `number`-th of `total`. */
  function ToInput(agentName: string, post: RawPost, number: int, total: int): PostInput {
    PostInput(post.id, agentName, Get(post.title), Get(post.content),
      SubmoltName(post.submolt), post.createdAt, number, total)
  }

  /** `posts_to_inputs(agent_name, posts)`: the i-th post (from 1) becomes input
      number i of `len(posts)`, keeping its id, title, content and timestamp. */
  function PostsToInputs(agentName: string, posts: seq<RawPost>): (r: seq<PostInput>)
    ensures |r| == |posts|
    ensures forall i :: 0 <= i < |r| ==>
      && r[i].postNumber == i + 1
      && r[i].totalPosts == |posts|
      && r[i].author == agentName
      && r[i].postId == posts[i].id
      && r[i].title == Get(posts[i].title)
      && r[i].content == Get(posts[i].content)
      && r[i].createdAt == posts[i].createdAt
      && r[i].submolt == SubmoltName(posts[i].submolt)
  {
    seq(|posts|, i requires 0 <= i < |posts| => ToInput(agentName, posts[i], i + 1, |posts|))
  }

  /** Every built input satisfies 1 <= post_number <= total_posts, numbers
      never repeat, and they follow the author's chronological order. */
  lemma {:induction false} InputsOrdinals(agentName: string, posts: seq<RawPost>)
    requires Sorted(posts, CreatedAt, Strings.Less)
    ensures forall i :: 0 <= i < |posts| ==> OrdinalInRange(PostsToInputs(agentName, posts)[i])
    ensures forall i, j :: 0 <= i < j < |posts| ==>
      && PostsToInputs(agentName, posts)[i].postNumber < PostsToInputs(agentName, posts)[j].postNumber
      && !Strings.Less(PostsToInputs(agentName, posts)[j].createdAt, PostsToInputs(agentName, posts)[i].createdAt)
  {
    var r := PostsToInputs(agentName, posts);
    forall i, j | 0 <= i < j < |posts|
      ensures !Strings.Less(r[j].createdAt, r[i].createdAt)
    {
      assert !Strings.Less(CreatedAt(posts[j]), CreatedAt(posts[i]));
    }
  }

  /** Dropping entries from a dict leaves its keys distinct. */
  lemma {:induction false} FilterKeepsDistinctKeys<T>(bs: seq<Bucket<string, T>>, keep: Bucket<string, T> -> bool)
    requires DistinctKeys(bs)
    ensures DistinctKeys(Filter(bs, keep))
  {
    if |bs| > 0 {
      FilterKeepsDistinctKeys(bs[1..], keep);
      var rest := Filter(bs[1..], keep);
      forall i | 0 <= i < |rest|
        ensures rest[i].key != bs[0].key
      {
        assert rest[i] in bs[1..];
      }
    }
  }

  lemma GroupAndSortDistinct(posts: seq<RawPost>, minPosts: int)
    ensures DistinctKeys(GroupAndSort(posts, minPosts))
  {
    var groups := GroupBy(posts, AuthorName);
    var kept := Filter(groups, Enough(minPosts));
    var r := GroupAndSort(posts, minPosts);
    GroupByShape(posts, AuthorName);
    FilterKeepsDistinctKeys(groups, Enough(minPosts));
    forall i, j | 0 <= i < j < |r|
      ensures r[i].key != r[j].key
    {
      assert r[i].key == kept[i].key && r[j].key == kept[j].key;
    }
  }

  /** A kept name has posts, and at least `min_posts` of them. */
  lemma KeptHasEnough(posts: seq<RawPost>, minPosts: int, name: string)
    requires name in Keys(GroupAndSort(posts, minPosts))
    ensures PostsBy(posts, name) != [] && |PostsBy(posts, name)| >= minPosts
  {
    var groups := GroupBy(posts, AuthorName);
    var kept := Filter(groups, Enough(minPosts));
    var r := GroupAndSort(posts, minPosts);
    GroupByShape(posts, AuthorName);
    var i :| 0 <= i < |r| && Keys(r)[i] == name;
    assert kept[i] in groups;
    var j :| 0 <= j < |groups| && groups[j] == kept[i];
    ItemsAtOwnKey(groups, j);
    GroupByItems(posts, AuthorName, name);
  }

  /** An author with at least `min_posts` posts is kept. */
  lemma EnoughIsKept(posts: seq<RawPost>, minPosts: int, name: string)
    requires PostsBy(posts, name) != [] && |PostsBy(posts, name)| >= minPosts
    ensures name in Keys(GroupAndSort(posts, minPosts))
  {
    var groups := GroupBy(posts, AuthorName);
    var kept := Filter(groups, Enough(minPosts));
    var r := GroupAndSort(posts, minPosts);
    GroupByShape(posts, AuthorName);
    GroupByKeys(posts, AuthorName, name);
    GroupByItems(posts, AuthorName, name);
    var j :| 0 <= j < |groups| && Keys(groups)[j] == name;
    ItemsAtOwnKey(groups, j);
    assert groups[j] in kept;
    var i :| 0 <= i < |kept| && kept[i] == groups[j];
    assert Keys(r)[i] == name;
  }

  lemma GroupAndSortKeys(posts: seq<RawPost>, minPosts: int, name: string)
    ensures name in Keys(GroupAndSort(posts, minPosts)) <==>
      PostsBy(posts, name) != [] && |PostsBy(posts, name)| >= minPosts
  {
    if name in Keys(GroupAndSort(posts, minPosts)) {
      KeptHasEnough(posts, minPosts, name);
    }
    if PostsBy(posts, name) != [] && |PostsBy(posts, name)| >= minPosts {
      EnoughIsKept(posts, minPosts, name);
    }
  }

  lemma GroupAndSortEntry(posts: seq<RawPost>, minPosts: int, i: nat)
    requires i < |GroupAndSort(posts, minPosts)|
    ensures |GroupAndSort(posts, minPosts)[i].items| >= minPosts
    ensures IsStableSortOf(GroupAndSort(posts, minPosts)[i].items,
      PostsBy(posts, GroupAndSort(posts, minPosts)[i].key), CreatedAt, Strings.Less)
  {
    var groups := GroupBy(posts, AuthorName);
    var kept := Filter(groups, Enough(minPosts));
    assert kept[i] in groups;
    var j :| 0 <= j < |groups| && groups[j] == kept[i];
    GroupByShape(posts, AuthorName);
    ItemsAtOwnKey(groups, j);
    GroupByItems(posts, AuthorName, groups[j].key);
    Strings.LessIsStrictTotalOrder();
    SortByIsStableSort(kept[i].items, CreatedAt, Strings.Less);
  }

  /** What `load_posts_by_agent` returns: one entry per author (distinct names);
      an author is present exactly when they have at least one post and at
      least `min_posts`; and each entry is a stable sort by `created_at` of that
      author's posts in file order, authorless posts being dropped. */
  lemma GroupAndSortSpec(posts: seq<RawPost>, minPosts: int)
    ensures DistinctKeys(GroupAndSort(posts, minPosts))
    ensures forall name :: name in Keys(GroupAndSort(posts, minPosts)) <==>
      PostsBy(posts, name) != [] && |PostsBy(posts, name)| >= minPosts
    ensures forall i :: 0 <= i < |GroupAndSort(posts, minPosts)| ==>
      && |GroupAndSort(posts, minPosts)[i].items| >= minPosts
      && IsStableSortOf(GroupAndSort(posts, minPosts)[i].items, PostsBy(posts, GroupAndSort(posts, minPosts)[i].key), CreatedAt, Strings.Less)
  {
    GroupAndSortDistinct(posts, minPosts);
    forall name {
      GroupAndSortKeys(posts, minPosts, name);
    }
    forall i | 0 <= i < |GroupAndSort(posts, minPosts)| {
      GroupAndSortEntry(posts, minPosts, i);
    }
  }
}
