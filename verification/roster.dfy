/** build_roster.py: group the collected posts by author name into agents,
    sort each agent's posts by creation time, and compute the dataset
    statistics (post-count thresholds, the count distribution, the top
    posters and the per-submolt post counts). */
module Roster {
  import opened Wrappers
  import opened Seqs
  import opened Ordering
  import opened Grouping
  import opened Records
  import Strings
  import Loader
  import Judge

  // ---------------------------------------------------------------------------
  // Reading the posts

  /** Why the loop stops: a truthy submolt that is not an object (`.get` on it
      fails), or a post without a `title` key (`post["title"]`). Lines count from 0. */
  datatype RosterError = SubmoltNotObject(line: nat) | MissingTitle(line: nat)

  /** `submolt_obj.get(...)` only runs on a truthy value, and only an object has `.get`. */
  predicate SubmoltReadable(s: Submolt) {
    !(s.Bare? && s.truthy)
  }

  /** The submolt name the roster records: an object's `name` (default
      "unknown"), and "unknown" for an absent, null or other falsy value. */
  function RosterSubmoltName(s: Submolt): string
    requires SubmoltReadable(s)
  {
    match s
    case Community(name) => name.GetOr("unknown")
    case _ => "unknown"
  }

  /** The two scripts agree on a submolt's name except for an explicit null
      (run_judge.py writes "None") and a falsy non-object value (run_judge.py
      writes its `str()`). No falsy JSON value prints as "unknown", so the
      `Bare` case of agreement never arises from a real file. */
  lemma SubmoltRulesCompared(s: Submolt)
    requires SubmoltReadable(s)
    ensures Loader.SubmoltName(s) == RosterSubmoltName(s) <==>
      s.NoSubmolt? || s.Community? || (s.Bare? && s.text == "unknown")
    ensures s.NullSubmolt? ==> Loader.SubmoltName(s) == "None" && RosterSubmoltName(s) == "unknown"
  {
  }

  /** The loop gets past the line: blank, authorless, or with a readable
      submolt and a `title` key. */
  predicate Accepted(line: Line) {
    line.Blank? || line.post.author.NoAuthor? || (SubmoltReadable(line.post.submolt) && !line.post.title.Missing?)
  }

  /** The error the loop raises first, if any; `from` is the index of `lines[0]`.
      The submolt is read before the title. */
  function FirstRosterError(lines: seq<Line>, from: nat): (e: Option<RosterError>)
    ensures e.None? <==> forall i :: 0 <= i < |lines| ==> Accepted(lines[i])
    ensures e.Some? ==> from <= e.value.line < from + |lines| && !Accepted(lines[e.value.line - from])
    ensures e.Some? && e.value.SubmoltNotObject? ==> !SubmoltReadable(lines[e.value.line - from].post.submolt)
    decreases |lines|
  {
    if |lines| == 0 then None
    else match lines[0]
      case Blank => FirstRosterError(lines[1..], from + 1)
      case Record(p) =>
        if p.author.Author? && !SubmoltReadable(p.submolt) then Some(SubmoltNotObject(from))
        else if p.author.Author? && p.title.Missing? then Some(MissingTitle(from))
        else FirstRosterError(lines[1..], from + 1)
  }

  /** The posts of the non-blank lines, in file order. */
  function PostsOf(lines: seq<Line>): (posts: seq<RawPost>)
    ensures forall p :: p in posts ==> Record(p) in lines
  {
    if |lines| == 0 then []
    else (if lines[0].Record? then [lines[0].post] else []) + PostsOf(lines[1..])
  }

  function IsRecord(line: Line): bool {
    line.Record?
  }

  /** `total_posts` counts every non-blank line. */
  lemma {:induction false} PostsOfCount(lines: seq<Line>)
    ensures |PostsOf(lines)| == Count(lines, IsRecord)
  {
    if |lines| > 0 {
      PostsOfCount(lines[1..]);
    }
  }

  /** The agent key: the author's name ("unknown" when it has none); None
      for an authorless post, which is skipped. */
  function RosterKey(p: RawPost): Option<string> {
    match p.author
    case NoAuthor => None
    case Author(name, _) => Some(name.GetOr("unknown"))
  }

  /** A post the grouped part of the loop can handle. */
  predicate Readable(p: RawPost) {
    p.author.NoAuthor? || SubmoltReadable(p.submolt)
  }

  // ---------------------------------------------------------------------------
  // Agents

  /** The per-post record the roster stores. Absent engagement counters read as 0. */
  datatype RosterPost = RosterPost(
    id: string,
    title: Option<string>,
    content: Option<string>,
    submolt: string,
    createdAt: string,
    upvotes: int,
    downvotes: int,
    commentCount: int,
    url: Option<string>)

  function ToRosterPost(p: RawPost): (r: RosterPost)
    requires SubmoltReadable(p.submolt)
    ensures r.id == p.id && r.createdAt == p.createdAt && r.title == Get(p.title)
    ensures r.content == (if p.content.Missing? then Some("") else Get(p.content))
    ensures r.submolt == RosterSubmoltName(p.submolt)
    ensures r.upvotes == p.upvotes.GetOr(0) && r.commentCount == p.commentCount.GetOr(0)
  {
    RosterPost(p.id, Get(p.title), if p.content.Missing? then Some("") else Get(p.content),
      RosterSubmoltName(p.submolt), p.createdAt, p.upvotes.GetOr(0), p.downvotes.GetOr(0),
      p.commentCount.GetOr(0), p.url)
  }

  function PostCreatedAt(p: RosterPost): string {
    p.createdAt
  }

  function Upvotes(p: RosterPost): int {
    p.upvotes
  }

  function Comments(p: RosterPost): int {
    p.commentCount
  }

  function SubmoltOf(p: RosterPost): string {
    p.submolt
  }

  /** `author.get("id", "unknown")`: an explicit null reads as None. */
  function ResolvedId(a: Author): Option<string> {
    match a
    case Author(_, Missing) => Some("unknown")
    case Author(_, Val(v)) => Some(v)
    case _ => None
  }

  /** `agent["id"]` after the loop has seen `ps`: set from a post only while
      it is still None. */
  function IdAfter(ps: seq<RawPost>): Option<string> {
    if |ps| == 0 then None
    else
      var id := IdAfter(ps[..|ps| - 1]);
      if id.None? then ResolvedId(ps[|ps| - 1].author) else id
  }

  /** The id kept is that of the first post whose author id is not null, and
      there is one exactly when some post has such an id. */
  lemma {:induction false} IdIsFirstResolved(ps: seq<RawPost>)
    ensures IdAfter(ps).Some? <==> exists i :: 0 <= i < |ps| && ResolvedId(ps[i].author).Some?
    ensures IdAfter(ps).Some? ==>
      exists i :: 0 <= i < |ps| && IdAfter(ps) == ResolvedId(ps[i].author) &&
        (forall j :: 0 <= j < i ==> ResolvedId(ps[j].author).None?)
  {
    if |ps| > 0 {
      var prefix := ps[..|ps| - 1];
      IdIsFirstResolved(prefix);
      assert forall i :: 0 <= i < |prefix| ==> prefix[i] == ps[i];
      if IdAfter(prefix).None? && ResolvedId(ps[|ps| - 1].author).Some? {
        assert forall j :: 0 <= j < |ps| - 1 ==> ResolvedId(ps[j].author).None?;
      }
    }
  }

  /** Once set, the id is never overwritten by later posts. */
  lemma {:induction false} IdNeverOverwritten(ps: seq<RawPost>, later: seq<RawPost>)
    requires IdAfter(ps).Some?
    ensures IdAfter(ps + later) == IdAfter(ps)
    decreases |later|
  {
    if |later| > 0 {
      var front := later[..|later| - 1];
      IdNeverOverwritten(ps, front);
      assert (ps + later)[..|ps + later| - 1] == ps + front;
    } else {
      assert ps + later == ps;
    }
  }

  /** One roster entry. `key` is the name the agent is filed under. `id`
      starts as None and is filled in from the first post whose author id is
      not null, so it stays None when every author id is null. `name` is set
      on the agent's first post, and is therefore always `key`. */
  datatype Agent = Agent(
    key: string,
    id: Option<string>,
    name: string,
    posts: seq<RosterPost>,
    submolts: seq<string>,
    firstPost: string,
    lastPost: string,
    totalUpvotes: int,
    totalComments: int,
    postCount: nat)

  /** The roster posts of `items`, in the order they were read. */
  function InReadOrder(items: seq<RawPost>): (r: seq<RosterPost>)
    requires forall p :: p in items ==> SubmoltReadable(p.submolt)
    ensures |r| == |items|
    ensures forall i :: 0 <= i < |r| ==> r[i] == ToRosterPost(items[i])
  {
    seq(|items|, i requires 0 <= i < |items| => ToRosterPost(items[i]))
  }

  function SubmoltNames(ps: seq<RosterPost>): (r: seq<string>)
    ensures |r| == |ps|
    ensures forall i :: 0 <= i < |ps| ==> r[i] == ps[i].submolt
  {
    seq(|ps|, i requires 0 <= i < |ps| => ps[i].submolt)
  }

  /** One agent from its bucket of posts: the aggregation loop's fields, then
      the sort/first/last pass. */
  function BuildAgent(b: Bucket<string, RawPost>): (a: Agent)
    requires |b.items| > 0 && forall p :: p in b.items ==> SubmoltReadable(p.submolt)
    ensures a.key == b.key && a.postCount == |b.items| == |a.posts| > 0
    ensures a.id == IdAfter(b.items)
    ensures a.name == b.key
  {
    var read := InReadOrder(b.items);
    var sorted := SortBy(read, PostCreatedAt, Strings.Less);
    var id := IdAfter(b.items);
    Agent(b.key, id, b.key, sorted,
      SortBy(Dedup(SubmoltNames(read)), Strings.Itself, Strings.Less),
      sorted[0].createdAt, sorted[|sorted| - 1].createdAt,
      SumOf(read, Upvotes), SumOf(read, Comments), |sorted|)
  }

  /** An agent all of whose author ids are null keeps no id, yet is still
      named: `name` is set on the first post whatever its id. */
  lemma NullIdsKeepName(b: Bucket<string, RawPost>)
    requires |b.items| > 0 && forall p :: p in b.items ==> SubmoltReadable(p.submolt)
    ensures BuildAgent(b).id.None? <==> forall i :: 0 <= i < |b.items| ==> ResolvedId(b.items[i].author).None?
    ensures BuildAgent(b).name == b.key
  {
    IdIsFirstResolved(b.items);
  }

  /** The posts end up a stable sort by `created_at` of the posts as read;
      `first_post` and `last_post` are the earliest and latest timestamps. */
  lemma AgentPostsChronological(b: Bucket<string, RawPost>)
    requires |b.items| > 0 && forall p :: p in b.items ==> SubmoltReadable(p.submolt)
    ensures IsStableSortOf(BuildAgent(b).posts, InReadOrder(b.items), PostCreatedAt, Strings.Less)
    ensures BuildAgent(b).firstPost == BuildAgent(b).posts[0].createdAt
    ensures BuildAgent(b).lastPost == BuildAgent(b).posts[|BuildAgent(b).posts| - 1].createdAt
    ensures !Strings.Less(BuildAgent(b).lastPost, BuildAgent(b).firstPost)
    ensures forall i :: 0 <= i < |BuildAgent(b).posts| ==>
      !Strings.Less(BuildAgent(b).posts[i].createdAt, BuildAgent(b).firstPost) &&
      !Strings.Less(BuildAgent(b).lastPost, BuildAgent(b).posts[i].createdAt)
  {
    var a := BuildAgent(b);
    Strings.LessIsStrictTotalOrder();
    SortByIsStableSort(InReadOrder(b.items), PostCreatedAt, Strings.Less);
    assert Sorted(a.posts, PostCreatedAt, Strings.Less);
    forall i | 0 <= i < |a.posts|
      ensures !Strings.Less(a.posts[i].createdAt, a.firstPost)
      ensures !Strings.Less(a.lastPost, a.posts[i].createdAt)
    {
      if 0 < i {
        assert !Strings.Less(PostCreatedAt(a.posts[i]), PostCreatedAt(a.posts[0]));
      }
      if i < |a.posts| - 1 {
        assert !Strings.Less(PostCreatedAt(a.posts[|a.posts| - 1]), PostCreatedAt(a.posts[i]));
      }
    }
  }

  /** `submolts` is strictly ascending, so without repeats, and holds exactly
      the submolt names of the agent's posts. */
  lemma AgentSubmolts(b: Bucket<string, RawPost>)
    requires |b.items| > 0 && forall p :: p in b.items ==> SubmoltReadable(p.submolt)
    ensures forall i, j :: 0 <= i < j < |BuildAgent(b).submolts| ==>
      Strings.Less(BuildAgent(b).submolts[i], BuildAgent(b).submolts[j])
    ensures forall x :: x in BuildAgent(b).submolts <==>
      exists p :: p in b.items && RosterSubmoltName(p.submolt) == x
  {
    var read := InReadOrder(b.items);
    var seen := Dedup(SubmoltNames(read));
    var r := BuildAgent(b).submolts;
    Strings.LessIsStrictTotalOrder();
    SortBySorted(seen, Strings.Itself, Strings.Less);
    PermutationKeepsDistinct(seen, r);
    assert DistinctBy(r, Strings.Itself);
    SortedDistinctIsStrict(r, Strings.Itself, Strings.Less);
    forall x
      ensures x in r <==> exists p :: p in b.items && RosterSubmoltName(p.submolt) == x
    {
      assert x in r <==> x in multiset(seen);
      if x in seen {
        var i :| 0 <= i < |read| && SubmoltNames(read)[i] == x;
        assert b.items[i] in b.items;
      }
      if p :| p in b.items && RosterSubmoltName(p.submolt) == x {
        var i :| 0 <= i < |b.items| && b.items[i] == p;
        assert SubmoltNames(read)[i] == x;
      }
    }
  }

  /** `total_upvotes` and `total_comments`, accumulated while reading, are the
      sums over the agent's (sorted) posts, with absent counters taken as 0. */
  lemma AgentTotals(b: Bucket<string, RawPost>)
    requires |b.items| > 0 && forall p :: p in b.items ==> SubmoltReadable(p.submolt)
    ensures BuildAgent(b).totalUpvotes == SumOf(BuildAgent(b).posts, Upvotes)
    ensures BuildAgent(b).totalComments == SumOf(BuildAgent(b).posts, Comments)
    ensures BuildAgent(b).totalUpvotes == SumOf(b.items, RawUpvotes)
  {
    var read := InReadOrder(b.items);
    SortBySum(read, PostCreatedAt, Strings.Less, Upvotes);
    SortBySum(read, PostCreatedAt, Strings.Less, Comments);
    ReadUpvotes(b.items);
  }

  function RawUpvotes(p: RawPost): int {
    p.upvotes.GetOr(0)
  }

  lemma {:induction false} ReadUpvotes(items: seq<RawPost>)
    requires forall p :: p in items ==> SubmoltReadable(p.submolt)
    ensures SumOf(InReadOrder(items), Upvotes) == SumOf(items, RawUpvotes)
  {
    if |items| > 0 {
      ReadUpvotes(items[1..]);
      assert InReadOrder(items)[1..] == InReadOrder(items[1..]);
    }
  }

  /** Every agent of the grouped posts: the loop's dict, in first-seen order. */
  function AgentsOf(posts: seq<RawPost>): (r: seq<Agent>)
    requires forall p :: p in posts ==> Readable(p)
    ensures |r| == |GroupBy(posts, RosterKey)|
    ensures forall i :: 0 <= i < |r| ==> r[i].key == GroupBy(posts, RosterKey)[i].key
  {
    var groups := GroupBy(posts, RosterKey);
    GroupsReadable(posts);
    seq(|groups|, i requires 0 <= i < |groups| => BuildAgent(groups[i]))
  }
  lemma GroupsReadable(posts: seq<RawPost>)
    requires forall p :: p in posts ==> Readable(p)
    ensures forall i :: 0 <= i < |GroupBy(posts, RosterKey)| ==>
      |GroupBy(posts, RosterKey)[i].items| > 0 &&
      forall p :: p in GroupBy(posts, RosterKey)[i].items ==> SubmoltReadable(p.submolt)
  {
    var groups := GroupBy(posts, RosterKey);
    GroupByContents(posts, RosterKey);
    forall i, p | 0 <= i < |groups| && p in groups[i].items
      ensures SubmoltReadable(p.submolt)
    {
      var f := KeyIs(RosterKey, Some(groups[i].key));
      var j :| 0 <= j < |Filter(posts, f)| && Filter(posts, f)[j] == p;
      assert f(p);
    }
  }

  /** Each agent holds exactly the posts filed under its key, keys do not
      repeat, and every authored post has its agent. */
  lemma AgentsSpec(posts: seq<RawPost>)
    requires forall p :: p in posts ==> Readable(p)
    ensures DistinctBy(AgentsOf(posts), AgentKey)
    ensures forall i :: 0 <= i < |AgentsOf(posts)| ==>
      AgentsOf(posts)[i].postCount == Count(posts, KeyIs(RosterKey, Some(AgentsOf(posts)[i].key))) > 0
    ensures forall p :: p in posts && p.author.Author? ==> RosterKey(p).value in Keys(GroupBy(posts, RosterKey))
  {
    var groups := GroupBy(posts, RosterKey);
    GroupByContents(posts, RosterKey);
    GroupsReadable(posts);
    forall p | p in posts && p.author.Author?
      ensures RosterKey(p).value in Keys(groups)
    {
      var j :| 0 <= j < |posts| && posts[j] == p;
    }
  }

  function AgentKey(a: Agent): string {
    a.key
  }

  function Authored(p: RawPost): bool {
    p.author.Author?
  }

  /** `total_posts` counts every record; the authored ones are exactly the
      agents' posts, the rest are skipped. */
  lemma TotalPostsSplit(posts: seq<RawPost>)
    requires forall p :: p in posts ==> Readable(p)
    ensures SumOf(AgentsOf(posts), PostCount) + Count(posts, Not(Authored)) == |posts|
  {
    var groups := GroupBy(posts, RosterKey);
    GroupByPartition(posts, RosterKey);
    GroupsReadable(posts);
    AgentsCountItems(AgentsOf(posts), groups);
    forall p | p in posts
      ensures HasKey(RosterKey)(p) == Authored(p)
    {
    }
    FilterSameOn(posts, HasKey(RosterKey), Authored);
    FilterSplit(posts, Authored);
  }

  function PostCount(a: Agent): int {
    a.postCount
  }

  lemma {:induction false} FilterSameOn<T>(s: seq<T>, f: T -> bool, g: T -> bool)
    requires forall x :: x in s ==> f(x) == g(x)
    ensures Filter(s, f) == Filter(s, g)
  {
    if |s| > 0 {
      FilterSameOn(s[1..], f, g);
    }
  }

  lemma {:induction false} AgentsCountItems(agents: seq<Agent>, groups: seq<Bucket<string, RawPost>>)
    requires |agents| == |groups|
    requires forall i :: 0 <= i < |agents| ==> agents[i].postCount == |groups[i].items|
    ensures SumOf(agents, PostCount) == TotalItems(groups)
  {
    if |agents| > 0 {
      AgentsCountItems(agents[1..], groups[1..]);
    }
  }

  // ---------------------------------------------------------------------------
  // Submolt post counts

  /** The submolt counted for a post: authored posts only. */
  function SubmoltKey(p: RawPost): Option<string> {
    if p.author.Author? && SubmoltReadable(p.submolt) then Some(RosterSubmoltName(p.submolt)) else None
  }

  /** One entry of `submolt_post_counts`. */
  datatype SubmoltCount = SubmoltCount(submolt: string, posts: nat)

  function NegPosts(e: SubmoltCount): int {
    -(e.posts as int)
  }

  function Posts(e: SubmoltCount): int {
    e.posts
  }

  function SubmoltOfCount(e: SubmoltCount): string {
    e.submolt
  }

  /** The `submolt_counts` dict in first-seen order. */
  function CountsOf(groups: seq<Bucket<string, RawPost>>): (r: seq<SubmoltCount>)
    ensures |r| == |groups|
    ensures forall i :: 0 <= i < |r| ==> r[i] == SubmoltCount(groups[i].key, |groups[i].items|)
  {
    seq(|groups|, i requires 0 <= i < |groups| => SubmoltCount(groups[i].key, |groups[i].items|))
  }

  /** `dict(sorted(submolt_counts.items(), key=lambda x: -x[1]))`: the counts
      in non-increasing order, ties in first-seen order. */
  function SubmoltCounts(posts: seq<RawPost>): seq<SubmoltCount> {
    SortBy(CountsOf(GroupBy(posts, SubmoltKey)), NegPosts, IntLess)
  }

  lemma SubmoltCountsEntries(posts: seq<RawPost>)
    ensures forall i :: 0 <= i < |SubmoltCounts(posts)| ==>
      SubmoltCounts(posts)[i].posts == Count(posts, KeyIs(SubmoltKey, Some(SubmoltCounts(posts)[i].submolt))) > 0
    ensures DistinctBy(SubmoltCounts(posts), SubmoltOfCount)
  {
    var groups := GroupBy(posts, SubmoltKey);
    var pairs := CountsOf(groups);
    var r := SubmoltCounts(posts);
    GroupByContents(posts, SubmoltKey);
    forall i | 0 <= i < |r|
      ensures r[i].posts == Count(posts, KeyIs(SubmoltKey, Some(r[i].submolt))) > 0
    {
      assert r[i] in multiset(pairs);
    }
    assert DistinctBy(pairs, SubmoltOfCount);
    PermutationKeepsDistinctBy(pairs, r, SubmoltOfCount);
  }

  lemma SubmoltCountsCover(posts: seq<RawPost>)
    ensures forall p :: p in posts && SubmoltKey(p).Some? ==>
      exists i :: 0 <= i < |SubmoltCounts(posts)| && SubmoltCounts(posts)[i].submolt == SubmoltKey(p).value
  {
    var groups := GroupBy(posts, SubmoltKey);
    var pairs := CountsOf(groups);
    var r := SubmoltCounts(posts);
    GroupByContents(posts, SubmoltKey);
    forall p | p in posts && SubmoltKey(p).Some?
      ensures exists i :: 0 <= i < |r| && r[i].submolt == SubmoltKey(p).value
    {
      var j :| 0 <= j < |posts| && posts[j] == p;
      var k :| 0 <= k < |groups| && groups[k].key == SubmoltKey(p).value;
      assert pairs[k] in multiset(r);
    }
  }

  lemma SubmoltCountsTotal(posts: seq<RawPost>)
    requires forall p :: p in posts ==> Readable(p)
    ensures SumOf(SubmoltCounts(posts), Posts) == Count(posts, Authored)
  {
    var groups := GroupBy(posts, SubmoltKey);
    GroupByPartition(posts, SubmoltKey);
    SortBySum(CountsOf(groups), NegPosts, IntLess, Posts);
    PairsCountItems(CountsOf(groups), groups);
    forall p | p in posts
      ensures HasKey(SubmoltKey)(p) == Authored(p)
    {
    }
    FilterSameOn(posts, HasKey(SubmoltKey), Authored);
  }

  lemma SubmoltCountsOrder(posts: seq<RawPost>)
    ensures forall i, j :: 0 <= i < j < |SubmoltCounts(posts)| ==> SubmoltCounts(posts)[i].posts >= SubmoltCounts(posts)[j].posts
  {
    var r := SubmoltCounts(posts);
    IntLessIsStrictTotalOrder();
    SortBySorted(CountsOf(GroupBy(posts, SubmoltKey)), NegPosts, IntLess);
    forall i, j | 0 <= i < j < |r|
      ensures r[i].posts >= r[j].posts
    {
      assert !IntLess(NegPosts(r[j]), NegPosts(r[i]));
    }
  }

  /** Each entry counts exactly the authored posts in its submolt; names do not
      repeat; every authored post's submolt appears; counts never increase
      along the list; and together they count every authored post. */
  lemma SubmoltCountsSpec(posts: seq<RawPost>)
    requires forall p :: p in posts ==> Readable(p)
    ensures forall p :: p in posts ==> (SubmoltKey(p).Some? <==> p.author.Author?)
    ensures forall i :: 0 <= i < |SubmoltCounts(posts)| ==>
      SubmoltCounts(posts)[i].posts == Count(posts, KeyIs(SubmoltKey, Some(SubmoltCounts(posts)[i].submolt))) > 0
    ensures DistinctBy(SubmoltCounts(posts), SubmoltOfCount)
    ensures forall p :: p in posts && SubmoltKey(p).Some? ==>
      exists i :: 0 <= i < |SubmoltCounts(posts)| && SubmoltCounts(posts)[i].submolt == SubmoltKey(p).value
    ensures forall i, j :: 0 <= i < j < |SubmoltCounts(posts)| ==> SubmoltCounts(posts)[i].posts >= SubmoltCounts(posts)[j].posts
    ensures SumOf(SubmoltCounts(posts), Posts) == Count(posts, Authored)
  {
    SubmoltCountsOrder(posts);
    SubmoltCountsEntries(posts);
    SubmoltCountsCover(posts);
    SubmoltCountsTotal(posts);
  }

  lemma {:induction false} PairsCountItems(pairs: seq<SubmoltCount>, groups: seq<Bucket<string, RawPost>>)
    requires |pairs| == |groups|
    requires forall i :: 0 <= i < |pairs| ==> pairs[i].posts == |groups[i].items|
    ensures SumOf(pairs, Posts) == TotalItems(groups)
  {
    if |pairs| > 0 {
      PairsCountItems(pairs[1..], groups[1..]);
    }
  }

  // ---------------------------------------------------------------------------
  // The whole roster

  /** What the script writes: the agents, and the two counts it takes from the loop. */
  datatype Roster = Roster(agents: seq<Agent>, totalPosts: nat, submoltCounts: seq<SubmoltCount>)

  /** `main` up to the statistics. */
  function BuildRoster(lines: seq<Line>): (r: Result<Roster, RosterError>)
    ensures r.Failure? <==> FirstRosterError(lines, 0).Some?
    ensures r.Success? ==> r.value.totalPosts == |PostsOf(lines)|
  {
    match FirstRosterError(lines, 0)
    case Some(e) => Failure(e)
    case None =>
      var posts := PostsOf(lines);
      AcceptedPostsReadable(lines);
      Success(Roster(AgentsOf(posts), |posts|, SubmoltCounts(posts)))
  }

  lemma AcceptedPostsReadable(lines: seq<Line>)
    requires FirstRosterError(lines, 0).None?
    ensures forall p :: p in PostsOf(lines) ==> Readable(p)
  {
    forall p | p in PostsOf(lines)
      ensures Readable(p)
    {
      var i :| 0 <= i < |lines| && lines[i] == Record(p);
      assert Accepted(lines[i]);
    }
  }

  /** The file lists the agents sorted by the name they are filed under. */
  function RosterFile(agents: seq<Agent>): seq<Agent> {
    SortBy(agents, AgentKey, Strings.Less)
  }

  /** With distinct keys the written agents are in strictly ascending key
      order and are the same agents. */
  lemma RosterFileOrder(agents: seq<Agent>)
    requires DistinctBy(agents, AgentKey)
    ensures multiset(RosterFile(agents)) == multiset(agents)
    ensures forall i, j :: 0 <= i < j < |RosterFile(agents)| ==>
      Strings.Less(RosterFile(agents)[i].key, RosterFile(agents)[j].key)
  {
    Strings.LessIsStrictTotalOrder();
    SortBySorted(agents, AgentKey, Strings.Less);
    PermutationKeepsDistinctBy(agents, RosterFile(agents), AgentKey);
    SortedDistinctIsStrict(RosterFile(agents), AgentKey, Strings.Less);
  }

  // ---------------------------------------------------------------------------
  // Statistics

  function PostCounts(agents: seq<Agent>): (r: seq<nat>)
    ensures |r| == |agents|
    ensures forall i :: 0 <= i < |r| ==> r[i] == agents[i].postCount
  {
    seq(|agents|, i requires 0 <= i < |agents| => agents[i].postCount)
  }

  /** "at least `t` posts" */
  function AtLeast(t: nat): nat -> bool {
    c => c >= t
  }

  /** "between `lo` and `hi` posts, both included" */
  function Between(lo: nat, hi: nat): nat -> bool {
    c => lo <= c <= hi
  }

  /** `post_count_distribution` */
  datatype Distribution = Distribution(
    one: nat, twoToFour: nat, fiveToNine: nat, tenToNineteen: nat,
    twentyToFortyNine: nat, fiftyToNinetyNine: nat, hundredPlus: nat)

  function Distribute(counts: seq<nat>): Distribution {
    Distribution(
      Count(counts, Between(1, 1)), Count(counts, Between(2, 4)), Count(counts, Between(5, 9)),
      Count(counts, Between(10, 19)), Count(counts, Between(20, 49)), Count(counts, Between(50, 99)),
      Count(counts, AtLeast(100)))
  }

  function BucketTotal(d: Distribution): nat {
    d.one + d.twoToFour + d.fiveToNine + d.tenToNineteen + d.twentyToFortyNine + d.fiftyToNinetyNine + d.hundredPlus
  }

  /** Every count of at least 1 lands in exactly one bucket, so the buckets add
      up to the number of agents; and the buckets from 5 up add up to
      `agents_with_5plus_posts`. */
  lemma {:induction false} DistributionPartitions(counts: seq<nat>)
    requires forall i :: 0 <= i < |counts| ==> counts[i] >= 1
    ensures BucketTotal(Distribute(counts)) == |counts|
    ensures Count(counts, AtLeast(5)) == Distribute(counts).fiveToNine + Distribute(counts).tenToNineteen +
      Distribute(counts).twentyToFortyNine + Distribute(counts).fiftyToNinetyNine + Distribute(counts).hundredPlus
  {
    if |counts| > 0 {
      DistributionPartitions(counts[1..]);
    }
  }

  /** `agents_with_5plus_posts >= 10plus >= 20plus >= 50plus` */
  lemma ThresholdsNested(counts: seq<nat>)
    ensures Count(counts, AtLeast(5)) >= Count(counts, AtLeast(10)) >= Count(counts, AtLeast(20)) >= Count(counts, AtLeast(50))
  {
    FilterWeaker(counts, AtLeast(10), AtLeast(5));
    FilterWeaker(counts, AtLeast(20), AtLeast(10));
    FilterWeaker(counts, AtLeast(50), AtLeast(20));
  }

  /** An entry of `top_20_posters`. */
  datatype TopPoster = TopPoster(name: string, posts: nat, first: string, submolts: seq<string>)

  function Summary(a: Agent): (t: TopPoster)
    ensures t.name == a.name && t.posts == a.postCount
    ensures t.first <= a.firstPost && |t.first| == Min(16, |a.firstPost|)
    ensures t.submolts <= a.submolts && |t.submolts| == Min(5, |a.submolts|)
  {
    TopPoster(a.name, a.postCount, Take(a.firstPost, 16), Take(a.submolts, 5))
  }

  function NegPostCount(a: Agent): int {
    -(a.postCount as int)
  }

  /** The agents by decreasing post count, ties in roster order. */
  function Ranked(agents: seq<Agent>): seq<Agent> {
    SortBy(agents, NegPostCount, IntLess)
  }

  function TopPosters(agents: seq<Agent>): (r: seq<TopPoster>)
    ensures |r| == Min(20, |agents|)
    ensures forall i :: 0 <= i < |r| ==> r[i] == Summary(Ranked(agents)[i])
  {
    var top := Take(Ranked(agents), 20);
    seq(|top|, i requires 0 <= i < |top| => Summary(top[i]))
  }

  /** At most 20 posters, in non-increasing post count, each one of the
      agents, and no agent left out has more posts than any agent listed. */
  lemma TopPostersSpec(agents: seq<Agent>)
    ensures |TopPosters(agents)| <= 20
    ensures forall i, j :: 0 <= i < j < |TopPosters(agents)| ==> TopPosters(agents)[i].posts >= TopPosters(agents)[j].posts
    ensures forall i :: 0 <= i < |TopPosters(agents)| ==> exists a :: a in agents && TopPosters(agents)[i] == Summary(a)
    ensures forall a, i :: a in agents && 0 <= i < |TopPosters(agents)| && a.postCount > TopPosters(agents)[i].posts ==>
      Summary(a) in TopPosters(agents)
  {
    var ranked := Ranked(agents);
    var top := TopPosters(agents);
    IntLessIsStrictTotalOrder();
    SortBySorted(agents, NegPostCount, IntLess);
    forall i, j | 0 <= i < j < |ranked|
      ensures ranked[i].postCount >= ranked[j].postCount
    {
      assert !IntLess(NegPostCount(ranked[j]), NegPostCount(ranked[i]));
    }
    forall i | 0 <= i < |top|
      ensures exists a :: a in agents && top[i] == Summary(a)
    {
      assert ranked[i] in multiset(agents);
    }
    forall a, i | a in agents && 0 <= i < |top| && a.postCount > top[i].posts
      ensures Summary(a) in top
    {
      assert a in multiset(ranked);
      var m :| 0 <= m < |ranked| && ranked[m] == a;
      assert m < |top|;
      assert top[m] == Summary(a);
    }
  }

  /** `stats` */
  datatype Stats = Stats(
    totalPosts: nat,
    totalAgents: nat,
    withFivePlus: nat,
    withTenPlus: nat,
    withTwentyPlus: nat,
    withFiftyPlus: nat,
    topPosters: seq<TopPoster>,
    submoltPostCounts: seq<SubmoltCount>,
    distribution: Distribution)

  function ComputeStats(r: Roster): Stats {
    var counts := PostCounts(r.agents);
    Stats(r.totalPosts, |r.agents|,
      Count(counts, AtLeast(5)), Count(counts, AtLeast(10)), Count(counts, AtLeast(20)), Count(counts, AtLeast(50)),
      TopPosters(r.agents), r.submoltCounts, Distribute(counts))
  }

  /** For any roster the script builds: the distribution buckets add up to
      `total_agents`, the thresholds are nested, and the agents' posts plus
      the authorless records make up `total_posts`. */
  lemma StatsConsistent(lines: seq<Line>)
    requires BuildRoster(lines).Success?
    ensures BucketTotal(ComputeStats(BuildRoster(lines).value).distribution) == ComputeStats(BuildRoster(lines).value).totalAgents
    ensures ComputeStats(BuildRoster(lines).value).withFivePlus >= ComputeStats(BuildRoster(lines).value).withTenPlus
      >= ComputeStats(BuildRoster(lines).value).withTwentyPlus >= ComputeStats(BuildRoster(lines).value).withFiftyPlus
    ensures SumOf(BuildRoster(lines).value.agents, PostCount) + Count(PostsOf(lines), Not(Authored))
      == ComputeStats(BuildRoster(lines).value).totalPosts
  {
    var posts := PostsOf(lines);
    AcceptedPostsReadable(lines);
    var agents := BuildRoster(lines).value.agents;
    assert agents == AgentsOf(posts);
    var counts := PostCounts(agents);
    AgentsSpec(posts);
    DistributionPartitions(counts);
    ThresholdsNested(counts);
    TotalPostsSplit(posts);
  }
}
