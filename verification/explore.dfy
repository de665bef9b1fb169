/** The counting in explore_results.py over the classified posts: when each
    label first shows up in an agent's posts, which labels an agent's first
    post carries and whether consciousness or sovereignty came first, and at
    which post sovereignty first appears for the agents who posted it. */
module Explore {
  import opened Wrappers
  import opened Seqs
  import opened Ordering
  import opened Grouping
  import opened Schemas
  import opened Records
  import Strings

  type Post = ClassifiedRecord
  type AgentPosts = seq<Bucket<string, Post>>

  function AuthorOf(p: Post): Option<string> {
    Some(p.author)
  }

  function PostNumber(p: Post): int {
    p.postNumber
  }

  /** `defaultdict(list)` filled by `agents[p["author"]].append(p)`. */
  function ByAuthor(posts: seq<Post>): AgentPosts {
    GroupBy(posts, AuthorOf)
  }

  /** `sort(key=lambda x: x["post_number"])` */
  function ByNumber(ps: seq<Post>): seq<Post> {
    SortBy(ps, PostNumber, IntLess)
  }

  /** The `post_number` of the first post of `ps` that `keep` accepts: the
      `for ... break` search. */
  function FirstNumber(ps: seq<Post>, keep: Post -> bool): (r: Option<int>)
    ensures r.None? <==> forall i :: 0 <= i < |ps| ==> !keep(ps[i])
  {
    if |ps| == 0 then None
    else if keep(ps[0]) then Some(ps[0].postNumber)
    else FirstNumber(ps[1..], keep)
  }

  lemma {:induction false} FirstNumberIsFirst(ps: seq<Post>, keep: Post -> bool)
    requires FirstNumber(ps, keep).Some?
    ensures exists i ::
      && 0 <= i < |ps| && keep(ps[i]) && FirstNumber(ps, keep).value == ps[i].postNumber
      && (forall j :: 0 <= j < i ==> !keep(ps[j]))
  {
    if !keep(ps[0]) {
      FirstNumberIsFirst(ps[1..], keep);
      var i :| 0 <= i < |ps[1..]| && keep(ps[1..][i]) && FirstNumber(ps, keep).value == ps[1..][i].postNumber &&
        (forall j :: 0 <= j < i ==> !keep(ps[1..][j]));
      assert keep(ps[i + 1]) && forall j :: 0 <= j < i + 1 ==> !keep(ps[j]);
    } else {
      assert keep(ps[0]);
    }
  }

  /** On posts ordered by `post_number`, the first accepted post has the
      smallest number among the accepted ones. */
  lemma FirstNumberIsLeast(sorted: seq<Post>, keep: Post -> bool)
    requires Sorted(sorted, PostNumber, IntLess) && FirstNumber(sorted, keep).Some?
    ensures forall q :: q in sorted && keep(q) ==> FirstNumber(sorted, keep).value <= q.postNumber
  {
    FirstNumberIsFirst(sorted, keep);
    var i :| 0 <= i < |sorted| && keep(sorted[i]) && FirstNumber(sorted, keep).value == sorted[i].postNumber &&
      (forall j :: 0 <= j < i ==> !keep(sorted[j]));
    forall q | q in sorted && keep(q)
      ensures sorted[i].postNumber <= q.postNumber
    {
      var k :| 0 <= k < |sorted| && sorted[k] == q;
      if k > i {
        assert !IntLess(PostNumber(sorted[k]), PostNumber(sorted[i]));
      }
    }
  }

  /** The search over any ordering by `post_number` of `items` finds an
      accepted item's number, and the smallest one. */
  lemma LeastAmong(items: seq<Post>, sorted: seq<Post>, keep: Post -> bool)
    requires multiset(sorted) == multiset(items) && Sorted(sorted, PostNumber, IntLess)
    ensures FirstNumber(sorted, keep).Some? <==> exists q :: q in items && keep(q)
    ensures FirstNumber(sorted, keep).Some? ==>
      && (exists q :: q in items && keep(q) && q.postNumber == FirstNumber(sorted, keep).value)
      && (forall q :: q in items && keep(q) ==> FirstNumber(sorted, keep).value <= q.postNumber)
  {
    if q :| q in items && keep(q) {
      assert q in multiset(sorted);
    }
    if FirstNumber(sorted, keep).Some? {
      FirstNumberIsLeast(sorted, keep);
      FirstNumberIsFirst(sorted, keep);
      var i :| 0 <= i < |sorted| && keep(sorted[i]) && FirstNumber(sorted, keep).value == sorted[i].postNumber;
      assert sorted[i] in multiset(items);
      forall q | q in items && keep(q)
        ensures FirstNumber(sorted, keep).value <= q.postNumber
      {
        assert q in multiset(sorted);
      }
    }
  }

  /** On an agent's posts ordered by `post_number`, the search finds the
      smallest `post_number` among the accepted posts, and finds one exactly
      when some post is accepted. */
  lemma EarliestNumber(items: seq<Post>, keep: Post -> bool)
    ensures FirstNumber(ByNumber(items), keep).Some? <==> exists q :: q in items && keep(q)
    ensures FirstNumber(ByNumber(items), keep).Some? ==>
      && (exists q :: q in items && keep(q) && q.postNumber == FirstNumber(ByNumber(items), keep).value)
      && (forall q :: q in items && keep(q) ==> FirstNumber(ByNumber(items), keep).value <= q.postNumber)
  {
    IntLessIsStrictTotalOrder();
    SortBySorted(items, PostNumber, IntLess);
    LeastAmong(items, ByNumber(items), keep);
  }

  // ---------------------------------------------------------------------------
  // time_to_first

  /** "has the label and is not spam" */
  function LabelledNotSpam(l: Label): Post -> bool {
    (p: Post) => HasLabel(p.verdict, l) && !p.verdict.isSpam
  }

  /** For each agent in turn, the post number at which the label first
      occurs, None when it never does. */
  function Occurrences(agents: AgentPosts, l: Label): (r: seq<Option<int>>)
    ensures |r| == |agents|
    ensures forall i :: 0 <= i < |r| ==> r[i] == FirstNumber(ByNumber(agents[i].items), LabelledNotSpam(l))
  {
    seq(|agents|, i requires 0 <= i < |agents| => FirstNumber(ByNumber(agents[i].items), LabelledNotSpam(l)))
  }

  /** The found values, in order: `first_occurrence[label]`. */
  function Found(outs: seq<Option<int>>): seq<int> {
    if |outs| == 0 then []
    else (if outs[0].Some? then [outs[0].value] else []) + Found(outs[1..])
  }

  /** How many were not found: `never_posted[label]`. */
  function Missed(outs: seq<Option<int>>): nat {
    if |outs| == 0 then 0
    else (if outs[0].None? then 1 else 0) + Missed(outs[1..])
  }

  /** Every search either finds a value or counts towards `never`. */
  lemma {:induction false} FoundPlusMissed(outs: seq<Option<int>>)
    ensures |Found(outs)| + Missed(outs) == |outs|
    ensures forall x :: x in Found(outs) <==> Some(x) in outs
  {
    if |outs| > 0 {
      FoundPlusMissed(outs[1..]);
      assert outs == [outs[0]] + outs[1..];
    }
  }

  /** One label's result of the analysis. */
  datatype LabelTiming = LabelTiming(subject: Label, firsts: seq<int>, never: nat)

  function TimingFor(agents: AgentPosts, l: Label): LabelTiming {
    var outs := Occurrences(agents, l);
    LabelTiming(l, Found(outs), Missed(outs))
  }

  /** `time_to_first`: one timing per label, in `LABELS` order, over the agents
      grouped by author. */
  function TimeToFirst(posts: seq<Post>): (r: seq<LabelTiming>)
    ensures |r| == |Labels|
    ensures forall i :: 0 <= i < |r| ==> r[i] == TimingFor(ByAuthor(posts), Labels[i])
  {
    seq(|Labels|, i requires 0 <= i < |Labels| => TimingFor(ByAuthor(posts), Labels[i]))
  }

  /** For every label, the agents with a first occurrence and those who never
      posted it make up all agents, and each recorded first occurrence is the
      smallest post number among that agent's non-spam posts with the label. */
  lemma TimeToFirstSpec(posts: seq<Post>, i: nat)
    requires i < |Labels|
    ensures |TimeToFirst(posts)[i].firsts| + TimeToFirst(posts)[i].never == |ByAuthor(posts)|
    ensures forall k :: 0 <= k < |ByAuthor(posts)| ==>
      var agentPosts := ByAuthor(posts)[k].items;
      var found := Occurrences(ByAuthor(posts), Labels[i])[k];
      && (found.Some? <==> exists q :: q in agentPosts && HasLabel(q.verdict, Labels[i]) && !q.verdict.isSpam)
      && (found.Some? ==> found.value in TimeToFirst(posts)[i].firsts)
      && (found.Some? ==>
            forall q :: q in agentPosts && HasLabel(q.verdict, Labels[i]) && !q.verdict.isSpam ==> found.value <= q.postNumber)
  {
    var agents := ByAuthor(posts);
    var l := Labels[i];
    var outs := Occurrences(agents, l);
    FoundPlusMissed(outs);
    forall k | 0 <= k < |agents|
      ensures var found := outs[k];
        && (found.Some? <==> exists q :: q in agents[k].items && HasLabel(q.verdict, l) && !q.verdict.isSpam)
        && (found.Some? ==> found.value in Found(outs))
        && (found.Some? ==>
              forall q :: q in agents[k].items && HasLabel(q.verdict, l) && !q.verdict.isSpam ==> found.value <= q.postNumber)
    {
      EarliestNumber(agents[k].items, LabelledNotSpam(l));
      assert forall q :: LabelledNotSpam(l)(q) == (HasLabel(q.verdict, l) && !q.verdict.isSpam);
      if outs[k].Some? {
        assert Some(outs[k].value) in outs;
      }
    }
  }

  function IntId(x: int): int {
    x
  }

  /** `sorted(firsts)[len(firsts) // 2]`, for a non-empty list. */
  function Median(firsts: seq<int>): int
    requires |firsts| > 0
  {
    SortBy(firsts, IntId, IntLess)[|firsts| / 2]
  }

  /** The median is one of the values; in the sorted list every value before
      it is at most it and every value after it at least it. */
  lemma MedianSpec(firsts: seq<int>)
    requires |firsts| > 0
    ensures Median(firsts) in firsts
    ensures var sorted := SortBy(firsts, IntId, IntLess);
      multiset(sorted) == multiset(firsts) &&
      (forall k :: 0 <= k < |firsts| / 2 ==> sorted[k] <= Median(firsts)) &&
      (forall k :: |firsts| / 2 < k < |firsts| ==> Median(firsts) <= sorted[k])
  {
    var sorted := SortBy(firsts, IntId, IntLess);
    IntLessIsStrictTotalOrder();
    SortBySorted(firsts, IntId, IntLess);
    assert sorted[|firsts| / 2] in multiset(firsts);
    forall k | 0 <= k < |firsts| / 2
      ensures sorted[k] <= Median(firsts)
    {
      assert !IntLess(IntId(sorted[|firsts| / 2]), IntId(sorted[k]));
    }
    forall k | |firsts| / 2 < k < |firsts|
      ensures Median(firsts) <= sorted[k]
    {
      assert !IntLess(IntId(sorted[k]), IntId(sorted[|firsts| / 2]));
    }
  }

  /** What is reported for a label that occurred at all: how many agents
      ever posted it, the median first occurrence, and how many agents had it
      on their first post. */
  datatype TimingSummary = TimingSummary(ever: int, median: int, onFirstPost: nat)

  function IsOne(x: int): bool {
    x == 1
  }

  function Summarize(t: LabelTiming, totalAgents: nat): (r: Option<TimingSummary>)
    ensures r.None? <==> t.firsts == []
  {
    if |t.firsts| == 0 then None
    else Some(TimingSummary(totalAgents - t.never, Median(t.firsts), Count(t.firsts, IsOne)))
  }

  /** `ever = total_agents - never` is the number of recorded first
      occurrences, and the agents whose first post had the label are among them. */
  lemma SummaryCounts(posts: seq<Post>, i: nat)
    requires i < |Labels| && TimeToFirst(posts)[i].firsts != []
    ensures Summarize(TimeToFirst(posts)[i], |ByAuthor(posts)|).value.ever == |TimeToFirst(posts)[i].firsts|
    ensures Summarize(TimeToFirst(posts)[i], |ByAuthor(posts)|).value.onFirstPost <= |TimeToFirst(posts)[i].firsts|
  {
    TimeToFirstSpec(posts, i);
  }

  // ---------------------------------------------------------------------------
  // trajectory_patterns

  function NotSpam(p: Post): bool {
    !p.verdict.isSpam
  }

  /** The agents of the non-spam posts only. */
  function NonSpamByAuthor(posts: seq<Post>): AgentPosts {
    GroupBy(Filter(posts, NotSpam), AuthorOf)
  }

  function ByAuthorNotSpam(author: string): Post -> bool {
    (p: Post) => p.author == author && !p.verdict.isSpam
  }

  /** Spam is dropped before grouping: an author appears exactly when it has
      at least one non-spam post, and then with exactly its non-spam posts. */
  lemma NonSpamAgents(posts: seq<Post>, author: string)
    ensures author in Keys(NonSpamByAuthor(posts)) <==> exists q :: q in posts && q.author == author && !q.verdict.isSpam
    ensures ItemsAt(NonSpamByAuthor(posts), author) == Filter(posts, ByAuthorNotSpam(author))
  {
    var kept := Filter(posts, NotSpam);
    var both := ByAuthorNotSpam(author);
    GroupByKeys(kept, AuthorOf, author);
    GroupByItems(kept, AuthorOf, author);
    FilterFilter(posts, NotSpam, KeyIs(AuthorOf, Some(author)), both);
    FilterNonEmpty(posts, both);
  }

  function IsSetIn(c: Classification): Label -> bool {
    l => HasLabel(c, l)
  }

  /** The labels `c` sets, in `LABELS` order. */
  function SetLabels(c: Classification): seq<Label> {
    Filter(Labels, IsSetIn(c))
  }

  function Names(ls: seq<Label>): (r: seq<string>)
    ensures |r| == |ls|
    ensures forall i :: 0 <= i < |ls| ==> r[i] == LabelName(ls[i])
  {
    seq(|ls|, i requires 0 <= i < |ls| => LabelName(ls[i]))
  }

  /** `tuple(sorted(l for l in LABELS if post.get(l)))` */
  function Combo(c: Classification): seq<string> {
    SortBy(Names(SetLabels(c)), Strings.Itself, Strings.Less)
  }

  lemma SetLabelsSpec(c: Classification)
    ensures forall l :: l in SetLabels(c) <==> HasLabel(c, l)
  {
    LabelsComplete();
    forall l | HasLabel(c, l)
      ensures l in SetLabels(c)
    {
      assert l in Labels;
      var j :| 0 <= j < |Labels| && Labels[j] == l;
      assert IsSetIn(c)(Labels[j]);
    }
  }

  lemma NamesMembers(ls: seq<Label>, x: string)
    ensures x in Names(ls) <==> exists l :: l in ls && LabelName(l) == x
  {
    if l :| l in ls && LabelName(l) == x {
      var i :| 0 <= i < |ls| && ls[i] == l;
      assert Names(ls)[i] == x;
    }
  }

  lemma SetLabelNames(c: Classification)
    ensures forall x :: x in Names(SetLabels(c)) <==> exists l :: HasLabel(c, l) && LabelName(l) == x
  {
    SetLabelsSpec(c);
    forall x
      ensures x in Names(SetLabels(c)) <==> exists l :: HasLabel(c, l) && LabelName(l) == x
    {
      NamesMembers(SetLabels(c), x);
    }
  }

  lemma NamesDistinct(c: Classification)
    ensures Distinct(Names(SetLabels(c)))
  {
    var names := Names(SetLabels(c));
    FilterDistinct(Labels, IsSetIn(c));
    forall i, j | 0 <= i < j < |names|
      ensures names[i] != names[j]
    {
      LabelNameInjective(SetLabels(c)[i], SetLabels(c)[j]);
    }
  }

  lemma ComboAscending(c: Classification)
    ensures forall i, j :: 0 <= i < j < |Combo(c)| ==> Strings.Less(Combo(c)[i], Combo(c)[j])
  {
    var names := Names(SetLabels(c));
    NamesDistinct(c);
    Strings.LessIsStrictTotalOrder();
    SortBySorted(names, Strings.Itself, Strings.Less);
    PermutationKeepsDistinct(names, Combo(c));
    assert DistinctBy(Combo(c), Strings.Itself);
    SortedDistinctIsStrict(Combo(c), Strings.Itself, Strings.Less);
  }

  /** A first-post combination is strictly ascending, so each name once, and
      names exactly the labels the post carries. */
  lemma ComboSpec(c: Classification)
    ensures forall i, j :: 0 <= i < j < |Combo(c)| ==> Strings.Less(Combo(c)[i], Combo(c)[j])
    ensures forall x :: x in Combo(c) <==> exists l :: HasLabel(c, l) && LabelName(l) == x
  {
    ComboAscending(c);
    SetLabelNames(c);
    ComboSameNames(c);
  }

  lemma ComboSameNames(c: Classification)
    ensures forall x :: x in Combo(c) <==> x in Names(SetLabels(c))
  {
    var names := Names(SetLabels(c));
    forall x
      ensures x in Combo(c) <==> x in names
    {
      assert x in Combo(c) <==> x in multiset(Combo(c));
      assert x in names <==> x in multiset(names);
    }
  }

  /** The first post of a non-empty list ordered by `post_number` is one of
      the posts with the smallest number. */
  lemma FirstPostIsEarliest(items: seq<Post>)
    requires |items| > 0
    ensures ByNumber(items)[0] in items
    ensures forall q :: q in items ==> ByNumber(items)[0].postNumber <= q.postNumber
  {
    var sorted := ByNumber(items);
    IntLessIsStrictTotalOrder();
    SortBySorted(items, PostNumber, IntLess);
    assert sorted[0] in multiset(items);
    forall q | q in items
      ensures sorted[0].postNumber <= q.postNumber
    {
      assert q in multiset(sorted);
      var k :| 0 <= k < |sorted| && sorted[k] == q;
      if k > 0 {
        assert !IntLess(PostNumber(sorted[k]), PostNumber(sorted[0]));
      }
    }
  }

  /** `first_post_labels`: the Counter of first-post combinations, one per
      agent with posts. */
  function FirstCombos(agents: AgentPosts): multiset<seq<string>> {
    if |agents| == 0 then multiset{}
    else
      var sorted := ByNumber(agents[0].items);
      (if |sorted| > 0 then multiset{Combo(sorted[0].verdict)} else multiset{}) + FirstCombos(agents[1..])
  }

  /** Every grouped agent contributes exactly one combination. */
  lemma {:induction false} FirstCombosCount(agents: AgentPosts)
    requires NonEmptyBuckets(agents)
    ensures |FirstCombos(agents)| == |agents|
  {
    if |agents| > 0 {
      FirstCombosCount(agents[1..]);
    }
  }

  /** Which of consciousness and sovereignty an agent posted first. */
  datatype Precedence = ConsciousnessFirst | SovereigntyFirst | SamePost | Neither | OnlyOne

  function Labelled(l: Label): Post -> bool {
    (p: Post) => HasLabel(p.verdict, l)
  }

  /** The post number of the agent's first post with the label, None if none. */
  function FirstWith(b: Bucket<string, Post>, l: Label): Option<int> {
    FirstNumber(ByNumber(b.items), Labelled(l))
  }

  /** The comparison of `c_first` and `s_first` for one agent. */
  function PrecedenceOf(b: Bucket<string, Post>): Precedence {
    var c := FirstWith(b, Consciousness);
    var s := FirstWith(b, Sovereignty);
    if c.Some? && s.Some? then
      if c.value < s.value then ConsciousnessFirst
      else if s.value < c.value then SovereigntyFirst
      else SamePost
    else if c.None? && s.None? then Neither
    else OnlyOne
  }

  /** `c_first` is found exactly when the agent has a post with the label, and
      it is the smallest post number among those posts. */
  lemma FirstWithSpec(b: Bucket<string, Post>, l: Label)
    ensures FirstWith(b, l).Some? <==> exists q :: q in b.items && HasLabel(q.verdict, l)
    ensures FirstWith(b, l).Some? ==>
      && (exists q :: q in b.items && HasLabel(q.verdict, l) && q.postNumber == FirstWith(b, l).value)
      && (forall q :: q in b.items && HasLabel(q.verdict, l) ==> FirstWith(b, l).value <= q.postNumber)
  {
    EarliestNumber(b.items, Labelled(l));
    assert forall q :: Labelled(l)(q) == HasLabel(q.verdict, l);
  }

  function HasBoth(b: Bucket<string, Post>): bool {
    FirstWith(b, Consciousness).Some? && FirstWith(b, Sovereignty).Some?
  }

  function HasNeither(b: Bucket<string, Post>): bool {
    FirstWith(b, Consciousness).None? && FirstWith(b, Sovereignty).None?
  }

  lemma {:induction false} PrecedenceCounts<T>(s: seq<T>, f: T -> Precedence, both: T -> bool, neither: T -> bool)
    requires forall x :: both(x) == (f(x).ConsciousnessFirst? || f(x).SovereigntyFirst? || f(x).SamePost?)
    requires forall x :: neither(x) == f(x).Neither?
    ensures Count(s, KeyIs(f, ConsciousnessFirst)) + Count(s, KeyIs(f, SovereigntyFirst))
      + Count(s, KeyIs(f, SamePost)) == Count(s, both)
    ensures Count(s, KeyIs(f, Neither)) == Count(s, neither)
    ensures Count(s, both) + Count(s, neither) + Count(s, KeyIs(f, OnlyOne)) == |s|
  {
    if |s| > 0 {
      PrecedenceCounts(s[1..], f, both, neither);
      CountStep(s, KeyIs(f, ConsciousnessFirst));
      CountStep(s, KeyIs(f, SovereigntyFirst));
      CountStep(s, KeyIs(f, SamePost));
      CountStep(s, KeyIs(f, Neither));
      CountStep(s, KeyIs(f, OnlyOne));
      CountStep(s, both);
      CountStep(s, neither);
    }
  }

  /** The five outcomes partition the agents; the three counted for agents
      with both labels are exactly those with both, and `neither` those
      with neither. */
  lemma PrecedencePartition(agents: AgentPosts)
    ensures Count(agents, KeyIs(PrecedenceOf, ConsciousnessFirst)) + Count(agents, KeyIs(PrecedenceOf, SovereigntyFirst))
      + Count(agents, KeyIs(PrecedenceOf, SamePost)) == Count(agents, HasBoth)
    ensures Count(agents, KeyIs(PrecedenceOf, Neither)) == Count(agents, HasNeither)
    ensures Count(agents, HasBoth) + Count(agents, HasNeither) + Count(agents, KeyIs(PrecedenceOf, OnlyOne)) == |agents|
  {
    PrecedenceCounts(agents, PrecedenceOf, HasBoth, HasNeither);
  }

  /** Both directions of "has both labels" and "has neither", in terms of the
      agent's posts. */
  lemma BothAndNeither(b: Bucket<string, Post>)
    ensures HasBoth(b) <==>
      (exists q :: q in b.items && q.verdict.consciousness) && (exists q :: q in b.items && q.verdict.sovereignty)
    ensures HasNeither(b) <==>
      (forall q :: q in b.items ==> !q.verdict.consciousness && !q.verdict.sovereignty)
  {
    FirstWithSpec(b, Consciousness);
    FirstWithSpec(b, Sovereignty);
  }

  /** What `trajectory_patterns` computes. */
  datatype Trajectory = Trajectory(
    combos: multiset<seq<string>>,
    consciousnessFirst: nat,
    sovereigntyFirst: nat,
    bothSame: nat,
    neither: nat)

  function TrajectoryPatterns(posts: seq<Post>): Trajectory {
    var agents := NonSpamByAuthor(posts);
    Trajectory(FirstCombos(agents),
      Count(agents, KeyIs(PrecedenceOf, ConsciousnessFirst)),
      Count(agents, KeyIs(PrecedenceOf, SovereigntyFirst)),
      Count(agents, KeyIs(PrecedenceOf, SamePost)),
      Count(agents, KeyIs(PrecedenceOf, Neither)))
  }

  /** One combination per agent with a non-spam post; the three ordering
      counts add up to the agents with both labels, and no more than all
      agents are counted. */
  lemma TrajectorySpec(posts: seq<Post>)
    ensures |TrajectoryPatterns(posts).combos| == |NonSpamByAuthor(posts)|
    ensures TrajectoryPatterns(posts).consciousnessFirst + TrajectoryPatterns(posts).sovereigntyFirst
      + TrajectoryPatterns(posts).bothSame == Count(NonSpamByAuthor(posts), HasBoth)
    ensures TrajectoryPatterns(posts).neither == Count(NonSpamByAuthor(posts), HasNeither)
    ensures TrajectoryPatterns(posts).consciousnessFirst + TrajectoryPatterns(posts).sovereigntyFirst
      + TrajectoryPatterns(posts).bothSame + TrajectoryPatterns(posts).neither <= |NonSpamByAuthor(posts)|
  {
    var agents := NonSpamByAuthor(posts);
    GroupByShape(Filter(posts, NotSpam), AuthorOf);
    FirstCombosCount(agents);
    PrecedencePartition(agents);
  }

  // ---------------------------------------------------------------------------
  // sovereignty_provenance

  function SovereignNotSpam(p: Post): bool {
    p.verdict.sovereignty && !p.verdict.isSpam
  }

  function PostCreatedAt(p: Post): string {
    p.createdAt
  }

  function Author(p: Post): string {
    p.author
  }

  /** `sov_posts`, sorted by `created_at`. */
  function SovereigntyPosts(posts: seq<Post>): seq<Post> {
    SortBy(Filter(posts, SovereignNotSpam), PostCreatedAt, Strings.Less)
  }

  function Authors(ps: seq<Post>): (r: seq<string>)
    ensures |r| == |ps|
    ensures forall i :: 0 <= i < |ps| ==> r[i] == ps[i].author
  {
    seq(|ps|, i requires 0 <= i < |ps| => ps[i].author)
  }

  /** Where sovereignty first appears in an agent's posts. */
  datatype Appearance = OnFirstPost | Early | Late | NotFound

  function FirstSovereignty(agents: AgentPosts, author: string): Appearance {
    var n := FirstNumber(ByNumber(ItemsAt(agents, author)), SovereignNotSpam);
    if n.None? then NotFound
    else if n.value == 1 then OnFirstPost
    else if n.value <= 3 then Early
    else Late
  }

  function AppearanceIs(agents: AgentPosts, k: Appearance): string -> bool {
    a => FirstSovereignty(agents, a) == k
  }

  datatype Provenance = Provenance(
    sovPosts: seq<Post>,
    sovAgents: seq<string>,
    firstPost: nat,
    early: nat,
    late: nat)

  /** `sovereignty_provenance`: nothing is counted when there is no
      sovereignty post. `sov_agents` is a set; it is listed here once per
      author, which leaves the counts unchanged. */
  function SovereigntyProvenance(posts: seq<Post>): (r: Option<Provenance>)
    ensures r.None? <==> forall i :: 0 <= i < |posts| ==> !SovereignNotSpam(posts[i])
  {
    var sov := SovereigntyPosts(posts);
    FilterNonEmpty(posts, SovereignNotSpam);
    if |sov| == 0 then None
    else
      var sovAgents := SovAgents(posts);
      var agents := ByAuthor(posts);
      Some(Provenance(sov, sovAgents,
        Count(sovAgents, AppearanceIs(agents, OnFirstPost)),
        Count(sovAgents, AppearanceIs(agents, Early)),
        Count(sovAgents, AppearanceIs(agents, Late))))
  }

  /** The sovereignty posts are the non-spam posts with the label, stably
      sorted by `created_at`. */
  lemma SovereigntyPostsSorted(posts: seq<Post>)
    ensures IsStableSortOf(SovereigntyPosts(posts), Filter(posts, SovereignNotSpam), PostCreatedAt, Strings.Less)
  {
    Strings.LessIsStrictTotalOrder();
    SortByIsStableSort(Filter(posts, SovereignNotSpam), PostCreatedAt, Strings.Less);
  }

  lemma {:induction false} AppearancePartition(s: seq<string>, agents: AgentPosts)
    ensures Count(s, AppearanceIs(agents, OnFirstPost)) + Count(s, AppearanceIs(agents, Early))
      + Count(s, AppearanceIs(agents, Late)) + Count(s, AppearanceIs(agents, NotFound)) == |s|
  {
    if |s| > 0 {
      AppearancePartition(s[1..], agents);
    }
  }

  /** An author's own posts, as grouped, include each of its posts. */
  lemma OwnPostGrouped(posts: seq<Post>, p: Post)
    requires p in posts
    ensures p in ItemsAt(ByAuthor(posts), p.author)
  {
    var f := KeyIs(AuthorOf, Some(p.author));
    GroupByItems(posts, AuthorOf, p.author);
    var j :| 0 <= j < |posts| && posts[j] == p;
    assert f(posts[j]);
  }

  /** An author of a non-spam sovereignty post always has one among its own posts. */
  lemma SovereignAuthorFound(posts: seq<Post>, p: Post)
    requires p in posts && SovereignNotSpam(p)
    ensures FirstSovereignty(ByAuthor(posts), p.author) != NotFound
  {
    var items := ItemsAt(ByAuthor(posts), p.author);
    OwnPostGrouped(posts, p);
    EarliestNumber(items, SovereignNotSpam);
  }

  lemma SovAgentsFound(posts: seq<Post>)
    ensures forall a :: a in Dedup(Authors(SovereigntyPosts(posts))) ==> FirstSovereignty(ByAuthor(posts), a) != NotFound
  {
    var sov := SovereigntyPosts(posts);
    var kept := Filter(posts, SovereignNotSpam);
    forall a | a in Dedup(Authors(sov))
      ensures FirstSovereignty(ByAuthor(posts), a) != NotFound
    {
      var i :| 0 <= i < |sov| && Authors(sov)[i] == a;
      assert sov[i] in multiset(kept);
      SovereignAuthorFound(posts, sov[i]);
    }
  }

  lemma SovAgentsAreAuthors(posts: seq<Post>, a: string)
    ensures a in Dedup(Authors(SovereigntyPosts(posts))) <==> exists p :: p in posts && SovereignNotSpam(p) && p.author == a
  {
    var sov := SovereigntyPosts(posts);
    var kept := Filter(posts, SovereignNotSpam);
    if a in Dedup(Authors(sov)) {
      var i :| 0 <= i < |sov| && Authors(sov)[i] == a;
      assert sov[i] in multiset(kept);
    }
    if p :| p in posts && SovereignNotSpam(p) && p.author == a {
      var j :| 0 <= j < |posts| && posts[j] == p;
      assert p in kept;
      assert p in multiset(sov);
      var i :| 0 <= i < |sov| && sov[i] == p;
      assert Authors(sov)[i] == a;
    }
  }

  /** The agents with a sovereignty post, once each, and how many of them
      fall in each bucket. */
  function SovAgents(posts: seq<Post>): seq<string> {
    Dedup(Authors(SovereigntyPosts(posts)))
  }

  lemma BucketsCoverSovAgents(posts: seq<Post>)
    ensures Count(SovAgents(posts), AppearanceIs(ByAuthor(posts), OnFirstPost))
      + Count(SovAgents(posts), AppearanceIs(ByAuthor(posts), Early))
      + Count(SovAgents(posts), AppearanceIs(ByAuthor(posts), Late)) == |SovAgents(posts)|
  {
    var sovAgents := SovAgents(posts);
    var agents := ByAuthor(posts);
    SovAgentsFound(posts);
    FilterNone(sovAgents, AppearanceIs(agents, NotFound));
    AppearancePartition(sovAgents, agents);
  }

  /** Every agent with a non-spam sovereignty post lands in exactly one of the
      three buckets, so they add up to the number of such agents; those
      agents are listed once each, and are exactly the authors of such posts. */
  lemma ProvenancePartition(posts: seq<Post>, sovereign: Post)
    requires sovereign in posts && SovereignNotSpam(sovereign)
    ensures SovereigntyProvenance(posts).Some?
    ensures var r := SovereigntyProvenance(posts).value;
      r.firstPost + r.early + r.late == |r.sovAgents|
    ensures Distinct(SovereigntyProvenance(posts).value.sovAgents)
    ensures forall a :: a in SovereigntyProvenance(posts).value.sovAgents <==>
      exists p :: p in posts && SovereignNotSpam(p) && p.author == a
  {
    var k :| 0 <= k < |posts| && posts[k] == sovereign;
    var r := SovereigntyProvenance(posts).value;
    assert r.sovAgents == SovAgents(posts);
    BucketsCoverSovAgents(posts);
    forall a
      ensures a in r.sovAgents <==> exists p :: p in posts && SovereignNotSpam(p) && p.author == a
    {
      SovAgentsAreAuthors(posts, a);
    }
  }
}
