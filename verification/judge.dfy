/** judge.py: rendering one post into the judge's user message, rendering the
    few-shot examples, and `classify_posts`, which runs the judge on a batch
    and reassembles the successes in input order. The judge itself is not
    modelled: each call's answer is a given `Option<Classification>` (None when
    the call raised), and the thread pool is a fold over the order in which the
    calls completed. */
module Judge {
  import opened Wrappers
  import opened Seqs
  import opened Schemas
  import opened Records
  import Strings

  // ---------------------------------------------------------------------------
  // Message rendering

  const EmptyContent: string := "(empty)"
  const NoTitle: string := "(none)"
  /** Characters of post content sent to the judge. */
  const MaxContentChars: nat := 2000
  /** Characters of example content shown in the few-shot examples. */
  const MaxExampleContentChars: nat := 500

  /** Python's `s or placeholder` for an optional string: None and "" are falsy. */
  function OrElse(s: Option<string>, placeholder: string): (r: string)
    ensures s.None? || s == Some("") ==> r == placeholder
    ensures s.Some? && s.value != "" ==> r == s.value
  {
    match s
    case Some(v) => if v == "" then placeholder else v
    case None => placeholder
  }

  /** `(post.content or "(empty)")[:2000]`: never empty, at most 2000 characters,
      and otherwise the start of the post's own content. */
  function ContentText(content: Option<string>): (r: string)
    ensures 0 < |r| <= MaxContentChars
    ensures content.None? || content == Some("") ==> r == EmptyContent
    ensures content.Some? && content.value != "" ==>
      r <= content.value && |r| == Min(|content.value|, MaxContentChars)
  {
    Take(OrElse(content, EmptyContent), MaxContentChars)
  }

  /** `post.title or "(none)"` */
  function TitleText(title: Option<string>): string {
    OrElse(title, NoTitle)
  }

  /** `USER_TEMPLATE.format(...)`, with each field already rendered. */
  function FillTemplate(author: string, postNumber: int, totalPosts: int, submolt: string, title: string, content: string): string {
    "<post>\nAuthor: " + author
    + "\nPost #" + Strings.IntToString(postNumber) + " of " + Strings.IntToString(totalPosts) + " by this agent"
    + "\nSubmolt: m/" + submolt
    + "\nTitle: " + title
    + "\nContent: " + content
    + "\n</post>"
  }

  /** The number of template characters outside the placeholders. */
  const TemplateChars: nat := |"<post>\nAuthor: "| + |"\nPost #"| + |" of "| + |" by this agent"|
    + |"\nSubmolt: m/"| + |"\nTitle: "| + |"\nContent: "| + |"\n</post>"|

  /** The user message `classify_post` sends for `post`. */
  function UserMessage(post: PostInput): string {
    FillTemplate(post.author, post.postNumber, post.totalPosts, post.submolt,
      TitleText(post.title), ContentText(post.content))
  }

  /** However long the post, its content adds at most 2000 characters to the message. */
  lemma UserMessageBounded(post: PostInput)
    ensures |UserMessage(post)| <= TemplateChars + |post.author|
      + |Strings.IntToString(post.postNumber)| + |Strings.IntToString(post.totalPosts)|
      + |post.submolt| + |TitleText(post.title)| + MaxContentChars
  {
  }

  /** The judge never sees content past the 2000th character: two posts that
      differ only there get the same message. */
  lemma ContentPastLimitUnseen(post: PostInput, other: PostInput)
    requires post.content.Some? && other.content.Some?
    requires post.content.value != "" && other.content.value != ""
    requires |post.content.value| >= MaxContentChars && |other.content.value| >= MaxContentChars
    requires post.content.value[..MaxContentChars] == other.content.value[..MaxContentChars]
    requires other == post.(content := other.content)
    ensures UserMessage(post) == UserMessage(other)
  {
  }

  /** One few-shot example: the input fields as written in `FEWSHOT_EXAMPLES`,
      and its expected output already serialised as JSON. */
  datatype Example = Example(
    author: string,
    submolt: string,
    postNumber: int,
    totalPosts: int,
    title: Field<string>,
    content: Field<string>,
    outputJson: string)

  /** `inp.get("title", "(none)")`: the default only for an absent key; a null
      title prints as "None" and an empty one stays empty. */
  function ExampleTitle(title: Field<string>): string {
    match title
    case Missing => NoTitle
    case Null => "None"
    case Val(v) => v
  }

  /** `(inp.get("content") or "(empty)")[:500]` */
  function ExampleContent(content: Field<string>): (r: string)
    ensures 0 < |r| <= MaxExampleContentChars
    ensures Get(content).None? || Get(content) == Some("") ==> r == EmptyContent
    ensures content.Val? && content.v != "" ==>
      r <= content.v && |r| == Min(|content.v|, MaxExampleContentChars)
  {
    Take(OrElse(Get(content), EmptyContent), MaxExampleContentChars)
  }

  /** The two title rules agree on an absent or non-empty title and differ on a
      null title ("(none)" against "None") and an empty one ("(none)" against ""). */
  lemma TitleRulesCompared(title: Field<string>)
    ensures title.Missing? || (title.Val? && title.v != "") ==> TitleText(Get(title)) == ExampleTitle(title)
    ensures title.Null? ==> TitleText(Get(title)) == "(none)" && ExampleTitle(title) == "None"
    ensures title == Val("") ==> TitleText(Get(title)) == "(none)" && ExampleTitle(title) == ""
  {
  }

  function ExampleBlock(n: int, ex: Example): string {
    "<example n=\"" + Strings.IntToString(n) + "\">\n"
    + FillTemplate(ex.author, ex.postNumber, ex.totalPosts, ex.submolt, ExampleTitle(ex.title), ExampleContent(ex.content))
    + "\n<output>\n" + ex.outputJson + "\n</output>\n</example>"
  }

  /** `"\n".join(blocks)` */
  function JoinLines(blocks: seq<string>): string {
    if |blocks| == 0 then ""
    else if |blocks| == 1 then blocks[0]
    else blocks[0] + "\n" + JoinLines(blocks[1..])
  }

  /** The blocks `format_examples` builds, numbered from 1. */
  function ExampleBlocks(examples: seq<Example>, first: int): (r: seq<string>)
    ensures |r| == |examples|
    decreases |examples|
  {
    if |examples| == 0 then []
    else [ExampleBlock(first, examples[0])] + ExampleBlocks(examples[1..], first + 1)
  }

  /** `format_examples()` for a given list of examples. */
  function FormatExamples(examples: seq<Example>): string {
    JoinLines(ExampleBlocks(examples, 1))
  }

  /** Joining n blocks adds exactly n - 1 separators. */
  lemma {:induction false} JoinLinesLength(blocks: seq<string>)
    ensures |JoinLines(blocks)| == SumLengths(blocks) + (if |blocks| == 0 then 0 else |blocks| - 1)
  {
    if |blocks| > 1 {
      JoinLinesLength(blocks[1..]);
    }
  }

  function SumLengths(blocks: seq<string>): nat {
    if |blocks| == 0 then 0 else |blocks[0]| + SumLengths(blocks[1..])
  }

  // ---------------------------------------------------------------------------
  // classify_posts

  /** What the results dict and the two counters hold. */
  datatype Tally = Tally(results: map<string, (PostInput, Classification)>, errors: nat, completed: nat)

  /** `as_completed` hands back each of the `n` submitted calls exactly once. */
  ghost predicate IsCompletionOrder(order: seq<nat>, n: nat) {
    && |order| == n
    && (forall k :: 0 <= k < |order| ==> order[k] < n)
    && (forall i :: 0 <= i < n ==> i in order)
    && (forall k, m :: 0 <= k < m < |order| ==> order[k] != order[m])
  }

  /** The loop body for one completed call. */
  function RecordOutcome(t: Tally, post: PostInput, outcome: Option<Classification>): Tally {
    match outcome
    case Some(c) => Tally(t.results[post.postId := (post, c)], t.errors, t.completed + 1)
    case None => Tally(t.results, t.errors + 1, t.completed + 1)
  }

  /** The `for future in as_completed(futures)` loop, the calls completing in
      the order `order` (indices into `posts`); call i answered `outcomes[i]`. */
  function Collect(posts: seq<PostInput>, outcomes: seq<Option<Classification>>, order: seq<nat>): (t: Tally)
    requires |outcomes| == |posts|
    requires forall k :: 0 <= k < |order| ==> order[k] < |posts|
    ensures t.completed == |order|
    decreases |order|
  {
    if |order| == 0 then Tally(map[], 0, 0)
    else
      var j := order[|order| - 1];
      RecordOutcome(Collect(posts, outcomes, order[..|order| - 1]), posts[j], outcomes[j])
  }

  /** The closing loop: `[results[p.post_id] for p in posts if p.post_id in results]`. */
  function Reassemble(posts: seq<PostInput>, results: map<string, (PostInput, Classification)>): (r: seq<(PostInput, Classification)>)
    ensures |r| <= |posts|
  {
    if |posts| == 0 then []
    else
      var p := posts[|posts| - 1];
      Reassemble(posts[..|posts| - 1], results) + (if p.postId in results then [results[p.postId]] else [])
  }

  /** `classify_posts(posts)`: the pairs it returns. */
  function ClassifyPosts(posts: seq<PostInput>, outcomes: seq<Option<Classification>>, order: seq<nat>): (r: seq<(PostInput, Classification)>)
    requires |outcomes| == |posts|
    requires IsCompletionOrder(order, |posts|)
    ensures |r| <= |posts|
  {
    Reassemble(posts, Collect(posts, outcomes, order).results)
  }

  /** The reference: each post whose call succeeded, with its own answer, in input order. */
  function Successes(posts: seq<PostInput>, outcomes: seq<Option<Classification>>): seq<(PostInput, Classification)>
    requires |outcomes| == |posts|
  {
    if |posts| == 0 then []
    else
      var n := |posts| - 1;
      Successes(posts[..n], outcomes[..n]) + (if outcomes[n].Some? then [(posts[n], outcomes[n].value)] else [])
  }

  /** The number of calls that raised. */
  function Failures(outcomes: seq<Option<Classification>>): nat {
    if |outcomes| == 0 then 0
    else Failures(outcomes[..|outcomes| - 1]) + (if outcomes[|outcomes| - 1].None? then 1 else 0)
  }

  predicate UniqueIds(posts: seq<PostInput>) {
    forall i, j :: 0 <= i < j < |posts| ==> posts[i].postId != posts[j].postId
  }

  /** The indices among `order` whose call raised. */
  ghost function FailedAmong(order: seq<nat>, outcomes: seq<Option<Classification>>): set<nat> {
    set i | i in order && i < |outcomes| && outcomes[i].None?
  }

  /** What the results dict and error counter hold after the calls in `order`
      have completed, when post ids are unique. */
  lemma {:induction false} CollectInvariant(posts: seq<PostInput>, outcomes: seq<Option<Classification>>, order: seq<nat>)
    requires |outcomes| == |posts| && UniqueIds(posts)
    requires forall k :: 0 <= k < |order| ==> order[k] < |posts|
    requires forall k, m :: 0 <= k < m < |order| ==> order[k] != order[m]
    ensures forall i :: 0 <= i < |posts| ==>
      (posts[i].postId in Collect(posts, outcomes, order).results <==> i in order && outcomes[i].Some?)
    ensures forall i :: 0 <= i < |posts| && i in order && outcomes[i].Some? ==>
      Collect(posts, outcomes, order).results[posts[i].postId] == (posts[i], outcomes[i].value)
    ensures Collect(posts, outcomes, order).errors == |FailedAmong(order, outcomes)|
    decreases |order|
  {
    if |order| > 0 {
      var init, j := order[..|order| - 1], order[|order| - 1];
      assert order == init + [j];
      CollectInvariant(posts, outcomes, init);
      assert j !in init;
      if outcomes[j].None? {
        assert FailedAmong(order, outcomes) == FailedAmong(init, outcomes) + {j};
      } else {
        assert FailedAmong(order, outcomes) == FailedAmong(init, outcomes);
      }
    }
  }

  lemma {:induction false} FailuresCounted(outcomes: seq<Option<Classification>>)
    ensures Failures(outcomes) == |set i | 0 <= i < |outcomes| && outcomes[i].None?|
  {
    if |outcomes| > 0 {
      var n := |outcomes| - 1;
      FailuresCounted(outcomes[..n]);
      var before := set i | 0 <= i < n && outcomes[..n][i].None?;
      var after := set i | 0 <= i < |outcomes| && outcomes[i].None?;
      if outcomes[n].None? {
        assert after == before + {n};
      } else {
        assert after == before;
      }
    }
  }

  /** Reassembly from a results dict that holds exactly the successful posts. */
  lemma {:induction false} ReassembleSuccesses(posts: seq<PostInput>, outcomes: seq<Option<Classification>>, results: map<string, (PostInput, Classification)>)
    requires |outcomes| == |posts|
    requires forall i :: 0 <= i < |posts| ==> (posts[i].postId in results <==> outcomes[i].Some?)
    requires forall i :: 0 <= i < |posts| && outcomes[i].Some? ==> results[posts[i].postId] == (posts[i], outcomes[i].value)
    ensures Reassemble(posts, results) == Successes(posts, outcomes)
  {
    if |posts| > 0 {
      var n := |posts| - 1;
      ReassembleSuccesses(posts[..n], outcomes[..n], results);
    }
  }

  /** With unique post ids, `classify_posts` returns exactly the posts whose
      call succeeded, each with its own answer, in input order, whatever order
      the calls completed in; every call is counted once, and the error counter
      is the number of calls that raised. */
  lemma ClassifyPostsIsSuccesses(posts: seq<PostInput>, outcomes: seq<Option<Classification>>, order: seq<nat>)
    requires |outcomes| == |posts| && UniqueIds(posts)
    requires IsCompletionOrder(order, |posts|)
    ensures ClassifyPosts(posts, outcomes, order) == Successes(posts, outcomes)
    ensures Collect(posts, outcomes, order).completed == |posts|
    ensures Collect(posts, outcomes, order).errors == Failures(outcomes)
  {
    var t := Collect(posts, outcomes, order);
    CollectInvariant(posts, outcomes, order);
    ReassembleSuccesses(posts, outcomes, t.results);
    FailuresCounted(outcomes);
    assert FailedAmong(order, outcomes) == set i | 0 <= i < |outcomes| && outcomes[i].None?;
  }

  /** The result does not depend on the completion order (unique post ids). */
  lemma ClassifyPostsOrderIndependent(posts: seq<PostInput>, outcomes: seq<Option<Classification>>, order1: seq<nat>, order2: seq<nat>)
    requires |outcomes| == |posts| && UniqueIds(posts)
    requires IsCompletionOrder(order1, |posts|) && IsCompletionOrder(order2, |posts|)
    ensures ClassifyPosts(posts, outcomes, order1) == ClassifyPosts(posts, outcomes, order2)
  {
    ClassifyPostsIsSuccesses(posts, outcomes, order1);
    ClassifyPostsIsSuccesses(posts, outcomes, order2);
  }

  /** Successes and failures account for every call. */
  lemma {:induction false} SuccessesAndFailures(posts: seq<PostInput>, outcomes: seq<Option<Classification>>)
    requires |outcomes| == |posts|
    ensures |Successes(posts, outcomes)| + Failures(outcomes) == |posts|
  {
    if |posts| > 0 {
      var n := |posts| - 1;
      SuccessesAndFailures(posts[..n], outcomes[..n]);
    }
  }

  /** Splitting the batch at any post: that post contributes its own pair or
      nothing, and the rest contribute what they would alone. */
  lemma {:induction false} SuccessesSplit(a: seq<PostInput>, oa: seq<Option<Classification>>, b: seq<PostInput>, ob: seq<Option<Classification>>)
    requires |oa| == |a| && |ob| == |b|
    ensures Successes(a + b, oa + ob) == Successes(a, oa) + Successes(b, ob)
    decreases |b|
  {
    if |b| > 0 {
      var n := |b| - 1;
      assert (a + b)[..|a| + n] == a + b[..n];
      assert (oa + ob)[..|a| + n] == oa + ob[..n];
      assert (a + b)[|a| + n] == b[n] && (oa + ob)[|a| + n] == ob[n];
      SuccessesSplit(a, oa, b[..n], ob[..n]);
    } else {
      assert a + b == a && oa + ob == oa;
    }
  }

  /** A call that raises removes exactly its own post from the output and
      changes nothing for any other post. */
  lemma FailureIsolated(posts: seq<PostInput>, outcomes: seq<Option<Classification>>, j: nat)
    requires |outcomes| == |posts| && j < |posts| && outcomes[j].Some?
    ensures Successes(posts, outcomes[j := None]) ==
      Successes(posts[..j], outcomes[..j]) + Successes(posts[j + 1..], outcomes[j + 1..])
    ensures Successes(posts, outcomes) ==
      Successes(posts[..j], outcomes[..j]) + [(posts[j], outcomes[j].value)] + Successes(posts[j + 1..], outcomes[j + 1..])
  {
    var failed := outcomes[j := None];
    assert posts == posts[..j] + [posts[j]] + posts[j + 1..];
    assert outcomes == outcomes[..j] + [outcomes[j]] + outcomes[j + 1..];
    assert failed == outcomes[..j] + [None] + outcomes[j + 1..];
    SuccessesSplit(posts[..j] + [posts[j]], outcomes[..j] + [outcomes[j]], posts[j + 1..], outcomes[j + 1..]);
    SuccessesSplit(posts[..j] + [posts[j]], outcomes[..j] + [None], posts[j + 1..], outcomes[j + 1..]);
    SuccessesSplit(posts[..j], outcomes[..j], [posts[j]], [outcomes[j]]);
    SuccessesSplit(posts[..j], outcomes[..j], [posts[j]], [None]);
  }

  /** Keys of the results dict only ever map to a post with that id, and a
      successful post's id stays in it (no uniqueness needed). */
  lemma {:induction false} CollectKeys(posts: seq<PostInput>, outcomes: seq<Option<Classification>>, order: seq<nat>)
    requires |outcomes| == |posts|
    requires forall k :: 0 <= k < |order| ==> order[k] < |posts|
    ensures forall id :: id in Collect(posts, outcomes, order).results ==>
      Collect(posts, outcomes, order).results[id].0.postId == id
      && Collect(posts, outcomes, order).results[id].0 in posts
    ensures forall k :: 0 <= k < |order| && outcomes[order[k]].Some? ==>
      posts[order[k]].postId in Collect(posts, outcomes, order).results
    decreases |order|
  {
    if |order| > 0 {
      CollectKeys(posts, outcomes, order[..|order| - 1]);
    }
  }

  lemma {:induction false} ReassembleAllPresent(posts: seq<PostInput>, results: map<string, (PostInput, Classification)>)
    requires forall i :: 0 <= i < |posts| ==> posts[i].postId in results
    requires forall id :: id in results ==> results[id].0.postId == id
    ensures |Reassemble(posts, results)| == |posts|
    ensures forall i :: 0 <= i < |posts| ==> Reassemble(posts, results)[i].0.postId == posts[i].postId
  {
    if |posts| > 0 {
      ReassembleAllPresent(posts[..|posts| - 1], results);
    }
  }

  lemma {:induction false} ReassembleFromResults(posts: seq<PostInput>, results: map<string, (PostInput, Classification)>, pool: seq<PostInput>)
    requires forall id :: id in results ==> results[id].0 in pool
    ensures forall k :: 0 <= k < |Reassemble(posts, results)| ==> Reassemble(posts, results)[k].0 in pool
  {
    if |posts| > 0 {
      ReassembleFromResults(posts[..|posts| - 1], results, pool);
    }
  }

  /** Whatever the ids, every returned pair is for one of the submitted posts. */
  lemma ClassifyPostsFromBatch(posts: seq<PostInput>, outcomes: seq<Option<Classification>>, order: seq<nat>)
    requires |outcomes| == |posts| && IsCompletionOrder(order, |posts|)
    ensures forall k :: 0 <= k < |ClassifyPosts(posts, outcomes, order)| ==> ClassifyPosts(posts, outcomes, order)[k].0 in posts
  {
    CollectKeys(posts, outcomes, order);
    ReassembleFromResults(posts, Collect(posts, outcomes, order).results, posts);
  }

  /** When every call succeeds, one pair comes back per post, in input order,
      each for a post with the same id (even with repeated ids). */
  lemma ClassifyPostsAllSucceed(posts: seq<PostInput>, outcomes: seq<Option<Classification>>, order: seq<nat>)
    requires |outcomes| == |posts| && IsCompletionOrder(order, |posts|)
    requires forall i :: 0 <= i < |outcomes| ==> outcomes[i].Some?
    ensures |ClassifyPosts(posts, outcomes, order)| == |posts|
    ensures forall i :: 0 <= i < |posts| ==> ClassifyPosts(posts, outcomes, order)[i].0.postId == posts[i].postId
  {
    var t := Collect(posts, outcomes, order);
    CollectKeys(posts, outcomes, order);
    forall i | 0 <= i < |posts|
      ensures posts[i].postId in t.results
    {
      assert i in order;
      var k :| 0 <= k < |order| && order[k] == i;
    }
    ReassembleAllPresent(posts, t.results);
  }

  /** Without unique ids the reassembly is not the reference: when two posts
      share an id and only the second call succeeds, the dict holds one entry
      and the closing loop emits it for both positions, so two pairs come back
      (both for the second post) although one call raised. */
  lemma RepeatedIdRepeatsResult(first: PostInput, second: PostInput, c: Classification)
    requires first.postId == second.postId
    ensures ClassifyPosts([first, second], [None, Some(c)], [0, 1]) == [(second, c), (second, c)]
    ensures Collect([first, second], [None, Some(c)], [0, 1]).errors == 1
    ensures Successes([first, second], [None, Some(c)]) == [(second, c)]
  {
    var posts, outcomes: seq<Option<Classification>> := [first, second], [None, Some(c)];
    assert [0, 1][..1] == [0] && [0][..0] == [];
    var t0 := Collect(posts, outcomes, []);
    var t1 := Collect(posts, outcomes, [0]);
    var t2 := Collect(posts, outcomes, [0, 1]);
    assert t1 == RecordOutcome(t0, first, None);
    assert t2 == RecordOutcome(t1, second, Some(c));
    assert t2.results == map[second.postId := (second, c)];
    assert posts[..1] == [first] && outcomes[..1] == [None];
    assert posts[..1][..0] == [] && outcomes[..1][..0] == [];
    assert Reassemble(posts[..1], t2.results) == [(second, c)];
    assert Successes(posts[..1], outcomes[..1]) == [];
  }
}
