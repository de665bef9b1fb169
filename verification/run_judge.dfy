/** The bookkeeping in `main` of run_judge.py: limiting the agents, skipping
    posts already in the output log, slicing the pending posts into batches,
    and turning each classified post into an output record. */
module RunJudge {
  import opened Wrappers
  import opened Seqs
  import opened Ordering
  import opened Grouping
  import opened Schemas
  import opened Records
  import opened Loader
  import Judge
  import Strings

  /** `agents.keys()` in sorted order. */
  function SortedNames(agents: Agents): seq<string> {
    SortBy(Keys(agents), Strings.Itself, Strings.Less)
  }

  /** `if max_agents > 0: agents = {k: agents[k] for k in sorted(agents.keys())[:max_agents]}` */
  function LimitAgents(agents: Agents, maxAgents: int): (r: Agents)
    ensures maxAgents <= 0 ==> r == agents
  {
    if maxAgents > 0 then
      var names := Take(SortedNames(agents), maxAgents);
      seq(|names|, i requires 0 <= i < |names| => Bucket(names[i], ItemsAt(agents, names[i])))
    else agents
  }

  lemma SortedNamesAscending(agents: Agents)
    requires DistinctKeys(agents)
    ensures multiset(SortedNames(agents)) == multiset(Keys(agents))
    ensures forall i, j :: 0 <= i < j < |SortedNames(agents)| ==> Strings.Less(SortedNames(agents)[i], SortedNames(agents)[j])
  {
    var names := SortedNames(agents);
    Strings.LessIsStrictTotalOrder();
    SortBySorted(Keys(agents), Strings.Itself, Strings.Less);
    assert Distinct(Keys(agents)) by {
      forall i, j | 0 <= i < j < |agents|
        ensures Keys(agents)[i] != Keys(agents)[j]
      {
        assert agents[i].key != agents[j].key;
      }
    }
    PermutationKeepsDistinct(Keys(agents), names);
    forall i, j | 0 <= i < j < |names|
      ensures Strings.Less(names[i], names[j])
    {
      assert !Strings.Less(Strings.Itself(names[j]), Strings.Itself(names[i]));
      Strings.LessTotal(names[i], names[j]);
    }
  }

  lemma LimitAgentsMembers(agents: Agents, maxAgents: int)
    requires DistinctKeys(agents) && maxAgents > 0
    ensures forall i :: 0 <= i < |LimitAgents(agents, maxAgents)| ==> LimitAgents(agents, maxAgents)[i] in agents
  {
    var sorted := SortedNames(agents);
    var r := LimitAgents(agents, maxAgents);
    SortedNamesAscending(agents);
    forall i | 0 <= i < |r|
      ensures r[i] in agents
    {
      assert r[i] == Bucket(sorted[i], ItemsAt(agents, sorted[i]));
      assert sorted[i] in multiset(Keys(agents));
      var j :| 0 <= j < |agents| && Keys(agents)[j] == sorted[i];
      ItemsAtOwnKey(agents, j);
    }
  }

  lemma LimitAgentsOrder(agents: Agents, maxAgents: int)
    requires DistinctKeys(agents) && maxAgents > 0
    ensures forall i, j :: 0 <= i < j < |LimitAgents(agents, maxAgents)| ==>
      Strings.Less(LimitAgents(agents, maxAgents)[i].key, LimitAgents(agents, maxAgents)[j].key)
    ensures forall g, i :: g in agents && g.key !in Keys(LimitAgents(agents, maxAgents)) && 0 <= i < |LimitAgents(agents, maxAgents)| ==>
      Strings.Less(LimitAgents(agents, maxAgents)[i].key, g.key)
  {
    var sorted := SortedNames(agents);
    var r := LimitAgents(agents, maxAgents);
    SortedNamesAscending(agents);
    assert forall i :: 0 <= i < |r| ==> r[i].key == sorted[i];
    forall g, i | g in agents && g.key !in Keys(r) && 0 <= i < |r|
      ensures Strings.Less(r[i].key, g.key)
    {
      var j :| 0 <= j < |agents| && agents[j] == g;
      assert Keys(agents)[j] == g.key;
      assert g.key in multiset(sorted);
      var m :| 0 <= m < |sorted| && sorted[m] == g.key;
      assert m >= |r| by {
        assert forall k :: 0 <= k < |r| ==> Keys(r)[k] == sorted[k];
      }
    }
  }

  /** With a positive limit, the kept agents are the first `max_agents` names in
      sorted order, each with its own posts: as many as the limit allows, in
      ascending name order, and every agent left out sorts after every agent kept. */
  lemma LimitAgentsSpec(agents: Agents, maxAgents: int)
    requires DistinctKeys(agents) && maxAgents > 0
    ensures |LimitAgents(agents, maxAgents)| == Min(maxAgents, |agents|)
    ensures forall i :: 0 <= i < |LimitAgents(agents, maxAgents)| ==> LimitAgents(agents, maxAgents)[i] in agents
    ensures forall i, j :: 0 <= i < j < |LimitAgents(agents, maxAgents)| ==>
      Strings.Less(LimitAgents(agents, maxAgents)[i].key, LimitAgents(agents, maxAgents)[j].key)
    ensures forall g, i :: g in agents && g.key !in Keys(LimitAgents(agents, maxAgents)) && 0 <= i < |LimitAgents(agents, maxAgents)| ==>
      Strings.Less(LimitAgents(agents, maxAgents)[i].key, g.key)
  {
    LimitAgentsMembers(agents, maxAgents);
    LimitAgentsOrder(agents, maxAgents);
  }

  // ---------------------------------------------------------------------------
  // Resume

  /** `done_ids`: the post ids already in the output log when resuming and the
      log exists; empty otherwise. */
  function DoneIds(resume: bool, log: Option<seq<ClassifiedRecord>>): set<string> {
    if resume && log.Some? then IdsOf(log.value) else {}
  }

  function IdsOf(records: seq<ClassifiedRecord>): set<string> {
    set r | r in records :: r.postId
  }

  function NotDone(done: set<string>): PostInput -> bool {
    (p: PostInput) => p.postId !in done
  }

  /** Every agent's inputs, agent after agent. */
  function AgentInputs(agents: Agents): seq<PostInput> {
    if |agents| == 0 then []
    else PostsToInputs(agents[0].key, agents[0].items) + AgentInputs(agents[1..])
  }

  /** The nested loop that builds `all_inputs`, skipping ids in `done`. */
  function PendingInputs(agents: Agents, done: set<string>): seq<PostInput> {
    if |agents| == 0 then []
    else Filter(PostsToInputs(agents[0].key, agents[0].items), NotDone(done)) + PendingInputs(agents[1..], done)
  }

  /** Skipping done ids is a filter over the full list of inputs: the kept
      inputs keep their order and their post_number/total_posts, and exactly
      those whose id is not done are kept. */
  lemma {:induction false} PendingIsFilter(agents: Agents, done: set<string>)
    ensures PendingInputs(agents, done) == Filter(AgentInputs(agents), NotDone(done))
  {
    if |agents| > 0 {
      PendingIsFilter(agents[1..], done);
      FilterAppend(PostsToInputs(agents[0].key, agents[0].items), AgentInputs(agents[1..]), NotDone(done));
    }
  }

  /** Without `--resume` nothing is skipped. */
  lemma NoResumeKeepsAll(agents: Agents, log: Option<seq<ClassifiedRecord>>)
    ensures PendingInputs(agents, DoneIds(false, log)) == AgentInputs(agents)
  {
    PendingIsFilter(agents, {});
    FilterAll(AgentInputs(agents), NotDone({}));
  }

  /** Every input satisfies 1 <= post_number <= total_posts. */
  lemma {:induction false} AgentInputsInRange(agents: Agents)
    ensures forall i :: 0 <= i < |AgentInputs(agents)| ==> OrdinalInRange(AgentInputs(agents)[i])
  {
    if |agents| > 0 {
      AgentInputsInRange(agents[1..]);
      var head := PostsToInputs(agents[0].key, agents[0].items);
      assert forall i :: 0 <= i < |head| ==> OrdinalInRange(head[i]);
    }
  }

  /** The posts `main` will send: load, limit, and skip what is done. */
  function PlanRun(lines: seq<Line>, minPosts: int, maxAgents: int, resume: bool, log: Option<seq<ClassifiedRecord>>): Result<seq<PostInput>, LoadError> {
    match LoadPostsByAgent(lines, minPosts)
    case Failure(e) => Failure(e)
    case Success(agents) => Success(PendingInputs(LimitAgents(agents, maxAgents), DoneIds(resume, log)))
  }

  // ---------------------------------------------------------------------------
  // Batches

  /** `range()` refuses a zero step. */
  datatype BatchError = ZeroBatchSize

  /** `all_inputs[s:s + size]` for `s` in `range(start, len(all_inputs), size)`. */
  function Chunks(xs: seq<PostInput>, start: nat, size: nat): seq<seq<PostInput>>
    requires size > 0
    decreases |xs| - start
  {
    if start >= |xs| then []
    else [xs[start..Min(start + size, |xs|)]] + Chunks(xs, start + size, size)
  }

  /** The batches of the loop. With nothing pending `main` returns before the
      loop; otherwise a zero batch size raises, and a negative one gives an
      empty range, so nothing is classified. */
  function Batches(xs: seq<PostInput>, batchSize: int): (r: Result<seq<seq<PostInput>>, BatchError>)
    ensures r.Failure? <==> |xs| > 0 && batchSize == 0
    ensures batchSize < 0 ==> r == Success([])
  {
    if |xs| == 0 then Success([])
    else if batchSize == 0 then Failure(ZeroBatchSize)
    else if batchSize < 0 then Success([])
    else Success(Chunks(xs, 0, batchSize))
  }

  lemma {:induction false} ChunksFlatten(xs: seq<PostInput>, start: nat, size: nat)
    requires size > 0 && start <= |xs|
    ensures Flatten(Chunks(xs, start, size)) == xs[start..]
    decreases |xs| - start
  {
    if start < |xs| {
      var end := Min(start + size, |xs|);
      ChunksFlatten(xs, end, size);
      if end < start + size {
        assert Chunks(xs, start + size, size) == [];
        assert xs[end..] == [];
      }
      assert xs[start..] == xs[start..end] + xs[end..];
    }
  }

  lemma {:induction false} MulGap(a: int, b: int, size: int)
    requires size > 0
    ensures a < b ==> a * size + size <= b * size
    decreases b - a
  {
    if a + 1 < b {
      MulGap(a + 1, b, size);
      assert (a + 1) * size == a * size + size;
    } else if a + 1 == b {
      assert b * size == a * size + size;
    }
  }

  /** Floor division is pinned down by its bracketing multiples. */
  lemma DivUnique(x: int, size: int, q: int)
    requires size > 0 && q * size <= x < q * size + size
    ensures x / size == q
  {
    var d := x / size;
    assert x == d * size + x % size;
    MulGap(d, q, size);
    MulGap(q, d, size);
  }

  lemma DivStep(m: nat, size: nat)
    requires size > 0
    ensures (m + size) / size == m / size + 1
  {
    var q := m / size;
    assert m == q * size + m % size;
    DivUnique(m + size, size, q + 1);
  }

  lemma {:induction false} ChunksCount(xs: seq<PostInput>, start: nat, size: nat)
    requires size > 0 && start <= |xs|
    ensures |Chunks(xs, start, size)| == (|xs| - start + size - 1) / size
    decreases |xs| - start
  {
    if start < |xs| {
      if start + size <= |xs| {
        ChunksCount(xs, start + size, size);
        DivStep(|xs| - start - 1, size);
      } else {
        assert 0 <= |xs| - start - 1 < size;
        DivStep(|xs| - start - 1, size);
      }
    }
  }

  lemma {:induction false} ChunksShape(xs: seq<PostInput>, start: nat, size: nat, i: nat)
    requires size > 0 && i < |Chunks(xs, start, size)|
    ensures start + i * size < |xs|
    ensures Chunks(xs, start, size)[i] == xs[start + i * size..Min(start + i * size + size, |xs|)]
    decreases i
  {
    if i > 0 {
      ChunksShape(xs, start + size, size, i - 1);
      assert start + size + (i - 1) * size == start + i * size;
    }
  }

  /** With a positive batch size the batches are the contiguous slices
      starting at 0, size, 2*size, ...: each non-empty and at most `size` long,
      together exactly the pending list, and `(n + size - 1) // size` of them,
      the `total_batches` that `main` reports. */
  lemma BatchesSpec(xs: seq<PostInput>, size: int)
    requires size > 0
    ensures Batches(xs, size).Success?
    ensures Flatten(Batches(xs, size).value) == xs
    ensures |Batches(xs, size).value| == (|xs| + size - 1) / size
    ensures forall i :: 0 <= i < |Batches(xs, size).value| ==>
      && i * size < |xs|
      && Batches(xs, size).value[i] == xs[i * size..Min(i * size + size, |xs|)]
      && 0 < |Batches(xs, size).value[i]| <= size
  {
    ChunksFlatten(xs, 0, size);
    ChunksCount(xs, 0, size);
    forall i | 0 <= i < |Batches(xs, size).value|
      ensures i * size < |xs|
      ensures Batches(xs, size).value[i] == xs[i * size..Min(i * size + size, |xs|)]
    {
      ChunksShape(xs, 0, size, i);
    }
  }

  // ---------------------------------------------------------------------------
  // Output records

  /** The record written for one classified post. */
  function ToRecord(p: PostInput, c: Classification): (r: ClassifiedRecord)
    ensures r.postId == p.postId && r.author == p.author && r.createdAt == p.createdAt
    ensures r.submolt == p.submolt && r.title == p.title
    ensures r.postNumber == p.postNumber && r.totalPosts == p.totalPosts
    ensures r.verdict == c
  {
    ClassifiedRecord(p.postId, p.author, p.createdAt, p.submolt, p.postNumber, p.totalPosts, p.title, c)
  }

  /** The records one batch appends, in the order `classify_posts` returned them. */
  function BatchRecords(pairs: seq<(PostInput, Classification)>): (r: seq<ClassifiedRecord>)
    ensures |r| == |pairs|
    ensures forall i :: 0 <= i < |r| ==> r[i] == ToRecord(pairs[i].0, pairs[i].1)
  {
    seq(|pairs|, i requires 0 <= i < |pairs| => ToRecord(pairs[i].0, pairs[i].1))
  }

  /** Judge answers and completion orders that fit the batches. */
  ghost predicate CallsFit(batches: seq<seq<PostInput>>, outcomes: seq<seq<Option<Classification>>>, orders: seq<seq<nat>>) {
    && |outcomes| == |batches| && |orders| == |batches|
    && forall i :: 0 <= i < |batches| ==>
      |outcomes[i]| == |batches[i]| && Judge.IsCompletionOrder(orders[i], |batches[i]|)
  }

  /** Every record the batch loop appends, batch after batch. */
  function WrittenRecords(batches: seq<seq<PostInput>>, outcomes: seq<seq<Option<Classification>>>, orders: seq<seq<nat>>): seq<ClassifiedRecord>
    requires CallsFit(batches, outcomes, orders)
  {
    if |batches| == 0 then []
    else
      BatchRecords(Judge.ClassifyPosts(batches[0], outcomes[0], orders[0]))
      + WrittenRecords(batches[1..], outcomes[1..], orders[1..])
  }

  /** Each written record is the record of one of the posts sent, with one of
      the judge's answers; none comes from anywhere else. */
  lemma {:induction false} WrittenRecordsFromBatches(batches: seq<seq<PostInput>>, outcomes: seq<seq<Option<Classification>>>, orders: seq<seq<nat>>)
    requires CallsFit(batches, outcomes, orders)
    ensures forall r :: r in WrittenRecords(batches, outcomes, orders) ==>
      exists p, c :: p in Flatten(batches) && r == ToRecord(p, c)
  {
    if |batches| > 0 {
      WrittenRecordsFromBatches(batches[1..], outcomes[1..], orders[1..]);
      var pairs := Judge.ClassifyPosts(batches[0], outcomes[0], orders[0]);
      Judge.ClassifyPostsFromBatch(batches[0], outcomes[0], orders[0]);
      forall r | r in WrittenRecords(batches, outcomes, orders)
        ensures exists p, c :: p in Flatten(batches) && r == ToRecord(p, c)
      {
        if r in BatchRecords(pairs) {
          var k :| 0 <= k < |pairs| && BatchRecords(pairs)[k] == r;
          assert pairs[k].0 in Flatten(batches);
        } else {
          assert r in WrittenRecords(batches[1..], outcomes[1..], orders[1..]);
          var p, c :| p in Flatten(batches[1..]) && r == ToRecord(p, c);
          assert p in Flatten(batches);
        }
      }
    }
  }

  ghost predicate AllSucceed(outcomes: seq<seq<Option<Classification>>>) {
    forall i, j :: 0 <= i < |outcomes| && 0 <= j < |outcomes[i]| ==> outcomes[i][j].Some?
  }

  /** When every judge call succeeds, every post sent gets a record. */
  lemma {:induction false} WrittenRecordsCoverBatches(batches: seq<seq<PostInput>>, outcomes: seq<seq<Option<Classification>>>, orders: seq<seq<nat>>)
    requires CallsFit(batches, outcomes, orders) && AllSucceed(outcomes)
    ensures forall p :: p in Flatten(batches) ==> p.postId in IdsOf(WrittenRecords(batches, outcomes, orders))
  {
    if |batches| > 0 {
      WrittenRecordsCoverBatches(batches[1..], outcomes[1..], orders[1..]);
      var pairs := Judge.ClassifyPosts(batches[0], outcomes[0], orders[0]);
      var written := WrittenRecords(batches, outcomes, orders);
      var rest := WrittenRecords(batches[1..], outcomes[1..], orders[1..]);
      Judge.ClassifyPostsAllSucceed(batches[0], outcomes[0], orders[0]);
      assert written == BatchRecords(pairs) + rest;
      forall p | p in Flatten(batches)
        ensures p.postId in IdsOf(written)
      {
        if p in batches[0] {
          var k :| 0 <= k < |batches[0]| && batches[0][k] == p;
          assert BatchRecords(pairs)[k] in written;
        } else {
          assert p in Flatten(batches[1..]);
          var r :| r in rest && r.postId == p.postId;
          assert r in written;
        }
      }
    }
  }

  /** The output log after the run: appended to when the loop ran at all. */
  function LogAfter(log: Option<seq<ClassifiedRecord>>, batches: seq<seq<PostInput>>, written: seq<ClassifiedRecord>): Option<seq<ClassifiedRecord>> {
    if |batches| == 0 then log else Some(log.GetOr([]) + written)
  }

  /** The ids done at the start stay done after the run, and so does every
      pending input the run wrote a record for. */
  lemma DoneAfterRun(resume: bool, log: Option<seq<ClassifiedRecord>>, batches: seq<seq<PostInput>>, written: seq<ClassifiedRecord>)
    requires forall p :: p in Flatten(batches) ==> p.postId in IdsOf(written)
    ensures DoneIds(resume, log) <= DoneIds(true, LogAfter(log, batches, written))
    ensures forall p :: p in Flatten(batches) ==> p.postId in DoneIds(true, LogAfter(log, batches, written))
  {
    if |batches| > 0 {
      assert IdsOf(log.GetOr([]) + written) == IdsOf(log.GetOr([])) + IdsOf(written);
    }
  }

  /** When every input that was pending before is now done, nothing is pending. */
  lemma NothingPending(agents: Agents, done1: set<string>, done2: set<string>)
    requires done1 <= done2
    requires forall p :: p in Filter(AgentInputs(agents), NotDone(done1)) ==> p.postId in done2
    ensures PendingInputs(agents, done2) == []
  {
    var inputs := AgentInputs(agents);
    PendingIsFilter(agents, done2);
    forall i | 0 <= i < |inputs|
      ensures !NotDone(done2)(inputs[i])
    {
      if inputs[i].postId !in done1 {
        assert NotDone(done1)(inputs[i]);
        assert inputs[i] in Filter(inputs, NotDone(done1));
      }
    }
    FilterNone(inputs, NotDone(done2));
  }

  /** Resume idempotence: after a run (with or without `--resume`) over the
      loaded and limited agents in which every judge call succeeded, running
      again with `--resume` on the same agents finds nothing left to classify. */
  lemma ResumeIdempotent(agents: Agents, resume: bool, log: Option<seq<ClassifiedRecord>>, batchSize: int,
                         batches: seq<seq<PostInput>>, outcomes: seq<seq<Option<Classification>>>, orders: seq<seq<nat>>)
    requires batchSize > 0 && Batches(PendingInputs(agents, DoneIds(resume, log)), batchSize) == Success(batches)
    requires CallsFit(batches, outcomes, orders) && AllSucceed(outcomes)
    ensures PendingInputs(agents, DoneIds(true, LogAfter(log, batches, WrittenRecords(batches, outcomes, orders)))) == []
  {
    var pending := PendingInputs(agents, DoneIds(resume, log));
    var written := WrittenRecords(batches, outcomes, orders);
    PendingIsFilter(agents, DoneIds(resume, log));
    BatchesSpec(pending, batchSize);
    WrittenRecordsCoverBatches(batches, outcomes, orders);
    DoneAfterRun(resume, log, batches, written);
    NothingPending(agents, DoneIds(resume, log), DoneIds(true, LogAfter(log, batches, written)));
  }

  /** The same on the raw file: whatever the options, once a run has written a
      record for every input it planned (its batches flatten to the plan, by
      `BatchesSpec`, and a run whose judge calls all succeed covers them, by
      `WrittenRecordsCoverBatches`), a second `--resume` run plans nothing. */
  lemma ResumeAfterRun(lines: seq<Line>, minPosts: int, maxAgents: int, resume: bool, log: Option<seq<ClassifiedRecord>>,
                       pending: seq<PostInput>, batches: seq<seq<PostInput>>, written: seq<ClassifiedRecord>)
    requires PlanRun(lines, minPosts, maxAgents, resume, log) == Success(pending)
    requires Flatten(batches) == pending && forall p :: p in pending ==> p.postId in IdsOf(written)
    ensures PlanRun(lines, minPosts, maxAgents, true, LogAfter(log, batches, written)) == Success([])
  {
    var agents := LimitAgents(LoadPostsByAgent(lines, minPosts).value, maxAgents);
    PendingIsFilter(agents, DoneIds(resume, log));
    DoneAfterRun(resume, log, batches, written);
    NothingPending(agents, DoneIds(resume, log), DoneIds(true, LogAfter(log, batches, written)));
  }
}
