# moltbook-study bookkeeping, in Dafny

This project models the deterministic bookkeeping around the Moltbook
classification study. Each step is modelled as a pure function over records
that have already been parsed.

- **run_judge.py: the run.**
  - `load_posts_by_agent` groups the collected posts by author name, drops authors with fewer than `min_posts` posts, and stable-sorts each author's posts by `created_at`.
  - `posts_to_inputs` numbers the posts 1..N and resolves their submolt name.
  - `main` keeps only the first `max_agents` names in sorted order, skips ids already classified when resuming, slices the pending list into batches, and writes one output record per classified post.
- **judge.py: the judge wrapper.**
  - It renders the user message, with the `(empty)`/`(none)` placeholders and truncation to 2000 characters.
  - It renders the few-shot examples, truncated to 500 characters.
  - `classify_posts` collects the thread-pool results into a dict keyed by `post_id` and returns them in input order. The pool is a fold over an arbitrary completion order, a permutation of the submitted calls. Each call's outcome is a parameter: `Some(classification)` or `None` when the call raised.
- **pipeline/schemas.py.** `PostClassification` (six independent labels, a rationale, a language and a spam flag) and `PostInput`.
- **build_roster.py.** The per-agent aggregation loop, the chronological sort with first/last timestamps and sorted submolt lists, the roster file order, and the summary statistics: post-count thresholds, the 7-bucket distribution, the top 20 posters and the per-submolt counts.
- **explore_results.py.** `time_to_first`, `trajectory_patterns` and `sovereignty_provenance`, as functions from the classified records to the counts they print.

Python's semantics are written out explicitly:
- Python's `list.sort` and `sorted` are modelled by the stable insertion sort `Ordering.SortBy`. It is proved to be a sorted permutation that keeps ties in their original order.
- `str` `<` is `Strings.Less`. It is proved equal to textbook lexicographic order and proved to be a strict total order. Dafny's own `<` on sequences means "proper prefix".
- `defaultdict(list)` is `Grouping.GroupBy`, an insertion-ordered list of buckets.
- A `set` built from a list is `Seqs.Dedup`.
- `s[:n]` is `Seqs.Take`.
- A JSON key can be absent, explicitly null, or hold a value. `Records.Field` keeps that three-way distinction where the scripts treat the cases differently.

Where a script would raise, the model returns a `Failure` in these cases (the rest are listed under "## Left out"):
- **run_judge.py.** A blank line in the raw file makes `json.loads` raise. A truthy author without `name` raises a `KeyError`. `range()` with a zero batch size raises when there is anything to classify.
- **build_roster.py.** A truthy non-object submolt (the `.get` call raises), and a post without `title`.

Modules: `Wrappers`, `Seqs`, `Ordering`, `Strings`, `Grouping`, `Records`,
`Schemas`, `Loader` and `RunJudge` (run_judge.py), `Judge` (judge.py), `Roster`
(build_roster.py) and `Explore` (explore_results.py).

## Model

| member | source | states |
|---|---|---|
| Ordering.SortByIsStableSort | run_judge.py:43 | `posts.sort(key=...)` is a stable sort: the result is sorted by the key, is a permutation of the input, and for every key value the elements with that key keep their input order |
| Strings.LessMatchesLexBefore | run_judge.py:91 | Python string `<` as modelled is exactly lexicographic order: either a proper prefix, or a smaller character at the first difference |
| Strings.LessIsStrictTotalOrder | run_judge.py:91 | string `<` is irreflexive, transitive and total on distinct strings, so `sorted()` of names is well defined |
| Strings.IntToStringRoundTrip | judge.py:85 | the decimal rendering of `post_number` in the template can be parsed back to the same integer |
| Grouping.GroupByContents | run_judge.py:29-37 | the defaultdict has distinct keys; each bucket holds exactly the elements with its key, in file order, and is non-empty; every element with a key is in some bucket |
| Grouping.GroupByPartition | build_roster.py:37-42 | the bucket sizes add up to the number of elements that have a key |
| Seqs.Dedup | explore_results.py:185 | the set of authors contains exactly the authors in the list, each once |
| Loader.FirstLoadError | run_judge.py:31-37 | no error exactly when every line parses and every truthy author has a name; otherwise the error names a line that fails, and no earlier line fails |
| Loader.LoadPostsByAgent | run_judge.py:27-46 | loading fails exactly when some line is unreadable; otherwise the result is the grouped and sorted posts, to which `Loader.GroupAndSortSpec` applies |
| Loader.GroupAndSortSpec | run_judge.py:27-46 | the names are distinct; a name is present exactly when that author has at least one post and at least `min_posts`; each list is a stable sort by `created_at` of that author's posts in file order, so authorless posts are dropped |
| Loader.GroupAndSortKeys | run_judge.py:40-45 | an author is kept exactly when they have posts and at least `min_posts` of them |
| Loader.GroupAndSortEntry | run_judge.py:42-44 | every kept list has at least `min_posts` posts and is a stable `created_at` sort of that author's posts |
| Loader.GroupAndSortDistinct | run_judge.py:40-46 | the returned dict has no repeated author name |
| Loader.PostsToInputs | run_judge.py:49-67 | the i-th post (from 1) becomes input number i of `len(posts)` under the agent's name. It keeps id, title, content and `created_at`, and the submolt is resolved (an object's name defaulting to "unknown", "unknown" when absent, `str()` of anything else) |
| Loader.InputsOrdinals | run_judge.py:49-67 | every input has 1 <= post_number <= total_posts; numbers strictly increase along the list, and so does `created_at` (not strictly) when the posts are sorted |
| RunJudge.LimitAgents | run_judge.py:89-94 | with `max_agents <= 0` every agent is kept unchanged |
| RunJudge.SortedNamesAscending | run_judge.py:91 | `sorted(agents.keys())` is a permutation of the names in strictly ascending order |
| RunJudge.LimitAgentsMembers | run_judge.py:91-92 | every kept entry is one of the loaded agents with its own posts |
| RunJudge.LimitAgentsOrder | run_judge.py:90-92 | the kept names ascend, and every name left out sorts after every kept name |
| RunJudge.LimitAgentsSpec | run_judge.py:89-94 | with `max_agents > 0`, exactly `min(max_agents, len(agents))` agents remain: the first names in sorted order, each with its own posts |
| RunJudge.PendingIsFilter | run_judge.py:105-110 | the inputs built agent by agent and filtered are, in order, exactly the inputs whose id is not done, with their numbering unchanged |
| RunJudge.NoResumeKeepsAll | run_judge.py:96-110 | without `--resume` the done set is empty and every input is pending |
| RunJudge.AgentInputsInRange | run_judge.py:105-110 | every pending input satisfies 1 <= post_number <= total_posts |
| RunJudge.Batches | run_judge.py:124-125 | slicing fails exactly when there are pending inputs and the batch size is 0; a negative batch size gives no batches |
| RunJudge.ChunksFlatten | run_judge.py:124-125 | the slices taken from position `start` concatenate back to the rest of the list |
| RunJudge.ChunksCount | run_judge.py:124-127 | the number of slices is the ceiling of the remaining length over the batch size |
| RunJudge.ChunksShape | run_judge.py:124-125 | slice i starts at `start + i * size` and ends at the next multiple or at the end of the list |
| RunJudge.BatchesSpec | run_judge.py:124-127 | for a positive batch size: the batches concatenate to `all_inputs`, there are `(n + size - 1) // size` of them, and batch i is the slice at `i * size`, non-empty and at most `size` long |
| RunJudge.ToRecord | run_judge.py:143-161 | an output record copies post_id, author, created_at, submolt, post_number, total_posts and title from the input, and carries the classification |
| RunJudge.WrittenRecordsFromBatches | run_judge.py:124-162 | every written record is built from one of the pending inputs |
| RunJudge.WrittenRecordsCoverBatches | run_judge.py:124-162 | when no call fails, every pending input's id is among the written records |
| RunJudge.ResumeIdempotent | run_judge.py:96-162 | for any loaded and limited agents and a positive batch size: once every judge call of a run has succeeded, the ids in the appended log cover every input, so a `--resume` run has nothing pending |
| RunJudge.ResumeAfterRun | run_judge.py:84-162 | on a readable raw file, with any options: once the run has appended a record for every input it planned (as a run whose judge calls all succeed does), a `--resume` run plans no inputs at all |
| Judge.OrElse | judge.py:229 | Python's `s or placeholder`: None and "" give the placeholder, any other string is kept |
| Judge.ContentText | judge.py:229 | the content sent is never empty and at most 2000 characters: "(empty)" for None or "", otherwise the first 2000 characters of the content |
| Judge.UserMessageBounded | judge.py:229-237 | however long the post, the message is at most the template plus the rendered fields plus 2000 characters of content |
| Judge.ContentPastLimitUnseen | judge.py:229-237 | two posts that differ only past the 2000th content character produce the same user message |
| Judge.ExampleContent | judge.py:211 | example content is never empty and at most 500 characters: "(empty)" for absent, null or "", otherwise its first 500 characters |
| Judge.TitleRulesCompared | judge.py:205-212 | the example title and the post title agree on an absent or non-empty title; a null title renders as "None" in examples but "(none)" in posts, and "" renders as "" versus "(none)" |
| Judge.JoinLinesLength | judge.py:215 | joining n blocks with newlines adds exactly n - 1 characters |
| Judge.Collect | judge.py:277-283 | `completed` counts every future that finished |
| Judge.CollectInvariant | judge.py:275-283 | with unique ids, after any prefix of the completion order the dict holds exactly the completed successful posts, each with its own answer, and `errors` counts the completed failures |
| Judge.FailuresCounted | judge.py:278-282 | the error counter equals the number of calls that raised |
| Judge.ReassembleSuccesses | judge.py:291-296 | reading a dict that holds exactly the successful posts in input order gives the successes in input order |
| Judge.ClassifyPostsIsSuccesses | judge.py:260-296 | with unique ids the result is the subsequence of the input, in input order, of exactly the successfully classified posts, each paired with its own result; `completed == total` and `errors` is the number of failures |
| Judge.ClassifyPostsOrderIndependent | judge.py:277-296 | with unique ids the result does not depend on the order in which the futures complete |
| Judge.SuccessesAndFailures | judge.py:275-283 | successes plus errors equal the number of submitted posts |
| Judge.SuccessesSplit | judge.py:291-296 | the successes of a split batch are the successes of each part, concatenated |
| Judge.FailureIsolated | judge.py:265-282 | a call that raises removes exactly its own post from the result and leaves every other post's pair unchanged |
| Judge.CollectKeys | judge.py:277-283 | every dict entry is keyed by its own post's id, and every success is recorded under its id |
| Judge.ReassembleAllPresent | judge.py:291-296 | when every post's id is in the dict, the result has one pair per post, with the same ids in input order |
| Judge.ReassembleFromResults | judge.py:291-296 | every returned pair comes from the dict |
| Judge.ClassifyPostsFromBatch | judge.py:277-296 | whatever the ids, every returned pair is for one of the submitted posts |
| Judge.ClassifyPostsAllSucceed | judge.py:277-296 | when every call succeeds, one pair comes back per post, in input order, whatever the ids |
| Judge.RepeatedIdRepeatsResult | judge.py:277-296 | with a repeated id and a failed first call, the surviving answer is returned twice (once per post), unlike the per-post successes |
| Schemas.WithLabels | pipeline/schemas.py:6-21 | any subset of the six labels, including none or all, with any rationale, language and spam flag is a classification with exactly those labels set |
| Schemas.ClassificationRoundTrip | pipeline/schemas.py:6-21 | a classification is determined by its label set, rationale, language and spam flag |
| Schemas.LabelsComplete | explore_results.py:12 | `LABELS` lists every label |
| Schemas.LabelNameInjective | pipeline/schemas.py:11-17 | different labels have different field names |
| Schemas.LabelNamesDistinct | explore_results.py:12 | no field name appears twice in `LABELS` |
| Roster.SubmoltRulesCompared | build_roster.py:48-49 | build_roster's submolt name agrees with run_judge's exactly for an absent submolt or an object; a null submolt is "unknown" here but "None" there, and a falsy non-object gives its `str()` there ("", "0", "0.0", "False", "[]"), never "unknown" |
| Roster.FirstRosterError | build_roster.py:30-63 | no error exactly when every non-blank line has a readable submolt and a title; otherwise the error names a failing line with no failing line before it, and a submolt error means an unreadable submolt |
| Roster.PostsOfCount | build_roster.py:31-35 | every non-blank line counts toward `total_posts`, authorless records included |
| Roster.ToRosterPost | build_roster.py:53-63 | the stored post keeps id, title and created_at. Content defaults to "" only when absent. Submolt is the resolved name. Upvotes and comment count default to 0 |
| Roster.IdIsFirstResolved | build_roster.py:44-46 | an agent's id is set exactly when one of its posts has an author id that is not null; it is the first such id seen, "unknown" for an absent id |
| Roster.IdNeverOverwritten | build_roster.py:44-46 | once set, an agent's id is not changed by later posts |
| Roster.BuildAgent | build_roster.py:42-74 | the agent's post count equals its number of posts, which is positive. Its id is the first resolved id. Its name is its own key, since the first post always sets it |
| Roster.NullIdsKeepName | build_roster.py:44-46 | an agent's id stays None exactly when every one of its posts has a null author id, and its name is still its key |
| Roster.AgentPostsChronological | build_roster.py:69-73 | the posts are a stable `created_at` sort of the agent's posts in file order; `first_post`/`last_post` are the first and last timestamps, bound every post's timestamp, and `first_post <= last_post` |
| Roster.AgentSubmolts | build_roster.py:69-74 | `submolts` is strictly ascending (sorted, no duplicates) and holds exactly the submolt names of the agent's posts |
| Roster.AgentTotals | build_roster.py:65-66 | `total_upvotes` and `total_comments` are the sums over the agent's posts, missing counts read as 0 |
| Roster.ReadUpvotes | build_roster.py:59-66 | the stored upvotes sum to the raw upvotes with missing ones read as 0 |
| Roster.AgentsOf | build_roster.py:68-74 | one agent per name group, in first-seen order |
| Roster.AgentsSpec | build_roster.py:37-46 | agent names are distinct; an agent's post count is the number of posts under its name; every authored post's name has an agent |
| Roster.TotalPostsSplit | build_roster.py:35-42 | the agents' post counts plus the authorless records add up to `total_posts` |
| Roster.SubmoltCountsEntries | build_roster.py:48-51 | each submolt's count is the number of authored posts resolved to it, positive, and no submolt is listed twice |
| Roster.SubmoltCountsCover | build_roster.py:48-51 | every authored post's submolt is listed |
| Roster.SubmoltCountsTotal | build_roster.py:51 | the submolt counts add up to the number of authored posts |
| Roster.SubmoltCountsOrder | build_roster.py:91 | `submolt_post_counts` is in non-increasing count order |
| Roster.SubmoltCountsSpec | build_roster.py:91 | `submolt_post_counts` counts every authored post under its resolved submolt, once per submolt, in non-increasing order, and its counts sum to the authored posts |
| Roster.BuildRoster | build_roster.py:30-66 | the roster fails exactly when some non-blank line is unreadable, and otherwise `total_posts` is the number of non-blank lines |
| Roster.RosterFileOrder | build_roster.py:105-109 | the roster file lists every agent once, in strictly ascending name order |
| Roster.DistributionPartitions | build_roster.py:92-100 | since every agent has at least one post, the seven buckets sum to the number of agents, and the 5+ count is the sum of the five upper buckets |
| Roster.ThresholdsNested | build_roster.py:83-86 | agents with 5+ >= 10+ >= 20+ >= 50+ posts |
| Roster.Summary | build_roster.py:88 | a top-poster entry has the agent's name and count, the first 16 characters of `first_post` and the first 5 submolts |
| Roster.TopPosters | build_roster.py:87-90 | `top_20_posters` has `min(20, len(agents))` entries, the summaries of the agents ranked by count |
| Roster.TopPostersSpec | build_roster.py:87-90 | at most 20 entries, in non-increasing post count, each the summary of an agent; an agent with more posts than some listed poster is itself listed |
| Roster.StatsConsistent | build_roster.py:76-100 | in the computed stats, the distribution sums to `total_agents`, the thresholds are nested, and the agents' post counts plus the authorless records equal `total_posts` |
| Explore.FirstNumber | explore_results.py:74-79 | the first-occurrence search finds nothing exactly when no post qualifies |
| Explore.FirstNumberIsFirst | explore_results.py:74-79 | what is found is the post number of the first qualifying post in list order |
| Explore.FirstNumberIsLeast | explore_results.py:74-79 | in a list sorted by post number, what is found is at most every qualifying post's number |
| Explore.EarliestNumber | explore_results.py:64-79 | after sorting by post number, a first occurrence exists exactly when some post qualifies, and it is the least post number among qualifying posts |
| Explore.FoundPlusMissed | explore_results.py:71-83 | the recorded first occurrences plus `never_posted` equal the number of agents searched |
| Explore.TimeToFirstSpec | explore_results.py:60-83 | for every label, first occurrences plus `never_posted` equal the number of agents. An agent has a first occurrence exactly when one of its posts has the label and is not spam. That occurrence is recorded, and it is the least such post number |
| Explore.MedianSpec | explore_results.py:93 | the median is one of the values, and in the sorted list every value before index `len // 2` is at most it and every value after at least it |
| Explore.Summarize | explore_results.py:91-101 | a label is reported only when it has at least one first occurrence |
| Explore.SummaryCounts | explore_results.py:89-94 | `ever = total_agents - never` is the number of recorded first occurrences, and the agents whose first post had the label are among them |
| Explore.NonSpamAgents | explore_results.py:110-113 | an author appears exactly when they have a non-spam post, and their list is exactly their non-spam posts in order |
| Explore.SetLabelsSpec | explore_results.py:120 | the labels collected are exactly the labels set on the post |
| Explore.NamesDistinct | explore_results.py:120 | no label name is collected twice |
| Explore.ComboAscending | explore_results.py:120 | a combination is in strictly ascending name order |
| Explore.ComboSpec | explore_results.py:116-121 | a first-post combination is the strictly ascending list of exactly the names of the labels set on that post |
| Explore.FirstPostIsEarliest | explore_results.py:118-120 | the post examined is the agent's post with the lowest post number |
| Explore.FirstCombosCount | explore_results.py:116-121 | the Counter counts one combination per agent |
| Explore.FirstWithSpec | explore_results.py:137-143 | an agent's first consciousness (or sovereignty) post number exists exactly when some post has the label, and is the least such number |
| Explore.PrecedencePartition | explore_results.py:135-153 | consciousness-first plus sovereignty-first plus same-post counts exactly the agents with both labels; `neither` counts exactly those with neither; with the one-label agents they cover everyone |
| Explore.BothAndNeither | explore_results.py:137-153 | "both" means some post has consciousness and some post has sovereignty; "neither" means no post has either |
| Explore.TrajectorySpec | explore_results.py:104-153 | one combination per non-spam agent; the three ordering counts sum to the agents with both labels, `neither` is the agents with neither, and together they are at most the agent count |
| Explore.SovereigntyProvenance | explore_results.py:170-177 | the analysis stops early exactly when no post is a non-spam sovereignty post |
| Explore.SovereigntyPostsSorted | explore_results.py:170-171 | the sovereignty posts are a stable ascending `created_at` sort of the non-spam sovereignty posts |
| Explore.OwnPostGrouped | explore_results.py:189-191 | every post is in its own author's group |
| Explore.SovereignAuthorFound | explore_results.py:193-207 | the author of a non-spam sovereignty post always finds a first sovereignty post |
| Explore.SovAgentsFound | explore_results.py:185-207 | every sovereignty agent falls in one of the three buckets |
| Explore.SovAgentsAreAuthors | explore_results.py:170-185 | a name is a sovereignty agent exactly when it authored a non-spam sovereignty post |
| Explore.BucketsCoverSovAgents | explore_results.py:193-207 | the first-post, early and late counts sum to the number of sovereignty agents |
| Explore.ProvenancePartition | explore_results.py:170-207 | given one non-spam sovereignty post, the analysis does not stop early. Each sovereignty agent, counted once, falls in exactly one bucket, so the three counts sum to `len(sov_agents)`. The agents are exactly the authors of non-spam sovereignty posts |

## Left out

- Reading and writing files and JSON (de)serialisation. Records are taken as already parsed. A raw line is `Blank` or one post. Only the fields the scripts react to are kept.
- The OpenAI call (judge.py:239-246), `SYSTEM_PROMPT` and the few-shot texts. Each call's outcome is a parameter of the model. The prompt constants are opaque strings.
- Thread-pool concurrency (judge.py:274-286). It is a sequential fold over an arbitrary completion order.
- Floating-point output: throughput and ETA (run_judge.py:164-172), means and percentages (explore_results.py), and file sizes in MB.
- `random.sample` (explore_results.py:223-225), `consciousness_examples`, `basic_stats`, the CLI argument parsing, and every `print`, including the verbose progress lines.
- keyword_prefilter.py, pull_posts.py and test_judge.py are not part of this model. Regular expressions, HTTP pagination and assertions about the language model's answers are outside its scope.
- The early `return` when nothing is pending (run_judge.py:114-116) is not a separate case. An empty pending list gives no batches, so no records.
- An author object whose `name` is an explicit null, a submolt object whose `name` is not a string, and engagement counters that are null. The model treats a name as present or absent; null counters would make `+=` raise.
- A post without `id` or `created_at`, or whose `created_at` is not a string: the scripts raise (a `KeyError` at run_judge.py:43, 58 and 63 and build_roster.py:54 and 58, a `TypeError` when sorting or comparing a non-string `created_at`). The model takes both as present strings.
- A truthy author that is not an object: indexing it (`author["name"]` in run_judge.py, `.get` in build_roster.py) would raise. Authors are modelled as absent/falsy or an object.
- `total = agent_posts[0]["total_posts"]` (explore_results.py:72) is read but never used.
- `post_counts.sort(reverse=True)` (build_roster.py:78) reorders the list before counting. Counts do not depend on order, so the model counts the unsorted list.
- Explore.FirstCombosCount: the `Counter` is modelled as a multiset of combinations. The `most_common(15)` ordering and the percentages printed from it are not modelled.
- Explore.ProvenancePartition: `sov_agents` is a Python `set`, modelled as the duplicate-free list of authors in first-seen order. The counts do not depend on iteration order.
- The resume log is read as already-parsed records; a log that does not exist and no `--resume` both give an empty done set.
