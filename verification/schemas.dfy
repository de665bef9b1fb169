/** The two pydantic models of `pipeline/schemas.py`: what the judge returns
    for one post, and what it is given. */
module Schemas {
  import opened Wrappers

  /** `PostClassification`: a rationale, six independent behavioural labels,
      the post's primary language and a spam flag. Every field is required. */
  datatype Classification = Classification(
    reasoning: string,
    consciousness: bool,
    sovereignty: bool,
    socialSeeking: bool,
    identity: bool,
    taskOriented: bool,
    curiosity: bool,
    language: string,
    isSpam: bool)

  datatype Label = Consciousness | Sovereignty | SocialSeeking | Identity | TaskOriented | Curiosity

  /** `LABELS` of explore_results.py, in its order. */
  const Labels: seq<Label> := [Consciousness, Sovereignty, SocialSeeking, Identity, TaskOriented, Curiosity]

  /** The field name, as the label appears in the persisted records. */
  function LabelName(l: Label): string {
    match l
    case Consciousness => "consciousness"
    case Sovereignty => "sovereignty"
    case SocialSeeking => "social_seeking"
    case Identity => "identity"
    case TaskOriented => "task_oriented"
    case Curiosity => "curiosity"
  }

  predicate HasLabel(c: Classification, l: Label) {
    match l
    case Consciousness => c.consciousness
    case Sovereignty => c.sovereignty
    case SocialSeeking => c.socialSeeking
    case Identity => c.identity
    case TaskOriented => c.taskOriented
    case Curiosity => c.curiosity
  }

  /** The labels that are true. */
  function LabelSet(c: Classification): set<Label> {
    set l: Label | HasLabel(c, l)
  }

  /** A classification with exactly the labels in `labels` set: any subset of
      the six, including none or all, is a valid judge answer. */
  function WithLabels(reasoning: string, labels: set<Label>, language: string, isSpam: bool): (c: Classification)
    ensures LabelSet(c) == labels
    ensures c.reasoning == reasoning && c.language == language && c.isSpam == isSpam
  {
    var c := Classification(reasoning,
      Consciousness in labels, Sovereignty in labels, SocialSeeking in labels,
      Identity in labels, TaskOriented in labels, Curiosity in labels,
      language, isSpam);
    assert forall l: Label :: HasLabel(c, l) <==> l in labels;
    c
  }

  /** A classification is nothing more than its label set, its rationale, its
      language and its spam flag: taking it apart and rebuilding it is the identity. */
  lemma ClassificationRoundTrip(c: Classification)
    ensures WithLabels(c.reasoning, LabelSet(c), c.language, c.isSpam) == c
  {
  }

  /** `LABELS` lists every label. */
  lemma LabelsComplete()
    ensures forall l: Label :: l in Labels
  {
    forall l: Label
      ensures l in Labels
    {
      match l
      case Consciousness => assert Labels[0] == l;
      case Sovereignty => assert Labels[1] == l;
      case SocialSeeking => assert Labels[2] == l;
      case Identity => assert Labels[3] == l;
      case TaskOriented => assert Labels[4] == l;
      case Curiosity => assert Labels[5] == l;
    }
  }

  /** Different labels have different field names. */
  lemma LabelNameInjective(a: Label, b: Label)
    ensures LabelName(a) == LabelName(b) ==> a == b
  {
  }

  lemma LabelNamesDistinct()
    ensures forall i, j :: 0 <= i < j < |Labels| ==> LabelName(Labels[i]) != LabelName(Labels[j])
  {
  }

  /** `PostInput`: one post with its author-relative position. `title` and
      `content` may be null; `post_number` is the author's Nth post in
      chronological order and `total_posts` the author's total. */
  datatype PostInput = PostInput(
    postId: string,
    author: string,
    title: Option<string>,
    content: Option<string>,
    submolt: string,
    createdAt: string,
    postNumber: int,
    totalPosts: int)

  /** The intended relation between the two position fields (the model does
      not enforce it; the request builder establishes it). */
  predicate OrdinalInRange(p: PostInput) {
    1 <= p.postNumber <= p.totalPosts
  }
}
