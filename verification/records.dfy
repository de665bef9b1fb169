/** The persisted line formats: a collected post (one JSON object per line of
    the raw posts file) and a classified post (one line of the output log).
    Records are taken as already parsed; only the distinctions the scripts
    react to are kept. */
module Records {
  import opened Wrappers
  import opened Schemas

  /** A JSON object key whose value the scripts tell apart: absent, explicit
      null, or a value. */
  datatype Field<T> = Missing | Null | Val(v: T)

  /** `post.get(key)`: absent and null both read as None. */
  function Get<T>(f: Field<T>): Option<T> {
    match f
    case Val(v) => Some(v)
    case _ => None
  }

  /** The `author` entry. `NoAuthor` is any falsy value (absent, null, `{}`);
      `Author` is a non-empty object, whose `name` may be absent. */
  datatype Author = NoAuthor | Author(name: Option<string>, id: Field<string>)

  /** The `submolt` entry: absent, null, an object (whose `name` may be absent),
      or some other JSON value, given by its `str()` form and its truthiness. */
  datatype Submolt =
    | NoSubmolt
    | NullSubmolt
    | Community(name: Option<string>)
    | Bare(text: string, truthy: bool)

  /** One collected post. `id` and `created_at` are taken as present strings
      (the scripts raise otherwise, which is not modelled); the engagement
      counters are None when absent. */
  datatype RawPost = RawPost(
    id: string,
    author: Author,
    title: Field<string>,
    content: Field<string>,
    submolt: Submolt,
    createdAt: string,
    upvotes: Option<int>,
    downvotes: Option<int>,
    commentCount: Option<int>,
    url: Option<string>)

  /** A line of the raw posts file: whitespace only, or one post. */
  datatype Line = Blank | Record(post: RawPost)

  function CreatedAt(p: RawPost): string {
    p.createdAt
  }

  /** One line of the output log, as run_judge.py writes it: the input's
      bookkeeping fields and the judge's classification. */
  datatype ClassifiedRecord = ClassifiedRecord(
    postId: string,
    author: string,
    createdAt: string,
    submolt: string,
    postNumber: int,
    totalPosts: int,
    title: Option<string>,
    verdict: Classification)
}
