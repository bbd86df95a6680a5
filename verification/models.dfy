/** The Author and Post entities. Constructing one assigns every keyword argument to its
    column, and each assignment runs that column's rule; a rule that raises aborts the
    construction, so no entity exists unless every rule accepted. */
module Models {
  import opened Values
  import opened Text
  import opened Validators

  /** An author's columns, apart from the id the store assigns and the timestamps. */
  datatype Author = Author(name: string, phoneNumber: Option<string>)

  /** A post's columns, apart from the id the store assigns and the timestamps. `authorId`
      has no rule of its own; only the store's foreign key constrains it. */
  datatype Post = Post(
    title: string,
    content: string,
    summary: Option<string>,
    category: string,
    authorId: Option<int>)

  /** What every stored author satisfies: a non-empty name, and a phone number that is
      absent or ten digits. */
  ghost predicate WellFormedAuthor(a: Author) {
    && a.name != ""
    && (a.phoneNumber.Some? ==> |a.phoneNumber.value| == PHONE_DIGITS && AllDigits(a.phoneNumber.value))
  }

  /** What every stored post's own fields satisfy: a clickbait title, content of at least
      250 characters, a summary of at most 250 characters when present, a listed category. */
  ghost predicate WellFormedPost(p: Post) {
    && HasKeyword(CLICKBAIT_KEYWORDS, p.title)
    && |p.content| >= MIN_CONTENT_LENGTH
    && (p.summary.Some? ==> |p.summary.value| <= MAX_SUMMARY_LENGTH)
    && p.category in CATEGORIES
  }

  /** `Author(name=..., phone_number=...)`: succeeds exactly when both rules accept, and then
      holds the values as given; otherwise fails with the error of a rule that rejected. */
  function NewAuthor(name: Option<string>, phoneNumber: Option<string>): (r: Result<Author, FieldError>)
    ensures r.Success? <==> ValidateName(name).Accepted? && ValidatePhoneNumber(phoneNumber).Accepted?
    ensures r.Success? ==> name.Some? && r.value == Author(name.value, phoneNumber)
    ensures r.Success? ==> WellFormedAuthor(r.value)
    ensures r.Failure? ==>
      || ValidateName(name) == Rejected(r.error)
      || ValidatePhoneNumber(phoneNumber) == Rejected(r.error)
  {
    match ValidateName(name)
    case Rejected(e) => Failure(e)
    case Accepted(n) =>
      match ValidatePhoneNumber(phoneNumber)
      case Rejected(e) => Failure(e)
      case Accepted(p) => Success(Author(n.value, p))
  }

  /** `Post(title=..., content=..., summary=..., category=..., author_id=...)`: succeeds
      exactly when the four rules accept, whatever `authorId` is, and then holds the values
      as given; otherwise fails with the error of a rule that rejected. */
  function NewPost(
    title: Option<string>,
    content: Option<string>,
    summary: Option<string>,
    category: Option<string>,
    authorId: Option<int>): (r: Result<Post, FieldError>)
    ensures r.Success? <==>
      && ValidateTitle(title).Accepted?
      && ValidateContent(content).Accepted?
      && ValidateSummary(summary).Accepted?
      && ValidateCategory(category).Accepted?
    ensures r.Success? ==>
      && title.Some? && content.Some? && category.Some?
      && r.value == Post(title.value, content.value, summary, category.value, authorId)
    ensures r.Success? ==> WellFormedPost(r.value)
    ensures r.Failure? ==>
      || ValidateTitle(title) == Rejected(r.error)
      || ValidateContent(content) == Rejected(r.error)
      || ValidateSummary(summary) == Rejected(r.error)
      || ValidateCategory(category) == Rejected(r.error)
  {
    match ValidateTitle(title)
    case Rejected(e) => Failure(e)
    case Accepted(t) =>
      match ValidateContent(content)
      case Rejected(e) => Failure(e)
      case Accepted(c) =>
        match ValidateSummary(summary)
        case Rejected(e) => Failure(e)
        case Accepted(s) =>
          match ValidateCategory(category)
          case Rejected(e) => Failure(e)
          case Accepted(g) =>
            Success(Post(t.value, c.value, s, g.value, authorId))
  }
}
