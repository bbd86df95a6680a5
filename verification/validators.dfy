/** The six `@validates` rules of the Author and Post models. Each rule receives the value
    being assigned to its column (absent when the request body lacks the key) and either
    returns that same value or raises. */
module Validators {
  import opened Values
  import opened Text

  const NAME_MESSAGE := "Author must have a name."
  const PHONE_MESSAGE := "Phone number must be exactly ten digits."
  const CONTENT_MESSAGE := "Post content must be at least 250 characters long."
  const SUMMARY_MESSAGE := "Post summary cannot exceed 250 characters."
  const CATEGORY_MESSAGE := "Post category must be 'Fiction' or 'Non-Fiction'."
  const TITLE_MESSAGE := "Post title must contain one of: 'Won't Believe', 'Secret', 'Top', 'Guess'."
  /** What Python raises for `keyword in None`. */
  const NONE_NOT_ITERABLE := "argument of type 'NoneType' is not iterable"

  const PHONE_DIGITS := 10
  const MIN_CONTENT_LENGTH := 250
  const MAX_SUMMARY_LENGTH := 250
  const CATEGORIES: seq<string> := ["Fiction", "Non-Fiction"]
  const CLICKBAIT_KEYWORDS: seq<string> := ["Won't Believe", "Secret", "Top", "Guess"]

  /** Python truthiness of an optional string: absent and "" are falsy. */
  predicate Truthy(v: Option<string>) {
    v.Some? && v.value != ""
  }

  /** Author.name: rejected when falsy (absent or empty); anything else, whitespace
      included, is returned unchanged. */
  function ValidateName(name: Option<string>): (r: Checked<Option<string>>)
    ensures r.Accepted? <==> name.Some? && |name.value| > 0
    ensures r.Accepted? ==> r.value == name
    ensures r.Rejected? ==> r.error == ValueError(NAME_MESSAGE)
  {
    if !Truthy(name) then Rejected(ValueError(NAME_MESSAGE)) else Accepted(name)
  }

  /** Author.phone_number: absent is allowed; a present value must be exactly ten digits. */
  function ValidatePhoneNumber(phone: Option<string>): (r: Checked<Option<string>>)
    ensures r.Accepted? <==> phone.None? || (|phone.value| == PHONE_DIGITS && AllDigits(phone.value))
    ensures r.Accepted? ==> r.value == phone
    ensures r.Rejected? ==> r.error == ValueError(PHONE_MESSAGE)
  {
    if phone.None? then Accepted(phone)
    else if !FullMatchDigits(phone.value, PHONE_DIGITS) then Rejected(ValueError(PHONE_MESSAGE))
    else Accepted(phone)
  }

  /** Post.content: rejected when falsy or shorter than 250 characters. */
  function ValidateContent(content: Option<string>): (r: Checked<Option<string>>)
    ensures r.Accepted? <==> content.Some? && |content.value| >= MIN_CONTENT_LENGTH
    ensures r.Accepted? ==> r.value == content
    ensures r.Rejected? ==> r.error == ValueError(CONTENT_MESSAGE)
  {
    if !Truthy(content) || |content.value| < MIN_CONTENT_LENGTH then Rejected(ValueError(CONTENT_MESSAGE))
    else Accepted(content)
  }

  /** Post.summary: rejected only when truthy and longer than 250 characters, so absent
      and empty summaries pass. */
  function ValidateSummary(summary: Option<string>): (r: Checked<Option<string>>)
    ensures r.Rejected? <==> summary.Some? && |summary.value| > MAX_SUMMARY_LENGTH
    ensures r.Accepted? ==> r.value == summary
    ensures r.Rejected? ==> r.error == ValueError(SUMMARY_MESSAGE)
  {
    if Truthy(summary) && |summary.value| > MAX_SUMMARY_LENGTH then Rejected(ValueError(SUMMARY_MESSAGE))
    else Accepted(summary)
  }

  /** Post.category: must be one of the two listed categories; absent is not among them. */
  function ValidateCategory(category: Option<string>): (r: Checked<Option<string>>)
    ensures r.Accepted? <==> category == Some("Fiction") || category == Some("Non-Fiction")
    ensures r.Accepted? ==> r.value == category
    ensures r.Rejected? ==> r.error == ValueError(CATEGORY_MESSAGE)
  {
    if category.None? || category.value !in CATEGORIES then Rejected(ValueError(CATEGORY_MESSAGE))
    else Accepted(category)
  }

  /** Reference definition: some keyword of `keywords` occurs in `title`. */
  ghost predicate HasKeyword(keywords: seq<string>, title: string) {
    exists j :: 0 <= j < |keywords| && Occurs(keywords[j], title)
  }

  /** `any(keyword in title for keyword in keywords)`, evaluated left to right. */
  function AnyKeywordIn(keywords: seq<string>, title: string): (found: bool)
    ensures found <==> HasKeyword(keywords, title)
    decreases |keywords|
  {
    if keywords == [] then false
    else if Contains(keywords[0], title) then true
    else
      var rest := AnyKeywordIn(keywords[1..], title);
      assert HasKeyword(keywords, title) <==> HasKeyword(keywords[1..], title) by {
        assert forall j :: 0 < j < |keywords| ==> keywords[j] == keywords[1..][j - 1];
      }
      rest
  }

  /** Post.title: must contain a clickbait keyword, case-sensitively. An absent title is
      not a rejection by the rule: the first `keyword in None` raises a TypeError. */
  function ValidateTitle(title: Option<string>): (r: Checked<Option<string>>)
    ensures title.None? ==> r == Rejected(TypeError(NONE_NOT_ITERABLE))
    ensures title.Some? ==> (r.Accepted? <==> HasKeyword(CLICKBAIT_KEYWORDS, title.value))
    ensures r.Accepted? ==> r.value == title
    ensures title.Some? && r.Rejected? ==> r.error == ValueError(TITLE_MESSAGE)
  {
    if title.None? then Rejected(TypeError(NONE_NOT_ITERABLE))
    else if !AnyKeywordIn(CLICKBAIT_KEYWORDS, title.value) then Rejected(ValueError(TITLE_MESSAGE))
    else Accepted(title)
  }

  /** Every rule returns what it accepts unchanged, so running the rule again on its own
      output accepts again with the same value. */
  lemma RevalidationIsStable(v: Option<string>)
    ensures ValidateName(v).Accepted? ==> ValidateName(ValidateName(v).value) == ValidateName(v)
    ensures ValidatePhoneNumber(v).Accepted? ==> ValidatePhoneNumber(ValidatePhoneNumber(v).value) == ValidatePhoneNumber(v)
    ensures ValidateContent(v).Accepted? ==> ValidateContent(ValidateContent(v).value) == ValidateContent(v)
    ensures ValidateSummary(v).Accepted? ==> ValidateSummary(ValidateSummary(v).value) == ValidateSummary(v)
    ensures ValidateCategory(v).Accepted? ==> ValidateCategory(ValidateCategory(v).value) == ValidateCategory(v)
    ensures ValidateTitle(v).Accepted? ==> ValidateTitle(ValidateTitle(v).value) == ValidateTitle(v)
  {
  }

  /** A title in which none of the keywords' first letters 'W', 'S', 'T', 'G' appears
      is rejected by the title rule. */
  lemma TitleWithoutInitialsRejected(title: string)
    requires 'W' !in title && 'S' !in title && 'T' !in title && 'G' !in title
    ensures ValidateTitle(Some(title)) == Rejected(ValueError(TITLE_MESSAGE))
  {
    forall j | 0 <= j < |CLICKBAIT_KEYWORDS| && Occurs(CLICKBAIT_KEYWORDS[j], title)
      ensures false
    {
      FirstCharOccurs(CLICKBAIT_KEYWORDS[j], title);
    }
  }

  /** A blank name passes; an empty or absent one does not. */
  lemma NameBoundaryCases()
    ensures ValidateName(Some("   ")).Accepted?
    ensures ValidateName(Some("")).Rejected? && ValidateName(None).Rejected?
  {
  }

  /** Ten digits or nothing pass; an empty number, nine digits, a dashed number and a
      letter in tenth place do not. */
  lemma PhoneBoundaryCases()
    ensures ValidatePhoneNumber(Some("5551234567")).Accepted?
    ensures ValidatePhoneNumber(None).Accepted?
    ensures ValidatePhoneNumber(Some("")).Rejected?
    ensures ValidatePhoneNumber(Some("555123456")).Rejected?
    ensures ValidatePhoneNumber(Some("555-123-4567")).Rejected?
    ensures ValidatePhoneNumber(Some("555123456a")).Rejected?
  {
    assert !IsDigit("555123456a"[9]);
  }

  /** Boundary cases of the Post fields other than the title: an empty summary passes, an
      empty content does not, categories are matched case-sensitively. */
  lemma PostBoundaryCases()
    ensures ValidateSummary(Some("")).Accepted? && ValidateSummary(None).Accepted?
    ensures ValidateContent(Some("")).Rejected? && ValidateContent(None).Rejected?
    ensures ValidateCategory(Some("fiction")).Rejected? && ValidateCategory(None).Rejected?
    ensures ValidateTitle(None).error.TypeError?
  {
  }

  /** A title with a keyword passes. */
  lemma TitleAccepted()
    ensures ValidateTitle(Some("Top 10 Secrets")).Accepted?
  {
    assert OccursAt("Top", "Top 10 Secrets", 0);
    assert HasKeyword(CLICKBAIT_KEYWORDS, "Top 10 Secrets") by {
      assert CLICKBAIT_KEYWORDS[2] == "Top";
    }
  }

  /** A title without any keyword fails. */
  lemma TitleRejected()
    ensures ValidateTitle(Some("A Nice Day")).Rejected?
  {
    TitleWithoutInitialsRejected("A Nice Day");
  }

  /** Keywords are matched case-sensitively: lower-case "top" and "secret" do not count. */
  lemma TitleCaseSensitive()
    ensures ValidateTitle(Some("top secret")).Rejected?
  {
    TitleWithoutInitialsRejected("top secret");
  }
}
