/**
 * The feedback page's form logic: validation and trimming of a submission,
 * the form reset after a successful post, the submit button's disabled
 * state, and which stars a rating fills.
 */
module Feedback {
  import opened Wrappers
  import opened Text

  const MaxCommentLength: nat := 200
  const InitialRating: int := 5
  const StarCount: nat := 5

  const MsgMissing: string := "Please provide both rating and comment"
  const MsgTooLong: string := "Comment must be 200 characters or less"
  const MsgThanks: string := "Thank you for your feedback! 🎉"
  const MsgPostFailed: string := "Failed to submit feedback"

  /** The body posted to the feedback endpoint. */
  datatype Post = Post(rating: int, comment: string)

  /** The client-side verdict on a submission. */
  datatype Verdict = Rejected(message: string) | Accepted(post: Post)

  /** `!rating` for a numeric rating. */
  predicate Falsy(rating: int) {
    rating == 0
  }

  /** The checks of `handleSubmit`, in order: a missing rating or a blank
      comment first, then the 200-unit limit on the untrimmed comment. An
      accepted submission carries the rating unchanged and the trimmed
      comment. */
  function Validate(rating: int, comment: string): (v: Verdict)
    ensures v == Rejected(MsgMissing) <==> Falsy(rating) || AllSpace(comment)
    ensures v == Rejected(MsgTooLong) <==>
              !Falsy(rating) && !AllSpace(comment) && Utf16Length(comment) > MaxCommentLength
    ensures v.Accepted? <==> !Falsy(rating) && !AllSpace(comment) && Utf16Length(comment) <= MaxCommentLength
    ensures v.Accepted? ==> v.post.rating == rating && v.post.comment == Trim(comment)
    ensures v.Accepted? ==> v.post.comment != "" && Utf16Length(v.post.comment) <= MaxCommentLength
  {
    TrimEmptyIffAllSpace(comment);
    TrimShortens(comment);
    if Falsy(rating) || Trim(comment) == "" then Rejected(MsgMissing)
    else if Utf16Length(comment) > MaxCommentLength then Rejected(MsgTooLong)
    else Accepted(Post(rating, Trim(comment)))
  }

  /** The page's form state. */
  datatype Form = Form(rating: int, comment: string, submitting: bool, error: string, success: string)

  const InitialForm: Form := Form(InitialRating, "", false, "", "")

  /** What the feedback endpoint answered. */
  datatype ServerOutcome = Created | Failed(error: Option<string>)

  /** `handleSubmit`: the post it sends (if any) and the form afterwards. */
  function Submit(f: Form, outcome: ServerOutcome): (r: (Form, Option<Post>))
    ensures Validate(f.rating, f.comment).Rejected? ==>
              r.1.None? && r.0 == f.(submitting := false, error := Validate(f.rating, f.comment).message, success := "")
    ensures Validate(f.rating, f.comment).Accepted? ==> r.1 == Some(Validate(f.rating, f.comment).post)
    ensures r.1.Some? && outcome.Created? ==> r.0 == Form(InitialRating, "", false, "", MsgThanks)
    ensures r.1.Some? && outcome.Failed? ==>
              r.0.rating == f.rating && r.0.comment == f.comment && !r.0.submitting && r.0.error != ""
  {
    match Validate(f.rating, f.comment)
    case Rejected(msg) => (f.(submitting := false, error := msg, success := ""), None)
    case Accepted(post) =>
      match outcome
      case Created => (Form(InitialRating, "", false, "", MsgThanks), Some(post))
      case Failed(e) =>
        var msg := if e.Some? && e.value != "" then e.value else MsgPostFailed;
        (f.(submitting := false, error := msg, success := ""), Some(post))
  }

  /** `disabled={submitting || !comment.trim()}`. */
  predicate SubmitDisabled(f: Form) {
    f.submitting || Trim(f.comment) == ""
  }

  /** The button is disabled for a blank comment exactly when validation
      would reject that comment as missing. */
  lemma DisabledIffBlankWhenIdle(f: Form)
    requires !f.submitting && !Falsy(f.rating)
    ensures SubmitDisabled(f) <==> Validate(f.rating, f.comment) == Rejected(MsgMissing)
  {
    TrimEmptyIffAllSpace(f.comment);
  }

  /** An enabled button with a real rating and a comment within the limit
      always passes validation. */
  lemma EnabledWithinLimitAccepted(f: Form)
    requires !SubmitDisabled(f) && !Falsy(f.rating) && Utf16Length(f.comment) <= MaxCommentLength
    ensures Validate(f.rating, f.comment).Accepted?
  {
    TrimEmptyIffAllSpace(f.comment);
  }

  /** Star `star` (1-based) is drawn filled for `rating`. */
  predicate StarFilled(star: int, rating: int) {
    star <= rating
  }

  /** The five stars drawn for `rating`, first star first. */
  function Stars(rating: int): (s: seq<bool>)
    ensures |s| == StarCount
    ensures forall i | 0 <= i < StarCount :: s[i] <==> StarFilled(i + 1, rating)
  {
    seq(StarCount, i requires 0 <= i < StarCount => StarFilled(i + 1, rating))
  }

  function CountFilled(s: seq<bool>): nat {
    if s == [] then 0 else (if s[|s| - 1] then 1 else 0) + CountFilled(s[..|s| - 1])
  }

  function Clamp(x: int, lo: int, hi: int): int {
    if x < lo then lo else if x > hi then hi else x
  }

  /** The first `n` stars drawn for `rating`. */
  function StarPrefix(n: nat, rating: int): (s: seq<bool>)
    ensures |s| == n && forall i | 0 <= i < n :: s[i] == StarFilled(i + 1, rating)
  {
    seq(n, i requires 0 <= i < n => StarFilled(i + 1, rating))
  }

  lemma {:induction false} StarPrefixCount(n: nat, rating: int)
    ensures CountFilled(StarPrefix(n, rating)) == Clamp(rating, 0, n)
  {
    if n > 0 {
      StarPrefixCount(n - 1, rating);
      assert StarPrefix(n, rating)[..n - 1] == StarPrefix(n - 1, rating);
    }
  }

  /** Exactly `rating` stars are filled for a rating in 1..5; none below,
      all five above. */
  lemma FilledStarsCount(rating: int)
    ensures CountFilled(Stars(rating)) == Clamp(rating, 0, StarCount)
    ensures 1 <= rating <= 5 ==> CountFilled(Stars(rating)) == rating
  {
    assert Stars(rating) == StarPrefix(StarCount, rating);
    StarPrefixCount(StarCount, rating);
  }

  /** The user's interactions with the form. */
  datatype Event = ClickStar(star: int) | Type(comment: string) | SubmitPressed(outcome: ServerOutcome)

  /** Stars are numbered 1 to 5, so only those clicks exist. */
  predicate ValidEvent(e: Event) {
    e.ClickStar? ==> 1 <= e.star <= StarCount
  }

  function Step(f: Form, e: Event): Form {
    match e
    case ClickStar(star) => f.(rating := star)
    case Type(c) => f.(comment := c)
    case SubmitPressed(outcome) => Submit(f, outcome).0
  }

  function Run(f: Form, events: seq<Event>): Form
    decreases |events|
  {
    if events == [] then f else Run(Step(f, events[0]), events[1..])
  }

  /** Starting from the initial form, the rating always stays within 1..5,
      so the "missing rating" branch can only fire on a blank comment. */
  lemma {:induction false} RatingStaysInRange(f: Form, events: seq<Event>)
    requires 1 <= f.rating <= StarCount
    requires forall i | 0 <= i < |events| :: ValidEvent(events[i])
    ensures 1 <= Run(f, events).rating <= StarCount
    ensures !Falsy(Run(f, events).rating)
    decreases |events|
  {
    if events != [] {
      var g := Step(f, events[0]);
      assert 1 <= g.rating <= StarCount by {
        assert ValidEvent(events[0]);
      }
      RatingStaysInRange(g, events[1..]);
    }
  }
}
