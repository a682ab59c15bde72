/** `validateDiscussionMiddleware`: a discussion entry needs a message and
    an author. */
module ValidateDiscussion {
  import opened Common
  import opened ExpressValidator

  const MessageRequired: string := "Message is required."
  const AuthorRequired: string := "Author is required."

  /** The errors of the two checks, message first. */
  function DiscussionErrors(body: Body): (errs: seq<FieldError>)
    ensures |errs| <= 2
    ensures errs == [] <==> NotEmpty(body, "message") && NotEmpty(body, "author")
    ensures (exists e | e in errs :: e.msg == MessageRequired) <==> !NotEmpty(body, "message")
    ensures (exists e | e in errs :: e.msg == AuthorRequired) <==> !NotEmpty(body, "author")
    ensures forall e | e in errs :: e.msg == MessageRequired || e.msg == AuthorRequired
  {
    var m := NotEmptyErrors(body, "message", MessageRequired);
    var a := NotEmptyErrors(body, "author", AuthorRequired);
    assert forall e | e in m + a :: e in m || e in a;
    m + a
  }

  /** The request goes on exactly when both fields are present and
      non-empty; otherwise 400 with the failed checks and no `next`. */
  function ValidateDiscussionMiddleware(body: Body): (o: Outcome)
    ensures o.Next? <==> NotEmpty(body, "message") && NotEmpty(body, "author")
    ensures o.Rejected? ==> o.status == 400 && o.errors == DiscussionErrors(body) && o.errors != []
  {
    Respond(DiscussionErrors(body))
  }
}
