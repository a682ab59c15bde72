/** `validateIncidentMiddleware`: the rules a request creating an incident
    must pass before it reaches the controller. */
module ValidateIncident {
  import opened Common
  import opened ExpressValidator

  const TitleRequired: string := "Title is required."
  const DescriptionRequired: string := "Description is required."
  const EnvironmentInvalid: string := "Environment must be one of Production, Staging, or Development."
  const Environments: seq<string> := ["Production", "Staging", "Development"]

  /** The errors of the three checks, in the order they are declared: a
      title, a description, and an environment from the three allowed. */
  function IncidentErrors(body: Body): (errs: seq<FieldError>)
    ensures |errs| <= 3
    ensures errs == [] <==> (NotEmpty(body, "title") && NotEmpty(body, "description")
      && Checked(body, "environment") in Environments)
    ensures forall e | e in errs :: e.msg in {TitleRequired, DescriptionRequired, EnvironmentInvalid}
    ensures (exists e | e in errs :: e.msg == TitleRequired) <==> !NotEmpty(body, "title")
    ensures (exists e | e in errs :: e.msg == DescriptionRequired) <==> !NotEmpty(body, "description")
    ensures (exists e | e in errs :: e.msg == EnvironmentInvalid) <==> Checked(body, "environment") !in Environments
  {
    var t := NotEmptyErrors(body, "title", TitleRequired);
    var d := NotEmptyErrors(body, "description", DescriptionRequired);
    var v := IsInErrors(body, "environment", Environments, EnvironmentInvalid);
    assert forall e | e in t + d + v :: e in t || e in d || e in v;
    t + d + v
  }

  /** The request goes on exactly when all three checks pass; otherwise the
      answer is 400 with every failed check, and `next` is not called. */
  function ValidateIncidentMiddleware(body: Body): (o: Outcome)
    ensures o.Next? <==> (NotEmpty(body, "title") && NotEmpty(body, "description")
      && Checked(body, "environment") in Environments)
    ensures o.Rejected? ==> o.status == 400 && o.errors == IncidentErrors(body) && o.errors != []
  {
    Respond(IncidentErrors(body))
  }

  /** A well-formed request passes; one missing its title is refused with
      exactly the title error. */
  lemma Examples()
    ensures ValidateIncidentMiddleware(map["title" := "Outage", "description" := "DB down", "environment" := "Production"]) == Next
    ensures ValidateIncidentMiddleware(map["description" := "DB down", "environment" := "Staging"])
      == Rejected(400, [FieldError("title", None, TitleRequired)])
  {
    var ok := map["title" := "Outage", "description" := "DB down", "environment" := "Production"];
    assert Checked(ok, "environment") == Environments[0];
    var bad := map["description" := "DB down", "environment" := "Staging"];
    assert Checked(bad, "environment") == Environments[1];
  }
}

/** `validateIncident`, a second copy of the same rules kept in another
    directory: it applies the incident checks unchanged. */
module ValidateIncidentCopy {
  import opened ExpressValidator
  import ValidateIncident

  /** Accepts and refuses exactly the requests the first copy does, with
      the same errors. */
  function ValidateIncidentRules(body: Body): (o: Outcome)
    ensures o.Next? <==> (NotEmpty(body, "title") && NotEmpty(body, "description")
      && Checked(body, "environment") in ValidateIncident.Environments)
    ensures o.Rejected? ==> o.status == 400 && o.errors == ValidateIncident.IncidentErrors(body)
    ensures o == ValidateIncident.ValidateIncidentMiddleware(body)
  {
    Respond(ValidateIncident.IncidentErrors(body))
  }
}
