/** The buyer-brief endpoint (app/api/brief/route.ts): it asks the model
    for a brief, appends the TREC price disclosure when the brief or the
    intake talks about price, validates the result again and answers with
    it, or with a 500 carrying the error's message. */
module BriefRoute {
  import opened Wrappers
  import opened Strings
  import opened Osrm
  import opened GithubModels

  /** The disclosure required next to an estimated sale price. */
  const Trec: string := "This represents an estimated sale price for this property. It is not the same as the opinion of value in an appraisal developed by a licensed appraiser under the Uniform Standards of Professional Appraisal Practice."

  /** A field of the intake as JavaScript sees it when testing truthiness. */
  datatype JsValue = Undefined | Null | Bool(b: bool) | Number(x: real) | Str(s: string) | Composite

  /** JavaScript truthiness (NaN is not modelled). */
  predicate Truthy(v: JsValue) {
    match v
    case Undefined => false
    case Null => false
    case Bool(b) => b
    case Number(x) => x != 0.0
    case Str(s) => s != ""
    case Composite => true
  }

  /** The fields of the intake the endpoint reads; the rest goes to the
      model untouched. A missing intake reads as two `Undefined`s. */
  datatype Intake = Intake(budgetMin: JsValue, budgetMax: JsValue)

  /** `/\$\d/.test(s)`, scanning left to right. */
  function HasDollarDigit(s: string): bool {
    if |s| < 2 then false
    else (s[0] == '$' && IsDigit(s[1])) || HasDollarDigit(s[1..])
  }

  /** The scan finds a match exactly when some `$` is followed by a digit. */
  lemma {:induction false} HasDollarDigitIff(s: string)
    ensures HasDollarDigit(s) <==> exists i :: 0 <= i < |s| - 1 && s[i] == '$' && IsDigit(s[i + 1])
  {
    if |s| >= 2 {
      HasDollarDigitIff(s[1..]);
      if HasDollarDigit(s[1..]) {
        var i :| 0 <= i < |s[1..]| - 1 && s[1..][i] == '$' && IsDigit(s[1..][i + 1]);
        assert s[i + 1] == '$' && IsDigit(s[i + 2]);
      }
      if exists i :: 0 <= i < |s| - 1 && s[i] == '$' && IsDigit(s[i + 1]) {
        var i :| 0 <= i < |s| - 1 && s[i] == '$' && IsDigit(s[i + 1]);
        if i > 0 {
          assert s[1..][i - 1] == '$' && IsDigit(s[1..][i]);
        }
      }
    }
  }

  /** Line 15: a budget in the intake, or a price in the summary. */
  predicate HasPriceContext(intake: Intake, summary: string) {
    Truthy(intake.budgetMin) || Truthy(intake.budgetMax) || HasDollarDigit(summary)
  }

  /** Line 16: the summary, with the disclosure after a blank line when
      there is price context. */
  function WithDisclosure(summary: string, priceContext: bool): (r: string)
    ensures |summary| <= |r| && r[..|summary|] == summary
    ensures priceContext ==> r[|summary|..] == "\n\n" + Trec
    ensures !priceContext ==> r == summary
  {
    if priceContext then summary + "\n\n" + Trec else summary
  }

  /** The endpoint's answer: the brief, or a status with an `error` text. */
  datatype BriefResponse = BriefOk(brief: Brief) | BriefFailed(status: int, error: string)

  /** Lines 19-21: every error is a 500 with its message, or a stock text
      when the message is empty. */
  function Failed(message: string): (r: BriefResponse)
    ensures r.BriefFailed? && r.status == 500 && r.error != ""
    ensures message != "" ==> r.error == message
  {
    BriefFailed(500, if message != "" then message else "Failed to generate brief")
  }

  /** Lines 9-22. `intake` is the decoded request body (`Threw` when it is
      not JSON); the model call is `GenerateBuyerBrief` with the token, the
      endpoint's reply and the JSON parser. */
  function PostBrief(intake: Call<Intake>, token: string, reply: Call<Reply>, parse: string -> Option<Candidate>)
    : (r: BriefResponse)
    ensures r.BriefFailed? ==> r.status == 500
    ensures r.BriefOk? ==> Valid(r.brief)
    ensures r.BriefOk? ==>
      && intake.Returned?
      && var generated := GenerateBuyerBrief(token, reply, parse);
      && generated.Success?
      && r.brief.priorities == generated.value.priorities
      && r.brief.nextSteps == generated.value.nextSteps
      && r.brief.summary ==
           WithDisclosure(generated.value.summary, HasPriceContext(intake.value, generated.value.summary))
  {
    match intake
    case Threw(message) => Failed(message)
    case Returned(fields) =>
      match GenerateBuyerBrief(token, reply, parse)
      case Failure(e) => Failed(ErrorMessage(e))
      case Success(brief) =>
        var summary := WithDisclosure(brief.summary, HasPriceContext(fields, brief.summary));
        match SafeParse(Shaped(brief.(summary := summary)))
        case Success(safe) => BriefOk(safe)
        case Failure(issue) => Failed(issue)
  }

  /** Appending keeps a valid brief valid, so the second validation cannot
      fail: whenever the intake decodes and the model's brief is accepted,
      the endpoint answers with it. */
  lemma PostBriefSucceeds(intake: Intake, token: string, reply: Call<Reply>, parse: string -> Option<Candidate>)
    requires GenerateBuyerBrief(token, reply, parse).Success?
    ensures PostBrief(Returned(intake), token, reply, parse).BriefOk?
  {
    var brief := GenerateBuyerBrief(token, reply, parse).value;
    var summary := WithDisclosure(brief.summary, HasPriceContext(intake, brief.summary));
    assert summary[..|brief.summary|] == brief.summary;
    assert Valid(brief.(summary := summary));
  }

  /** A failing model call reaches the client as a 500 with the call's
      error message. */
  lemma PostBriefReportsModelError(intake: Intake, token: string, reply: Call<Reply>, parse: string -> Option<Candidate>)
    requires GenerateBuyerBrief(token, reply, parse).Failure?
    ensures var e := GenerateBuyerBrief(token, reply, parse).error;
      && PostBrief(Returned(intake), token, reply, parse) == Failed(ErrorMessage(e))
      && (!e.Thrown? ==> PostBrief(Returned(intake), token, reply, parse).error == ErrorMessage(e))
  {
  }

  /** Line 15 and 16 together: the disclosure is appended exactly when
      there is a budget or a `$` directly followed by a digit. */
  lemma DisclosureWhen(intake: Intake, summary: string)
    ensures WithDisclosure(summary, HasPriceContext(intake, summary)) != summary <==>
      Truthy(intake.budgetMin) || Truthy(intake.budgetMax)
      || exists i :: 0 <= i < |summary| - 1 && summary[i] == '$' && IsDigit(summary[i + 1])
  {
    HasDollarDigitIff(summary);
    if HasPriceContext(intake, summary) {
      assert |WithDisclosure(summary, true)| > |summary|;
    }
  }
}
