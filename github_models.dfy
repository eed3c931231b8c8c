/** The buyer-brief client (lib/llm/githubModels.ts): the schema a brief
    must meet and the checks `generateBuyerBrief` makes, in order, on the
    way to returning one. The model endpoint's reply and the JSON parser are
    parameters. */
module GithubModels {
  import opened Wrappers
  import opened Strings
  import opened Osrm

  /** A brief as the schema types it (`next_steps` is `nextSteps`). */
  datatype Brief = Brief(summary: string, priorities: seq<string>, nextSteps: seq<string>)

  predicate NonEmptyItems(items: seq<string>) {
    forall k :: 0 <= k < |items| ==> |items[k]| >= 1
  }

  /** `BuyerBriefSchema` (lines 7-11): a non-empty summary, three to seven
      non-empty priorities and three to five non-empty next steps. */
  predicate Valid(b: Brief) {
    && |b.summary| >= 1
    && 3 <= |b.priorities| <= 7 && NonEmptyItems(b.priorities)
    && 3 <= |b.nextSteps| <= 5 && NonEmptyItems(b.nextSteps)
  }

  /** A parsed JSON value, as far as the schema looks at it: either it has
      the three fields with the right types (extra keys are dropped), or it
      has not. */
  datatype Candidate = Shaped(brief: Brief) | Unshaped

  /** Why a schema check failed: the first field that breaks a rule. */
  function SchemaIssue(b: Brief): (issue: string)
    ensures issue == "" <==> Valid(b)
  {
    if |b.summary| < 1 then "summary: too short"
    else if |b.priorities| < 3 then "priorities: too few items"
    else if |b.priorities| > 7 then "priorities: too many items"
    else if !NonEmptyItems(b.priorities) then "priorities: empty item"
    else if |b.nextSteps| < 3 then "next_steps: too few items"
    else if |b.nextSteps| > 5 then "next_steps: too many items"
    else if !NonEmptyItems(b.nextSteps) then "next_steps: empty item"
    else ""
  }

  /** `BuyerBriefSchema.safeParse`: the brief itself when it is valid, a
      description of the problem otherwise. */
  function SafeParse(c: Candidate): (r: Result<Brief, string>)
    ensures r.Success? <==> c.Shaped? && Valid(c.brief)
    ensures r.Success? ==> r.value == c.brief
    ensures r.Failure? ==> r.error != ""
  {
    match c
    case Unshaped => Failure("expected an object with summary, priorities and next_steps")
    case Shaped(b) => if Valid(b) then Success(b) else Failure(SchemaIssue(b))
  }

  /** `choices[0].message.content`: absent or another falsy value, a
      string, or an already-decoded value. */
  datatype Content = Falsy | Text(s: string) | Decoded(value: Candidate)

  /** The HTTP reply of the model endpoint. */
  datatype Reply = Reply(ok: bool, status: int, body: string, content: Content)

  /** The errors `generateBuyerBrief` raises, in the order it checks. */
  datatype BriefError =
    | MissingToken
    | ApiError(status: int, body: string)
    | EmptyResponse
    | NonJson
    | InvalidOutput(issue: string)
    | Thrown(message: string)

  /** The `message` of each error. */
  function ErrorMessage(e: BriefError): (m: string)
    ensures |m| >= 1 || e.Thrown?
  {
    match e
    case MissingToken => "Missing GITHUB_TOKEN. In Codespaces, it should be present by default."
    case ApiError(status, body) => "GitHub Models error: " + IntToString(status) + " " + body
    case EmptyResponse => "Empty model response"
    case NonJson => "Model returned non-JSON content"
    case InvalidOutput(issue) => "Model output failed validation: " + issue
    case Thrown(message) => message
  }

  /** Lines 15-78. An empty token fails before any request; otherwise the
      reply (`Threw` when the request or its decoding fails) is checked for
      an HTTP error, empty content, content that is not JSON (`parse`
      answers `None` where `JSON.parse` throws) and a schema failure, in
      that order. */
  function GenerateBuyerBrief(token: string, reply: Call<Reply>, parse: string -> Option<Candidate>)
    : (r: Result<Brief, BriefError>)
    ensures token == "" ==> r == Failure(MissingToken)
    ensures r.Success? ==> Valid(r.value)
    ensures r.Success? <==>
      && token != ""
      && reply.Returned? && reply.value.ok
      && var content := reply.value.content;
      && (content.Decoded? ==> SafeParse(content.value).Success?)
      && (content.Text? ==> content.s != "" && parse(content.s).Some? && SafeParse(parse(content.s).value).Success?)
      && !content.Falsy?
    ensures r.Success? && reply.value.content.Decoded? ==> r.value == reply.value.content.value.brief
    ensures r.Success? && reply.value.content.Text? ==> r.value == parse(reply.value.content.s).value.brief
  {
    if token == "" then Failure(MissingToken)
    else match reply
      case Threw(message) => Failure(Thrown(message))
      case Returned(answer) =>
        if !answer.ok then Failure(ApiError(answer.status, answer.body))
        else match answer.content
          case Falsy => Failure(EmptyResponse)
          case Text(s) =>
            if s == "" then Failure(EmptyResponse)
            else (match parse(s)
              case None => Failure(NonJson)
              case Some(c) => Checked(c))
          case Decoded(c) => Checked(c)
  }

  /** The last step: a schema failure becomes an `InvalidOutput` error. */
  function Checked(c: Candidate): (r: Result<Brief, BriefError>)
    ensures r.Success? <==> SafeParse(c).Success?
  {
    match SafeParse(c)
    case Success(b) => Success(b)
    case Failure(issue) => Failure(InvalidOutput(issue))
  }

  /** The token check comes first: without one no request is made, so the
      reply cannot matter. */
  lemma MissingTokenSendsNothing(reply1: Call<Reply>, reply2: Call<Reply>, parse: string -> Option<Candidate>)
    ensures GenerateBuyerBrief("", reply1, parse) == GenerateBuyerBrief("", reply2, parse)
  {
  }

  /** Each failure of the reply is reported as its own error: an HTTP
      error first, then empty content, then content that is not JSON, then
      a schema failure. */
  lemma GenerateErrors(token: string, answer: Reply, parse: string -> Option<Candidate>)
    requires token != ""
    ensures !answer.ok ==>
      GenerateBuyerBrief(token, Returned(answer), parse) == Failure(ApiError(answer.status, answer.body))
    ensures answer.ok && (answer.content.Falsy? || answer.content == Text("")) ==>
      GenerateBuyerBrief(token, Returned(answer), parse) == Failure(EmptyResponse)
    ensures answer.ok && answer.content.Text? && answer.content.s != "" && parse(answer.content.s).None? ==>
      GenerateBuyerBrief(token, Returned(answer), parse) == Failure(NonJson)
    ensures answer.ok && answer.content.Decoded? && SafeParse(answer.content.value).Failure? ==>
      GenerateBuyerBrief(token, Returned(answer), parse) == Failure(InvalidOutput(SafeParse(answer.content.value).error))
    ensures answer.ok && answer.content.Text? && answer.content.s != "" && parse(answer.content.s).Some?
            && SafeParse(parse(answer.content.s).value).Failure? ==>
      GenerateBuyerBrief(token, Returned(answer), parse)
        == Failure(InvalidOutput(SafeParse(parse(answer.content.s).value).error))
  {
  }
}
