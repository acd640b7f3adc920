/**
 * The questionnaire submission of the `/qna` route: per-question answer
 * validation, scoring, and the staging and commit of the respondent and
 * response rows in the database session.
 */
module Qna {
  import opened Wrappers
  import opened Models

  /**
   * The submitted form fields of the questionnaire: question index i maps to
   * the text of field `q{i}`; an index absent from the map is a field the
   * browser did not send.
   */
  type RawForm = map<nat, string>

  /** Why a submission is aborted before anything is committed. */
  datatype Rejection = MissingAnswer | InvalidAnswer

  /** The notice shown to the respondent for each rejection. */
  function Message(r: Rejection): (m: string)
    ensures m == "Please answer all questions." <==> r == MissingAnswer
    ensures m == "Invalid answer detected." <==> r == InvalidAnswer
  {
    match r
    case MissingAnswer => "Please answer all questions."
    case InvalidAnswer => "Invalid answer detected."
  }

  /** The verdict on a single answer field. */
  datatype FieldCheck = Valid(value: int) | Invalid(reason: Rejection)

  /** The four PHQ-9 answer options are scored 0, 1, 2 and 3. */
  predicate IsAnswerValue(v: int)
  {
    v in {0, 1, 2, 3}
  }

  /**
   * One iteration of the answer loop: a missing field or one that does not
   * parse as an integer is MissingAnswer, an integer outside 0..3 is
   * InvalidAnswer. `parse` stands for Python's `int()` on a string.
   */
  function CheckAnswer(form: RawForm, parse: string -> Option<int>, i: nat): (c: FieldCheck)
    ensures c.Valid? <==> i in form && parse(form[i]).Some? && IsAnswerValue(parse(form[i]).value)
    ensures c.Valid? ==> c.value == parse(form[i]).value
    ensures c == Invalid(InvalidAnswer) <==> i in form && parse(form[i]).Some? && !IsAnswerValue(parse(form[i]).value)
    ensures c == Invalid(MissingAnswer) <==> i !in form || parse(form[i]).None?
  {
    if i !in form then Invalid(MissingAnswer)
    else match parse(form[i])
      case None => Invalid(MissingAnswer)
      case Some(num) => if IsAnswerValue(num) then Valid(num) else Invalid(InvalidAnswer)
  }

  /** Every one of the first k answer fields is valid. */
  ghost predicate ValidUpTo(form: RawForm, parse: string -> Option<int>, k: nat)
  {
    forall j :: 0 <= j < k ==> CheckAnswer(form, parse, j).Valid?
  }

  /**
   * The answers list after examining questions 0..n-1 in order: the answers
   * in question order, or the rejection of the first invalid field.
   */
  function Collect(form: RawForm, parse: string -> Option<int>, n: nat): (r: Result<seq<int>, Rejection>)
    ensures r.Ok? <==> ValidUpTo(form, parse, n)
    ensures r.Ok? ==> |r.value| == n
    ensures r.Ok? ==> forall i :: 0 <= i < n ==> CheckAnswer(form, parse, i) == Valid(r.value[i])
    ensures r.Err? ==> exists k :: 0 <= k < n && ValidUpTo(form, parse, k) && CheckAnswer(form, parse, k) == Invalid(r.error)
  {
    if n == 0 then Ok([])
    else match Collect(form, parse, n - 1)
      case Err(reason) => Err(reason)
      case Ok(prefix) =>
        match CheckAnswer(form, parse, n - 1)
        case Invalid(reason) => Err(reason)
        case Valid(num) => Ok(prefix + [num])
  }

  /** Once a field is rejected, examining more questions does not change the result. */
  lemma {:induction false} CollectErrPersists(form: RawForm, parse: string -> Option<int>, m: nat, n: nat)
    requires m <= n
    requires Collect(form, parse, m).Err?
    ensures Collect(form, parse, n) == Collect(form, parse, m)
  {
    if m < n {
      CollectErrPersists(form, parse, m, n - 1);
    }
  }

  /**
   * Python's `sum` over a list of integers, added left to right. Answers
   * scored 0..3 add up to a total between 0 and 3 per answer.
   */
  function Sum(s: seq<int>): (total: int)
    ensures (forall i :: 0 <= i < |s| ==> IsAnswerValue(s[i])) ==> 0 <= total <= 3 * |s|
  {
    if s == [] then 0 else Sum(s[..|s| - 1]) + s[|s| - 1]
  }

  /** The same total, taking the first element and then the sum of the rest. */
  lemma {:induction false} SumFirst(s: seq<int>)
    requires s != []
    ensures Sum(s) == s[0] + Sum(s[1..])
  {
    if |s| > 1 {
      SumFirst(s[..|s| - 1]);
      assert s[..|s| - 1][1..] == s[1..][..|s[1..]| - 1];
    }
  }

  /**
   * The invariants every stored response keeps: at least one answer, each in
   * 0..3, the score their exact sum, the label the interpreter's for that
   * score, and the flag set exactly when the last answer is above 0.
   */
  ghost predicate WellFormed(r: Response)
  {
    |r.answers| >= 1
    && (forall i :: 0 <= i < |r.answers| ==> IsAnswerValue(r.answers[i]))
    && r.score == Sum(r.answers)
    && r.interpretation == InterpretPhq9(r.score)
    && (r.flaggedSuicidalThoughts <==> r.answers[|r.answers| - 1] > 0)
  }

  /** What a request to the questionnaire route ends in. */
  datatype Outcome =
    | FormShown                   // the respondent form did not validate: the page is rendered again
    | Aborted(reason: Rejection)  // an answer was rejected: notice and redirect, nothing committed
    | Saved(response: Response)   // both rows committed: redirect to the result page

  /**
   * The outcome of one submission, given the ids the database would assign
   * to the new respondent and response rows and the clock reading `now`.
   */
  function Evaluate(formAccepted: bool, form: RawForm, parse: string -> Option<int>, n: nat,
                    respondentId: nat, responseId: nat, now: int): (o: Outcome)
    requires n >= 1
    ensures o == FormShown <==> !formAccepted
    ensures o.Aborted? <==> formAccepted && Collect(form, parse, n).Err?
    ensures o.Aborted? ==> o.reason == Collect(form, parse, n).error
    ensures o.Saved? ==> && o.response.answers == Collect(form, parse, n).value
                         && WellFormed(o.response)
                         && o.response.respondentId == Some(respondentId)
                         && o.response.id == responseId && o.response.submittedAt == now
  {
    if !formAccepted then FormShown
    else match Collect(form, parse, n)
      case Err(reason) => Aborted(reason)
      case Ok(answers) =>
        var score := Sum(answers);
        Saved(Response(responseId, Some(respondentId), now, answers, score,
                       InterpretPhq9(score), answers[n - 1] > 0))
  }

  /**
   * A saved response holds exactly one answer per question, answer i being
   * the parsed value of field i, keeps every stored-response invariant, has
   * a score in 0..3n, and references the staged respondent.
   */
  lemma SavedResponseProperties(formAccepted: bool, form: RawForm, parse: string -> Option<int>, n: nat,
                                respondentId: nat, responseId: nat, now: int)
    requires n >= 1
    requires Evaluate(formAccepted, form, parse, n, respondentId, responseId, now).Saved?
    ensures var r := Evaluate(formAccepted, form, parse, n, respondentId, responseId, now).response;
      && |r.answers| == n
      && (forall i :: 0 <= i < n ==> i in form && parse(form[i]) == Some(r.answers[i]))
      && WellFormed(r)
      && 0 <= r.score <= 3 * n
      && r.respondentId == Some(respondentId)
      && r.id == responseId && r.submittedAt == now
  {
    var answers := Collect(form, parse, n).value;
    forall i | 0 <= i < n
      ensures i in form && parse(form[i]) == Some(answers[i]) && IsAnswerValue(answers[i])
    {
      assert CheckAnswer(form, parse, i) == Valid(answers[i]);
    }
  }

  /** A submission is saved exactly when the respondent form and all n answers are valid. */
  lemma SavedIffAllValid(formAccepted: bool, form: RawForm, parse: string -> Option<int>, n: nat,
                         respondentId: nat, responseId: nat, now: int)
    requires n >= 1
    ensures Evaluate(formAccepted, form, parse, n, respondentId, responseId, now).Saved?
        <==> formAccepted && forall i :: 0 <= i < n ==> CheckAnswer(form, parse, i).Valid?
  {
  }

  /**
   * A submission is aborted with a given reason exactly when some field k is
   * rejected for that reason and every field before k is valid: the first
   * failing question decides.
   */
  lemma AbortedIffFirstRejection(formAccepted: bool, form: RawForm, parse: string -> Option<int>, n: nat,
                                 respondentId: nat, responseId: nat, now: int, reason: Rejection)
    requires n >= 1
    ensures Evaluate(formAccepted, form, parse, n, respondentId, responseId, now) == Aborted(reason)
        <==> formAccepted && exists k :: 0 <= k < n && ValidUpTo(form, parse, k)
                                      && CheckAnswer(form, parse, k) == Invalid(reason)
  {
    if formAccepted && exists k :: 0 <= k < n && ValidUpTo(form, parse, k) && CheckAnswer(form, parse, k) == Invalid(reason) {
      var k :| 0 <= k < n && ValidUpTo(form, parse, k) && CheckAnswer(form, parse, k) == Invalid(reason);
      var r := Collect(form, parse, n);
      assert !ValidUpTo(form, parse, n);
      var k' :| 0 <= k' < n && ValidUpTo(form, parse, k') && CheckAnswer(form, parse, k') == Invalid(r.error);
      assert k == k';
    }
  }

  /**
   * Fields after the first rejected one are never examined: two forms that
   * agree up to and including that field end in the same outcome.
   */
  lemma LaterFieldsIgnored(formAccepted: bool, form: RawForm, form': RawForm, parse: string -> Option<int>,
                           n: nat, k: nat, respondentId: nat, responseId: nat, now: int)
    requires n >= 1 && k < n
    requires ValidUpTo(form, parse, k) && CheckAnswer(form, parse, k).Invalid?
    requires forall j :: 0 <= j <= k ==> (j in form <==> j in form') && (j in form ==> form[j] == form'[j])
    ensures Evaluate(formAccepted, form, parse, n, respondentId, responseId, now)
         == Evaluate(formAccepted, form', parse, n, respondentId, responseId, now)
  {
    var reason := CheckAnswer(form, parse, k).reason;
    forall j | 0 <= j <= k ensures CheckAnswer(form', parse, j) == CheckAnswer(form, parse, j) {
    }
    AbortedIffFirstRejection(formAccepted, form, parse, n, respondentId, responseId, now, reason);
    AbortedIffFirstRejection(formAccepted, form', parse, n, respondentId, responseId, now, reason);
  }

  /**
   * The answer loop of the questionnaire route: fields are read in question
   * order, each appended to the answers once it is an integer in 0..3, and
   * the first field that is missing, not an integer, or out of range ends the
   * loop with its rejection.
   */
  method ReadAnswers(form: RawForm, parse: string -> Option<int>, n: nat)
    returns (result: Result<seq<int>, Rejection>)
    ensures result == Collect(form, parse, n)
  {
    var answers: seq<int> := [];
    var i := 0;
    while i < n
      invariant 0 <= i <= n
      invariant Collect(form, parse, i) == Ok(answers)
    {
      var val := if i in form then Some(form[i]) else None;
      var num := if val.Some? then parse(val.value) else None;
      if num.None? {
        CollectErrPersists(form, parse, i + 1, n);
        return Err(MissingAnswer);
      }
      if !IsAnswerValue(num.value) {
        CollectErrPersists(form, parse, i + 1, n);
        return Err(InvalidAnswer);
      }
      answers := answers + [num.value];
      i := i + 1;
    }
    return Ok(answers);
  }

  /** The respondent with the given id is among the rows. */
  ghost predicate HasRespondent(rows: seq<Respondent>, id: nat)
  {
    exists r :: r in rows && r.id == id
  }

  /**
   * The database seen through one request's session: committed rows, rows
   * added (and flushed, so they have ids) but not yet committed, and the next
   * ids the tables' autoincrement will hand out.
   */
  class Database {
    var respondents: seq<Respondent>
    var responses: seq<Response>
    var pendingRespondents: seq<Respondent>
    var pendingResponses: seq<Response>
    var nextRespondentId: nat
    var nextResponseId: nat

    /**
     * Ids below the counters are the ones already handed out; every stored
     * response is well formed and references a respondent that is committed
     * (for a committed response) or at least staged (for a pending one).
     */
    ghost predicate Valid()
      reads this
    {
      (forall r :: r in respondents + pendingRespondents ==> r.id < nextRespondentId)
      && (forall r :: r in responses + pendingResponses ==> r.id < nextResponseId)
      && (forall r :: r in responses ==>
            WellFormed(r) && r.respondentId.Some? && HasRespondent(respondents, r.respondentId.value))
      && (forall r :: r in pendingResponses ==>
            WellFormed(r) && r.respondentId.Some?
            && HasRespondent(respondents + pendingRespondents, r.respondentId.value))
    }

    /** An empty database; autoincrement ids start at 1. */
    constructor ()
      ensures Valid()
      ensures respondents == [] && responses == []
      ensures pendingRespondents == [] && pendingResponses == []
      ensures nextRespondentId == 1 && nextResponseId == 1
    {
      respondents, responses := [], [];
      pendingRespondents, pendingResponses := [], [];
      nextRespondentId, nextResponseId := 1, 1;
    }

    /** `session.add(respondent)` then `session.flush()`: the row gets its id but is not committed. */
    method StageRespondent(details: RespondentDetails) returns (respondent: Respondent)
      requires Valid()
      modifies this
      ensures Valid()
      ensures respondent == Respondent(old(nextRespondentId), details)
      ensures pendingRespondents == old(pendingRespondents) + [respondent]
      ensures nextRespondentId == old(nextRespondentId) + 1
      ensures respondents == old(respondents) && responses == old(responses)
      ensures pendingResponses == old(pendingResponses) && nextResponseId == old(nextResponseId)
    {
      respondent := Respondent(nextRespondentId, details);
      pendingRespondents := pendingRespondents + [respondent];
      nextRespondentId := nextRespondentId + 1;
    }

    /** `session.add(resp)` for a well-formed response whose respondent is in the session. */
    method StageResponse(response: Response) returns (stored: Response)
      requires Valid()
      requires WellFormed(response) && response.respondentId.Some?
      requires HasRespondent(respondents + pendingRespondents, response.respondentId.value)
      modifies this
      ensures Valid()
      ensures stored == response.(id := old(nextResponseId))
      ensures pendingResponses == old(pendingResponses) + [stored]
      ensures nextResponseId == old(nextResponseId) + 1
      ensures respondents == old(respondents) && responses == old(responses)
      ensures pendingRespondents == old(pendingRespondents) && nextRespondentId == old(nextRespondentId)
    {
      stored := response.(id := nextResponseId);
      pendingResponses := pendingResponses + [stored];
      nextResponseId := nextResponseId + 1;
    }

    /** `session.commit()`: every pending row becomes durable, atomically. */
    method Commit()
      requires Valid()
      modifies this
      ensures Valid()
      ensures respondents == old(respondents) + old(pendingRespondents)
      ensures responses == old(responses) + old(pendingResponses)
      ensures pendingRespondents == [] && pendingResponses == []
      ensures nextRespondentId == old(nextRespondentId) && nextResponseId == old(nextResponseId)
    {
      ghost var all := respondents + pendingRespondents;
      forall r | r in responses + pendingResponses
        ensures HasRespondent(all, r.respondentId.value)
      {
        if r in responses {
          var w :| w in respondents && w.id == r.respondentId.value;
          assert w in all;
        }
      }
      respondents := respondents + pendingRespondents;
      responses := responses + pendingResponses;
      pendingRespondents, pendingResponses := [], [];
    }

    /**
     * The end of a request: the session is removed and whatever it still
     * holds uncommitted is rolled back. Used ids are not reused.
     */
    method Rollback()
      requires Valid()
      modifies this
      ensures Valid()
      ensures respondents == old(respondents) && responses == old(responses)
      ensures pendingRespondents == [] && pendingResponses == []
      ensures nextRespondentId == old(nextRespondentId) && nextResponseId == old(nextResponseId)
    {
      pendingRespondents, pendingResponses := [], [];
    }

    /**
     * The POST branch of the questionnaire route for `n` questions. The
     * respondent is staged before any answer is examined; the answers are
     * read in question order and the first rejected one ends the request
     * without a commit; otherwise the score, label and flag are computed and
     * both rows are committed together.
     */
    method Qna(formAccepted: bool, details: RespondentDetails, form: RawForm,
               parse: string -> Option<int>, n: nat, now: int) returns (outcome: Outcome)
      requires Valid()
      requires n >= 1
      modifies this
      ensures Valid()
      ensures outcome == Evaluate(formAccepted, form, parse, n, old(nextRespondentId), old(nextResponseId), now)
      ensures !formAccepted ==> unchanged(this)
      ensures outcome.Aborted? ==>
        && respondents == old(respondents) && responses == old(responses)
        && pendingRespondents == old(pendingRespondents) + [Respondent(old(nextRespondentId), details)]
        && pendingResponses == old(pendingResponses)
        && nextRespondentId == old(nextRespondentId) + 1 && nextResponseId == old(nextResponseId)
      ensures outcome.Saved? ==>
        && respondents == old(respondents) + old(pendingRespondents) + [Respondent(old(nextRespondentId), details)]
        && responses == old(responses) + old(pendingResponses) + [outcome.response]
        && pendingRespondents == [] && pendingResponses == []
        && nextRespondentId == old(nextRespondentId) + 1 && nextResponseId == old(nextResponseId) + 1
    {
      if !formAccepted {
        return FormShown;
      }
      var respondent := StageRespondent(details);

      var read := ReadAnswers(form, parse, n);
      match read
      case Err(reason) =>
        outcome := Aborted(reason);
      case Ok(answers) =>
        var resp := Save(respondent, answers, now);
        outcome := Saved(resp);
    }

    /**
     * The tail of the questionnaire route once every answer has validated:
     * score, label and flag are computed, the response is added referencing
     * the staged respondent, and the session is committed.
     */
    method Save(respondent: Respondent, answers: seq<int>, now: int) returns (resp: Response)
      requires Valid()
      requires respondent in pendingRespondents
      requires |answers| >= 1 && forall i :: 0 <= i < |answers| ==> IsAnswerValue(answers[i])
      modifies this
      ensures Valid()
      ensures resp == Response(old(nextResponseId), Some(respondent.id), now, answers, Sum(answers),
                               InterpretPhq9(Sum(answers)), answers[|answers| - 1] > 0)
      ensures respondents == old(respondents) + old(pendingRespondents)
      ensures responses == old(responses) + old(pendingResponses) + [resp]
      ensures pendingRespondents == [] && pendingResponses == []
      ensures nextRespondentId == old(nextRespondentId) && nextResponseId == old(nextResponseId) + 1
    {
      var score := Sum(answers);
      var interpretation := InterpretPhq9(score);
      var flagged := answers[|answers| - 1] > 0;
      resp := Response(0, Some(respondent.id), now, answers, score, interpretation, flagged);
      assert respondent in respondents + pendingRespondents;
      resp := StageResponse(resp);
      Commit();
    }

    /**
     * A whole request to the questionnaire route on a fresh session: the
     * route followed by the session teardown. A rejected submission leaves
     * the committed tables as they were; a saved one adds exactly one
     * respondent and one response, linked by the respondent's id.
     */
    method HandleRequest(formAccepted: bool, details: RespondentDetails, form: RawForm,
                         parse: string -> Option<int>, n: nat, now: int) returns (outcome: Outcome)
      requires Valid()
      requires n >= 1
      requires pendingRespondents == [] && pendingResponses == []
      modifies this
      ensures Valid()
      ensures pendingRespondents == [] && pendingResponses == []
      ensures outcome == Evaluate(formAccepted, form, parse, n, old(nextRespondentId), old(nextResponseId), now)
      ensures !outcome.Saved? ==> respondents == old(respondents) && responses == old(responses)
      ensures outcome.Saved? ==>
        && respondents == old(respondents) + [Respondent(old(nextRespondentId), details)]
        && responses == old(responses) + [outcome.response]
        && outcome.response.respondentId == Some(old(nextRespondentId))
        && WellFormed(outcome.response) && |outcome.response.answers| == n
    {
      outcome := Qna(formAccepted, details, form, parse, n, now);
      if outcome.Saved? {
        SavedResponseProperties(formAccepted, form, parse, n, old(nextRespondentId), old(nextResponseId), now);
      }
      Rollback();
    }
  }
}
