/**
 * The persisted entities of the PHQ-9 screening application and the
 * severity interpreter that turns a total score into one of five labels.
 */
module Models {
  import opened Wrappers

  /** The fields a respondent enters on the intake form. */
  datatype RespondentDetails = RespondentDetails(
    name: string,
    email: string,
    age: Option<int>,
    gender: Option<string>)

  /** A row of the `respondents` table; `id` is its surrogate key. */
  datatype Respondent = Respondent(id: nat, details: RespondentDetails)

  /**
   * A row of the `responses` table. `respondentId` is a nullable foreign key;
   * `submittedAt` is the submission time as an integer timestamp.
   */
  datatype Response = Response(
    id: nat,
    respondentId: Option<nat>,
    submittedAt: int,
    answers: seq<int>,
    score: int,
    interpretation: string,
    flaggedSuicidalThoughts: bool)

  const MinimalLabel: string := "Minimal or none (0-4)"
  const MildLabel: string := "Mild (5-9)"
  const ModerateLabel: string := "Moderate (10-14)"
  const ModeratelySevereLabel: string := "Moderately severe (15-19)"
  const SevereLabel: string := "Severe (20-27)"

  /** The five severity labels, mildest first. */
  const Labels: seq<string> :=
    [MinimalLabel, MildLabel, ModerateLabel, ModeratelySevereLabel, SevereLabel]

  /**
   * Reference definition of the severity band: the published PHQ-9 cut-points
   * 5, 10, 15 and 20 are five points apart, so the band is the score divided
   * by five, clamped to 0..4 (negative scores fall in band 0).
   */
  function Band(score: int): (b: nat)
    ensures b < |Labels|
  {
    var q := score / 5;
    if q <= 0 then 0 else if q >= 4 then 4 else q
  }

  /** interpret_phq9: the label of a total score, as an if/elif chain. */
  function InterpretPhq9(score: int): (text: string)
    ensures text == Labels[Band(score)]
  {
    if score <= 4 then MinimalLabel
    else if 5 <= score <= 9 then MildLabel
    else if 10 <= score <= 14 then ModerateLabel
    else if 15 <= score <= 19 then ModeratelySevereLabel
    else SevereLabel
  }

  /** The position of a label among the five, 0 for the mildest. */
  function Rank(text: string): (i: nat)
    requires text in Labels
    ensures i < |Labels| && Labels[i] == text
  {
    if text == MinimalLabel then 0
    else if text == MildLabel then 1
    else if text == ModerateLabel then 2
    else if text == ModeratelySevereLabel then 3
    else 4
  }

  /** No two bands share a label. */
  lemma LabelsDistinct()
    ensures forall i, j :: 0 <= i < j < |Labels| ==> Labels[i] != Labels[j]
  {
    assert MinimalLabel[0] == 'M' && MildLabel[0] == 'M' && ModerateLabel[0] == 'M';
    assert MinimalLabel[1] == 'i' && MildLabel[1] == 'i' && MildLabel[2] == 'l';
    assert MinimalLabel[2] == 'n';
    assert ModerateLabel[1] == 'o' && ModeratelySevereLabel[1] == 'o' && SevereLabel[0] == 'S';
    assert ModeratelySevereLabel[8] == 'l' && ModerateLabel[8] == ' ';
  }

  /**
   * Every score, negative and above 27 included, gets exactly one of the five
   * labels: the one of its band and no other.
   */
  lemma InterpretExactlyOne(score: int)
    ensures InterpretPhq9(score) in Labels
    ensures forall b :: 0 <= b < |Labels| ==> (InterpretPhq9(score) == Labels[b] <==> b == Band(score))
  {
    LabelsDistinct();
  }

  /** The cut-points of each band, stated as both directions of an equivalence. */
  lemma InterpretBands(score: int)
    ensures InterpretPhq9(score) == MinimalLabel <==> score <= 4
    ensures InterpretPhq9(score) == MildLabel <==> 5 <= score <= 9
    ensures InterpretPhq9(score) == ModerateLabel <==> 10 <= score <= 14
    ensures InterpretPhq9(score) == ModeratelySevereLabel <==> 15 <= score <= 19
    ensures InterpretPhq9(score) == SevereLabel <==> 20 <= score
  {
    LabelsDistinct();
    assert Labels[0] == MinimalLabel && Labels[1] == MildLabel && Labels[2] == ModerateLabel;
    assert Labels[3] == ModeratelySevereLabel && Labels[4] == SevereLabel;
  }

  /** A higher score never gets a milder band. */
  lemma BandMonotone(s: int, t: int)
    requires s <= t
    ensures Band(s) <= Band(t)
  {
    assert s / 5 <= t / 5;
  }

  /** A higher score never gets a milder label. */
  lemma InterpretMonotone(s: int, t: int)
    requires s <= t
    ensures InterpretPhq9(s) in Labels && InterpretPhq9(t) in Labels
    ensures Rank(InterpretPhq9(s)) <= Rank(InterpretPhq9(t))
  {
    InterpretExactlyOne(s);
    InterpretExactlyOne(t);
    BandMonotone(s, t);
  }
}
