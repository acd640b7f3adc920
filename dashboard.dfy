/**
 * The administrators' listing of stored responses: responses joined with
 * their respondent, optionally narrowed to interpretations that start with a
 * severity prefix, newest first, at most 200 rows.
 */
module Dashboard {
  import opened Wrappers
  import opened Models

  /** The listing never shows more rows than this. */
  const RowLimit: nat := 200

  predicate StartsWith(s: string, prefix: string)
  {
    |prefix| <= |s| && s[..|prefix|] == prefix
  }

  /**
   * The row survives the query's clauses: the inner join keeps responses
   * whose respondent row exists, and a `severity` parameter that is present
   * and non-empty keeps interpretations that start with it.
   */
  predicate Selected(r: Response, respondentIds: set<nat>, severity: Option<string>)
  {
    && r.respondentId.Some? && r.respondentId.value in respondentIds
    && (severity.None? || severity.value == [] || StartsWith(r.interpretation, severity.value))
  }

  /** The selected responses, in table order. */
  function Eligible(responses: seq<Response>, respondentIds: set<nat>, severity: Option<string>): (rows: seq<Response>)
    ensures forall r :: r in rows <==> r in responses && Selected(r, respondentIds, severity)
    ensures forall r :: multiset(rows)[r] == if Selected(r, respondentIds, severity) then multiset(responses)[r] else 0
    ensures |rows| <= |responses|
  {
    if responses == [] then []
    else
      assert responses == [responses[0]] + responses[1..];
      var rest := Eligible(responses[1..], respondentIds, severity);
      if Selected(responses[0], respondentIds, severity) then [responses[0]] + rest else rest
  }

  /** Submission times never increase along the sequence. */
  predicate NewestFirst(s: seq<Response>)
  {
    forall i, j :: 0 <= i < j < |s| ==> s[i].submittedAt >= s[j].submittedAt
  }

  /** A row no older than every row of a newest-first sequence can lead it. */
  lemma NewestFirstCons(h: Response, t: seq<Response>)
    requires NewestFirst(t)
    requires forall k :: 0 <= k < |t| ==> h.submittedAt >= t[k].submittedAt
    ensures NewestFirst([h] + t)
  {
    var r := [h] + t;
    forall i, j | 0 <= i < j < |r| ensures r[i].submittedAt >= r[j].submittedAt {
      if i == 0 {
        assert r[j] == t[j - 1];
      } else {
        assert r[i] == t[i - 1] && r[j] == t[j - 1];
      }
    }
  }

  /**
   * The head of a newest-first sequence is no older than `x` or any row of
   * its tail, so it is no older than any row of a sequence built from them.
   */
  lemma HeadNotOlder(s: seq<Response>, x: Response, rest: seq<Response>)
    requires NewestFirst(s) && s != [] && x.submittedAt < s[0].submittedAt
    requires forall k :: 0 <= k < |rest| ==> rest[k] == x || rest[k] in s[1..]
    ensures forall k :: 0 <= k < |rest| ==> s[0].submittedAt >= rest[k].submittedAt
  {
    forall k | 0 <= k < |rest| ensures s[0].submittedAt >= rest[k].submittedAt {
      if rest[k] != x {
        var m :| 0 <= m < |s[1..]| && s[1..][m] == rest[k];
        assert s[m + 1] == rest[k];
      }
    }
  }

  /** Puts `x` into a newest-first sequence, before the first row not newer than it. */
  function Insert(x: Response, s: seq<Response>): (r: seq<Response>)
    requires NewestFirst(s)
    ensures NewestFirst(r)
    ensures multiset(r) == multiset(s) + multiset{x}
    ensures forall k :: 0 <= k < |r| ==> r[k] == x || r[k] in s
  {
    if s == [] || x.submittedAt >= s[0].submittedAt then
      NewestFirstCons(x, s);
      [x] + s
    else
      var rest := Insert(x, s[1..]);
      assert s == [s[0]] + s[1..];
      HeadNotOlder(s, x, rest);
      NewestFirstCons(s[0], rest);
      [s[0]] + rest
  }

  /** `ORDER BY submitted_at DESC`: the same rows, newest first. */
  function SortNewestFirst(s: seq<Response>): (r: seq<Response>)
    ensures NewestFirst(r)
    ensures multiset(r) == multiset(s)
  {
    if s == [] then []
    else
      assert s == [s[0]] + s[1..];
      Insert(s[0], SortNewestFirst(s[1..]))
  }

  /** Sequences with the same multiset have the same members. */
  lemma SameMembers(s: seq<Response>, t: seq<Response>)
    requires multiset(s) == multiset(t)
    ensures forall r :: r in s ==> r in t
  {
    forall r | r in s ensures r in t {
      assert r in multiset(s);
    }
  }

  /** `LIMIT 200` on an ordered result: its first rows, at most 200 of them. */
  function Limit(sorted: seq<Response>): (rows: seq<Response>)
    ensures |rows| <= RowLimit && rows <= sorted
    ensures forall r :: r in rows ==> r in sorted
  {
    if |sorted| <= RowLimit then sorted else sorted[..RowLimit]
  }

  /**
   * admin_dashboard's query: join, filter, order newest first, limit to 200.
   * (SQL applies the WHERE clause before ORDER BY and LIMIT whatever the
   * order in which the query object was built.)
   */
  function DashboardRows(responses: seq<Response>, respondentIds: set<nat>, severity: Option<string>): (rows: seq<Response>)
    ensures |rows| <= RowLimit
    ensures NewestFirst(rows)
    ensures forall r :: r in rows ==> r in responses && Selected(r, respondentIds, severity)
  {
    var e := Eligible(responses, respondentIds, severity);
    var sorted := SortNewestFirst(e);
    SameMembers(sorted, e);
    Limit(sorted)
  }

  /**
   * Limiting a newest-first sequence keeps min(200, n) of its n rows, all of
   * them when n is at most 200, and every row it drops is no newer than any
   * row it keeps.
   */
  lemma LimitKeepsNewest(sorted: seq<Response>)
    requires NewestFirst(sorted)
    ensures var rows := Limit(sorted);
      && |rows| == (if |sorted| <= RowLimit then |sorted| else RowLimit)
      && multiset(rows) <= multiset(sorted)
      && (|sorted| <= RowLimit ==> rows == sorted)
      && forall x: Response, i :: x in multiset(sorted) - multiset(rows) && 0 <= i < |rows|
           ==> x.submittedAt <= rows[i].submittedAt
  {
    var rows := Limit(sorted);
    var k := |rows|;
    assert rows == sorted[..k];
    assert sorted == rows + sorted[k..];
    assert multiset(sorted) == multiset(rows) + multiset(sorted[k..]);
    forall x: Response, i | x in multiset(sorted) - multiset(rows) && 0 <= i < k
      ensures x.submittedAt <= rows[i].submittedAt
    {
      assert x in multiset(sorted[k..]);
      var j :| 0 <= j < |sorted[k..]| && sorted[k..][j] == x;
      assert sorted[k + j] == x && sorted[i] == rows[i];
    }
  }

  /**
   * Nothing selected is lost except to the limit: the listing holds
   * min(200, n) of the n selected rows, and all of them when n is at most 200.
   */
  lemma DashboardComplete(responses: seq<Response>, respondentIds: set<nat>, severity: Option<string>)
    ensures var e := Eligible(responses, respondentIds, severity);
            var rows := DashboardRows(responses, respondentIds, severity);
      && |rows| == (if |e| <= RowLimit then |e| else RowLimit)
      && multiset(rows) <= multiset(e)
      && (|e| <= RowLimit ==> multiset(rows) == multiset(e))
  {
    var e := Eligible(responses, respondentIds, severity);
    var sorted := SortNewestFirst(e);
    LimitKeepsNewest(sorted);
    assert DashboardRows(responses, respondentIds, severity) == Limit(sorted);
    assert |multiset(sorted)| == |multiset(e)|;
  }

  /** Every selected row left out of the listing is no newer than any row shown. */
  lemma DashboardKeepsNewest(responses: seq<Response>, respondentIds: set<nat>, severity: Option<string>)
    ensures var e := Eligible(responses, respondentIds, severity);
            var rows := DashboardRows(responses, respondentIds, severity);
      forall x: Response, i :: x in multiset(e) - multiset(rows) && 0 <= i < |rows|
        ==> x.submittedAt <= rows[i].submittedAt
  {
    var e := Eligible(responses, respondentIds, severity);
    var sorted := SortNewestFirst(e);
    LimitKeepsNewest(sorted);
    assert DashboardRows(responses, respondentIds, severity) == Limit(sorted);
  }

  /** Without a severity parameter, or with an empty one, only the join narrows the rows. */
  lemma {:induction false} EmptySeverityIsNoFilter(responses: seq<Response>, respondentIds: set<nat>)
    ensures Eligible(responses, respondentIds, Some([])) == Eligible(responses, respondentIds, None)
    ensures forall r :: r in Eligible(responses, respondentIds, None)
                   <==> r in responses && r.respondentId.Some? && r.respondentId.value in respondentIds
  {
    if responses != [] {
      EmptySeverityIsNoFilter(responses[1..], respondentIds);
    }
  }

  /** A string starts with every string it is built from on the left. */
  lemma StartsWithAppend(prefix: string, rest: string)
    ensures StartsWith(prefix + rest, prefix)
  {
    assert (prefix + rest)[..|prefix|] == prefix;
  }

  /** A string is not a prefix when it differs at some position. */
  lemma NotPrefixAt(s: string, prefix: string, k: nat)
    requires k < |prefix| && k < |s| && s[k] != prefix[k]
    ensures !StartsWith(s, prefix)
  {
  }

  /** Only the label of the severe band starts with the filter value "Severe". */
  lemma SeverePrefixes()
    ensures StartsWith(SevereLabel, "Severe")
    ensures !StartsWith(MinimalLabel, "Severe") && !StartsWith(MildLabel, "Severe")
    ensures !StartsWith(ModerateLabel, "Severe") && !StartsWith(ModeratelySevereLabel, "Severe")
  {
    assert SevereLabel == "Severe" + " (20-27)";
    StartsWithAppend("Severe", " (20-27)");
    NotPrefixAt(MinimalLabel, "Severe", 0);
    NotPrefixAt(MildLabel, "Severe", 0);
    NotPrefixAt(ModerateLabel, "Severe", 0);
    NotPrefixAt(ModeratelySevereLabel, "Severe", 0);
  }

  /** The labels of the moderate and moderately severe bands start with "Moderate", no others. */
  lemma ModeratePrefixes()
    ensures StartsWith(ModerateLabel, "Moderate") && StartsWith(ModeratelySevereLabel, "Moderate")
    ensures !StartsWith(MinimalLabel, "Moderate") && !StartsWith(MildLabel, "Moderate")
    ensures !StartsWith(SevereLabel, "Moderate")
  {
    assert ModerateLabel == "Moderate" + " (10-14)";
    StartsWithAppend("Moderate", " (10-14)");
    assert ModeratelySevereLabel == "Moderate" + "ly severe (15-19)";
    StartsWithAppend("Moderate", "ly severe (15-19)");
    NotPrefixAt(MinimalLabel, "Moderate", 1);
    NotPrefixAt(MildLabel, "Moderate", 1);
    NotPrefixAt(SevereLabel, "Moderate", 0);
  }

  /** The filter "Severe" selects exactly the responses scored 20 or more. */
  lemma SevereFilterSelectsSevereBand(score: int)
    ensures StartsWith(InterpretPhq9(score), "Severe") <==> score >= 20
  {
    SeverePrefixes();
  }

  /**
   * The filter "Moderate" is a prefix of two labels, so it selects the
   * moderately severe band (15-19) together with the moderate band (10-14).
   */
  lemma ModerateFilterSelectsTwoBands(score: int)
    ensures StartsWith(InterpretPhq9(score), "Moderate") <==> 10 <= score <= 19
  {
    ModeratePrefixes();
  }
}
