/** The bookkeeping of `AgentEvaluator` in demo-evaluation/demo_evaluation.py:
    the loop of `evaluate_agent` that runs every test case through an agent
    and records the answers, and the metrics of `analyze_results`. The agent,
    `str` of its reply and the clock are parameters; writing the JSON file
    and drawing the chart are outside the model. */
module Evaluation {
  import opened Common

  /** One entry of the test-case JSON file; any of its keys may be absent. */
  datatype TestCase = TestCase(
    id: Option<string>,
    category: Option<string>,
    query: Option<string>,
    expected: Option<string>)

  /** One dict appended to `results`. */
  datatype ResultRecord = ResultRecord(
    testId: string,
    category: string,
    query: string,
    expected: string,
    actual: string,
    responseTime: real)

  /** Every test case has a `"query"` key. */
  predicate AllQueried(testCases: seq<TestCase>) {
    forall i | 0 <= i < |testCases| :: testCases[i].query.Some?
  }

  /** The record made for a test case, given the reply and the time taken. */
  function RecordOf(c: TestCase, actual: string, responseTime: real): (r: ResultRecord)
    requires c.query.Some?
    ensures r.query == c.query.value
    ensures r.actual == actual && r.responseTime == responseTime
  {
    ResultRecord(c.id.GetOr(""), c.category.GetOr(""), c.query.value, c.expected.GetOr(""),
                 actual, responseTime)
  }

  /** A missing `id`, `category` or `expected` becomes `""`; one that is
      present is copied. */
  lemma RecordDefaults(c: TestCase, actual: string, responseTime: real)
    requires c.query.Some?
    ensures RecordOf(c, actual, responseTime).testId == (if c.id.Some? then c.id.value else "")
    ensures RecordOf(c, actual, responseTime).category == (if c.category.Some? then c.category.value else "")
    ensures RecordOf(c, actual, responseTime).expected == (if c.expected.Some? then c.expected.value else "")
  {
  }

  /** `evaluate_agent(agent, agent_name)`. `agent` models the agent's reply
      to a query and `str` its string form; `elapsed(i)` is the measured
      duration of the `i`-th case. `calls` records the queries the agent was
      asked, in order. A case without `"query"` raises `KeyError` before the
      agent is called for it, and nothing after it runs. */
  method EvaluateAgent<R>(testCases: seq<TestCase>, agent: string -> R, str: R -> string,
                          elapsed: nat -> real)
    returns (outcome: Result<seq<ResultRecord>>, ghost calls: seq<string>)
    ensures outcome.Ok? <==> AllQueried(testCases)
    ensures outcome.Ok? ==>
      |outcome.value| == |testCases|
      && forall i | 0 <= i < |testCases| ::
           outcome.value[i] == RecordOf(testCases[i], str(agent(testCases[i].query.value)), elapsed(i))
    ensures outcome.Raised? ==>
      outcome.error == KeyError("query")
      && |calls| < |testCases| && testCases[|calls|].query.None?
    ensures outcome.Ok? ==> |calls| == |testCases|
    ensures |calls| <= |testCases|
    ensures forall i | 0 <= i < |calls| :: testCases[i].query == Some(calls[i])
  {
    var results: seq<ResultRecord> := [];
    calls := [];
    var i := 0;
    while i < |testCases|
      invariant 0 <= i <= |testCases|
      invariant |results| == i && |calls| == i
      invariant forall j | 0 <= j < i :: testCases[j].query == Some(calls[j])
      invariant forall j | 0 <= j < i ::
        results[j] == RecordOf(testCases[j], str(agent(testCases[j].query.value)), elapsed(j))
    {
      var c := testCases[i];
      if c.query.None? {
        return Raised(KeyError("query")), calls;
      }
      var query := c.query.value;
      var response := agent(query);
      calls := calls + [query];
      var record := RecordOf(c, str(response), elapsed(i));
      results := results + [record];
      i := i + 1;
    }
    outcome := Ok(results);
  }

  // ---------------------------------------------------------------------
  // Metrics
  // ---------------------------------------------------------------------

  /** The count entries of the metrics dict of `analyze_results`. */
  datatype Metrics = Metrics(totalTests: nat, categories: map<string, nat>)

  /** The categories of the records, in order. */
  function Categories(results: seq<ResultRecord>): (r: seq<string>)
    ensures |r| == |results|
    ensures forall i | 0 <= i < |results| :: r[i] == results[i].category
  {
    seq(|results|, i requires 0 <= i < |results| => results[i].category)
  }

  /** How many times `c` occurs in `xs`. */
  function Occurrences(xs: seq<string>, c: string): nat
    decreases |xs|
  {
    if xs == [] then 0 else (if xs[0] == c then 1 else 0) + Occurrences(xs[1..], c)
  }

  /** `Occurrences` is the multiplicity of `c` in the multiset of `xs`. */
  lemma {:induction false} OccurrencesIsMultiplicity(xs: seq<string>, c: string)
    ensures Occurrences(xs, c) == multiset(xs)[c]
    decreases |xs|
  {
    if xs != [] {
      OccurrencesIsMultiplicity(xs[1..], c);
      assert xs == [xs[0]] + xs[1..];
      assert multiset(xs) == multiset{xs[0]} + multiset(xs[1..]);
    }
  }

  /** Each distinct element of `xs` mapped to how often it occurs. */
  function CountMap(xs: seq<string>): map<string, nat> {
    map c | c in xs :: Occurrences(xs, c)
  }

  /** `df["category"].value_counts().to_dict()`. */
  function CategoryCounts(results: seq<ResultRecord>): (r: map<string, nat>)
    ensures r.Keys == set i | 0 <= i < |results| :: results[i].category
    ensures forall c | c in r :: r[c] == multiset(Categories(results))[c]
  {
    var cs := Categories(results);
    assert forall c | c in cs :: Occurrences(cs, c) == multiset(cs)[c] by {
      forall c | c in cs {
        OccurrencesIsMultiplicity(cs, c);
      }
    }
    CountMap(cs)
  }

  /** The count metrics of `analyze_results(results, agent_name)`. A frame
      built from no records has no columns, so the dict literal raises
      `KeyError` at its `response_time` entry, before the counts. */
  function AnalyzeResults(results: seq<ResultRecord>): (r: Result<Metrics>)
    ensures results == [] <==> r == Raised(KeyError("response_time"))
    ensures r.Ok? ==>
      r.value.totalTests == |results| && r.value.categories == CategoryCounts(results)
  {
    if results == [] then Raised(KeyError("response_time"))
    else Ok(Metrics(|results|, CategoryCounts(results)))
  }

  /** Every category that occurs is counted at least once. */
  lemma {:induction false} OccurrencesPositive(xs: seq<string>, c: string)
    requires c in xs
    ensures Occurrences(xs, c) >= 1
    decreases |xs|
  {
    if xs[0] != c {
      assert c in xs[1..];
      OccurrencesPositive(xs[1..], c);
    }
  }

  lemma CategoryCountsPositive(results: seq<ResultRecord>)
    ensures forall c | c in CategoryCounts(results) :: CategoryCounts(results)[c] >= 1
  {
    var cats := Categories(results);
    forall c | c in CategoryCounts(results) ensures CategoryCounts(results)[c] >= 1 {
      OccurrencesPositive(cats, c);
    }
  }

  /** The sum of `counts[k]` over a listing `ks` of categories. */
  function SumCounts(ks: seq<string>, counts: map<string, nat>): nat
    requires forall k | k in ks :: k in counts
    decreases |ks|
  {
    if ks == [] then 0 else counts[ks[0]] + SumCounts(ks[1..], counts)
  }

  predicate Distinct(ks: seq<string>) {
    forall i, j | 0 <= i < j < |ks| :: ks[i] != ks[j]
  }

  /** In a listing of distinct keys, a key occurs once or not at all. */
  lemma {:induction false} OccursOnce(ks: seq<string>, x: string)
    requires Distinct(ks)
    ensures Occurrences(ks, x) == (if x in ks then 1 else 0)
    decreases |ks|
  {
    if ks != [] {
      assert Distinct(ks[1..]) by {
        forall i, j | 0 <= i < j < |ks[1..]| ensures ks[1..][i] != ks[1..][j] {
          assert ks[1..][i] == ks[i + 1] && ks[1..][j] == ks[j + 1];
        }
      }
      OccursOnce(ks[1..], x);
      if ks[0] == x {
        forall i | 0 <= i < |ks[1..]| ensures ks[1..][i] != x {
          assert ks[1..][i] == ks[i + 1];
        }
      } else {
        assert x in ks <==> x in ks[1..] by {
          assert ks == [ks[0]] + ks[1..];
        }
      }
    }
  }

  /** The keys `ks` and their occurrence counts in `xs`, summed. */
  function SumOccurrences(ks: seq<string>, xs: seq<string>): nat
    decreases |ks|
  {
    if ks == [] then 0 else Occurrences(xs, ks[0]) + SumOccurrences(ks[1..], xs)
  }

  lemma {:induction false} SumOccurrencesStep(ks: seq<string>, xs: seq<string>)
    requires xs != []
    ensures SumOccurrences(ks, xs) == Occurrences(ks, xs[0]) + SumOccurrences(ks, xs[1..])
    decreases |ks|
  {
    if ks != [] {
      SumOccurrencesStep(ks[1..], xs);
    }
  }

  /** Over a listing of distinct keys that covers every element of `xs`,
      the occurrence counts add up to `|xs|`. */
  lemma {:induction false} SumOccurrencesTotal(ks: seq<string>, xs: seq<string>)
    requires Distinct(ks)
    requires forall x | x in xs :: x in ks
    ensures SumOccurrences(ks, xs) == |xs|
    decreases |xs|
  {
    if xs == [] {
      SumOccurrencesEmpty(ks);
    } else {
      assert xs[0] in xs;
      assert forall x | x in xs[1..] :: x in xs;
      SumOccurrencesStep(ks, xs);
      OccursOnce(ks, xs[0]);
      SumOccurrencesTotal(ks, xs[1..]);
    }
  }

  lemma {:induction false} SumOccurrencesEmpty(ks: seq<string>)
    ensures SumOccurrences(ks, []) == 0
    decreases |ks|
  {
    if ks != [] {
      SumOccurrencesEmpty(ks[1..]);
    }
  }

  lemma {:induction false} SumCountsIsSumOccurrences(ks: seq<string>, xs: seq<string>)
    requires forall k | k in ks :: k in xs
    ensures forall k | k in ks :: k in CountMap(xs)
    ensures SumCounts(ks, CountMap(xs)) == SumOccurrences(ks, xs)
    decreases |ks|
  {
    if ks != [] {
      assert ks[0] in ks;
      assert forall k | k in ks[1..] :: k in ks;
      SumCountsIsSumOccurrences(ks[1..], xs);
    }
  }

  /** The category counts add up to `total_tests`: summed over any listing
      of the categories that names each exactly once, they give the number
      of records. */
  lemma CategoryCountsSum(results: seq<ResultRecord>, ks: seq<string>)
    requires results != []
    requires Distinct(ks)
    requires forall k | k in ks :: k in AnalyzeResults(results).value.categories
    requires forall k | k in AnalyzeResults(results).value.categories :: k in ks
    ensures SumCounts(ks, AnalyzeResults(results).value.categories)
            == AnalyzeResults(results).value.totalTests
  {
    var cats := Categories(results);
    assert forall k | k in ks :: k in cats;
    SumCountsIsSumOccurrences(ks, cats);
    SumOccurrencesTotal(ks, cats);
  }
}
