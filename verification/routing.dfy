/** Query routing of main.py: the keyword classifier `detect_query_type` and
    the canned-intent resolver `parse_intent`, written as a first-match rule
    table over the lower-cased query. */
module Routing {
  import opened Text
  import opened Cursor

  // ------------------------------------------------------------ classifier

  /** The words whose presence sends a query down the SQL-generation path. */
  const AnalyticalKeywords: seq<string> := [
    "how many", "count", "average", "sum", "total",
    "rows", "maximum", "minimum", "number of", "total number", "age", "salary"
  ]

  /** The two results of `detect_query_type`: "sql_query" and "retrieval". */
  datatype QueryType = SqlQuery | Retrieval

  predicate Analytical(text: string) {
    ContainsAny(Lower(text), AnalyticalKeywords)
  }

  function Classify(query: string): QueryType {
    if Analytical(query) then SqlQuery else Retrieval
  }

  // --------------------------------------------------------------- intents

  const CompaniesSql: string :=
    Select("DISTINCT company FROM people_info "
      + "WHERE company IS NOT NULL AND company != '';")
  const RolesSql: string :=
    Select("DISTINCT role FROM people_info "
      + "WHERE role IS NOT NULL AND role != '';")
  const AgesSql: string := Select("id, name, age FROM people_info;")
  const CountSql: string := Select("COUNT(*) FROM people_info;")
  const SumAgeSql: string := Select("SUM(age) FROM people_info;")
  const AvgAgeSql: string := Select("AVG(age) FROM people_info;")
  const MaxAgeSql: string := Select("MAX(age) FROM people_info;")
  const MinAgeSql: string := Select("MIN(age) FROM people_info;")

  /** The nine fixed statements an intent can carry. */
  const CannedSql: set<string> := {
    NamesSql, CompaniesSql, RolesSql, AgesSql, CountSql, SumAgeSql, AvgAgeSql, MaxAgeSql, MinAgeSql
  }

  /** A second condition some rules add to their trigger words. */
  datatype Guard = Unguarded | AlsoOneOf(words: seq<string>)

  /** One `if any(k in q for k in triggers) ...: return {...}` of
      `parse_intent`. */
  datatype Rule = Rule(triggers: seq<string>, guard: Guard, sql: string, explain: string)

  predicate Fires(rule: Rule, q: string) {
    ContainsAny(q, rule.triggers) && (rule.guard.AlsoOneOf? ==> ContainsAny(q, rule.guard.words))
  }

  const NameRule: Rule :=
    Rule(["name", "names", "list names", "just tell me the names", "tell me the names", "all the people"],
         Unguarded, NamesSql, "list of names")
  const CompanyRule: Rule :=
    Rule(["company", "companies", "list companies", "which companies"],
         Unguarded, CompaniesSql, "distinct companies")
  const RoleRule: Rule :=
    Rule(["role", "roles", "list roles", "what roles"],
         Unguarded, RolesSql, "distinct roles")
  const AgeListRule: Rule :=
    Rule(["age", "ages", "list ages", "show ages"],
         AlsoOneOf(["list", "show", "names", "just"]), AgesSql, "names and ages")
  /** The regular expression `how many|total number|number of` of the COUNT
      rule matches exactly when one of its alternatives occurs, so its
      alternatives are plain trigger words here. */
  const CountRule: Rule :=
    Rule(["count", "how many", "total number", "number of"],
         Unguarded, CountSql, "count")
  const SumRule: Rule :=
    Rule(["sum of age", "sum of ages", "total age", "total of ages", "sum ages"],
         Unguarded, SumAgeSql, "sum of ages")
  const AvgRule: Rule :=
    Rule(["average age", "avg age", "average of ages", "mean age"],
         Unguarded, AvgAgeSql, "average age")
  const MaxRule: Rule :=
    Rule(["max age", "maximum age", "oldest"],
         Unguarded, MaxAgeSql, "maximum age")
  const MinRule: Rule :=
    Rule(["min age", "minimum age", "youngest"],
         Unguarded, MinAgeSql, "minimum age")

  /** The rules in the order `parse_intent` tries them. */
  const IntentRules: seq<Rule> :=
    [NameRule, CompanyRule, RoleRule, AgeListRule, CountRule, SumRule, AvgRule, MaxRule, MinRule]

  /** Index of the first rule that fires on q, or |rules| when none does. */
  function FirstFiring(q: string, rules: seq<Rule>): (k: nat)
    ensures k <= |rules|
    ensures k < |rules| ==> Fires(rules[k], q)
    ensures forall i :: 0 <= i < k ==> !Fires(rules[i], q)
    decreases |rules|
  {
    if rules == [] then 0
    else if Fires(rules[0], q) then 0
    else 1 + FirstFiring(q, rules[1..])
  }

  /** The dictionary `parse_intent` returns: `{"action": None}`, or
      `{"action": "sql", "sql": sql, "explain": explain}`. */
  datatype Intent = NoAction | SqlAction(sql: string, explain: string)

  /** `parse_intent`: the first rule that fires on the lower-cased query
      decides; no rule firing means no action. */
  function ParseIntent(query: string): (r: Intent)
    ensures r.NoAction? <==> forall k :: 0 <= k < |IntentRules| ==> !Fires(IntentRules[k], Lower(query))
    ensures r.SqlAction? ==>
      exists k :: 0 <= k < |IntentRules| && Fires(IntentRules[k], Lower(query))
        && (forall i :: 0 <= i < k ==> !Fires(IntentRules[i], Lower(query)))
        && r == SqlAction(IntentRules[k].sql, IntentRules[k].explain)
  {
    var k := FirstFiring(Lower(query), IntentRules);
    if k < |IntentRules| then SqlAction(IntentRules[k].sql, IntentRules[k].explain) else NoAction
  }

  // ---------------------------------------------------------------- lemmas

  /** Classification ignores letter case. */
  lemma ClassifyIgnoresCase(query: string)
    ensures Classify(Lower(query)) == Classify(query)
  {
    LowerIdempotent(query);
  }

  /** Adding text around an analytical query never makes it a retrieval one. */
  lemma ClassifyStableUnderContext(a: string, query: string, b: string)
    requires Classify(query) == SqlQuery
    ensures Classify(a + query + b) == SqlQuery
  {
    assert Lower(a + query + b) == Lower(a) + Lower(query) + Lower(b);
    ContainsAnyInContext(Lower(a), Lower(query), Lower(b), AnalyticalKeywords);
  }

  /** Every rule's statement is one of the nine fixed ones. */
  lemma RuleSqlCanned(k: nat)
    requires k < |IntentRules|
    ensures IntentRules[k].sql in CannedSql
  {
  }

  /** Every canned intent carries one of the nine fixed SELECT statements. */
  lemma IntentIsCanned(query: string)
    requires ParseIntent(query).SqlAction?
    ensures ParseIntent(query).sql in CannedSql
    ensures StartsWith(ParseIntent(query).sql, "SELECT")
  {
    var k := FirstFiring(Lower(query), IntentRules);
    RuleSqlCanned(k);
  }

  /** First match wins: a query mentioning "name" lists names, whatever
      company, role or aggregate words it also holds. */
  lemma NameRuleWins(query: string)
    requires Contains(Lower(query), "name")
    ensures ParseIntent(query) == SqlAction(NamesSql, "list of names")
  {
    assert IntentRules[0].triggers[0] == "name";
    assert Fires(IntentRules[0], Lower(query));
  }

  lemma HasKeyword(t: string, m: nat, i: nat)
    requires m < |AnalyticalKeywords| && OccursAt(t, AnalyticalKeywords[m], i)
    ensures ContainsAny(t, AnalyticalKeywords)
  {
    ContainsAt(t, AnalyticalKeywords[m], i);
  }

  /** Every trigger of the age-list, COUNT, SUM and AVG rules holds an
      analytical keyword. */
  lemma AggregateTriggerIsAnalytical(k: nat, j: nat)
    requires 3 <= k <= 6 && j < |IntentRules[k].triggers|
    ensures ContainsAny(IntentRules[k].triggers[j], AnalyticalKeywords)
  {
    if k == 3 { AgeListTriggers(j); }
    else if k == 4 { CountTriggers(j); }
    else if k == 5 { SumTriggers(j); }
    else { AvgTriggers(j); }
  }

  /** "age", "ages", "list ages", "show ages" all hold "age". */
  lemma AgeListTriggers(j: nat)
    requires j < |AgeListRule.triggers|
    ensures ContainsAny(AgeListRule.triggers[j], AnalyticalKeywords)
  {
    var t := AgeListRule.triggers[j];
    if j <= 1 { HasKeyword(t, 10, 0); } else { HasKeyword(t, 10, 5); }
  }

  /** "count", "how many", "total number", "number of" are keywords or hold one. */
  lemma CountTriggers(j: nat)
    requires j < |CountRule.triggers|
    ensures ContainsAny(CountRule.triggers[j], AnalyticalKeywords)
  {
    var t := CountRule.triggers[j];
    if j == 0 { HasKeyword(t, 1, 0); }
    else if j == 1 { HasKeyword(t, 0, 0); }
    else if j == 2 { HasKeyword(t, 4, 0); }
    else { HasKeyword(t, 8, 0); }
  }

  /** The SUM triggers start with "sum" or "total". */
  lemma SumTriggers(j: nat)
    requires j < |SumRule.triggers|
    ensures ContainsAny(SumRule.triggers[j], AnalyticalKeywords)
  {
    var t := SumRule.triggers[j];
    if j == 2 || j == 3 { HasKeyword(t, 4, 0); } else { HasKeyword(t, 3, 0); }
  }

  /** The AVG triggers hold "average" or "age". */
  lemma AvgTriggers(j: nat)
    requires j < |AvgRule.triggers|
    ensures ContainsAny(AvgRule.triggers[j], AnalyticalKeywords)
  {
    var t := AvgRule.triggers[j];
    if j == 0 || j == 2 { HasKeyword(t, 2, 0); }
    else if j == 1 { HasKeyword(t, 10, 4); }
    else { HasKeyword(t, 10, 5); }
  }

  /** A query on which one of those four rules fires is analytical. */
  lemma AggregateFiringIsAnalytical(q: string, k: nat)
    requires 3 <= k <= 6 && Fires(IntentRules[k], q)
    ensures ContainsAny(q, AnalyticalKeywords)
  {
    var j :| 0 <= j < |IntentRules[k].triggers| && Contains(q, IntentRules[k].triggers[j]);
    AggregateTriggerIsAnalytical(k, j);
    var m :| 0 <= m < |AnalyticalKeywords| && Contains(IntentRules[k].triggers[j], AnalyticalKeywords[m]);
    ContainsTransitive(q, IntentRules[k].triggers[j], AnalyticalKeywords[m]);
  }

  /** Under the routing of `run_query` (the resolver is consulted only for
      retrieval queries), the age-list, COUNT, SUM and AVG rules are never
      chosen. */
  lemma RetrievalSkipsAggregates(query: string)
    requires Classify(query) == Retrieval
    ensures !(3 <= FirstFiring(Lower(query), IntentRules) <= 6)
    ensures ParseIntent(query).SqlAction? ==> ParseIntent(query).sql in {NamesSql, CompaniesSql, RolesSql, MaxAgeSql, MinAgeSql}
  {
    var q := Lower(query);
    var k := FirstFiring(q, IntentRules);
    if 3 <= k <= 6 {
      AggregateFiringIsAnalytical(q, k);
      assert false;
    }
    if k < |IntentRules| {
      NonAggregateSql(k);
    }
  }

  /** The rules outside positions 3 to 6 carry the names, companies, roles,
      MAX and MIN statements. */
  lemma NonAggregateSql(k: nat)
    requires k < |IntentRules| && !(3 <= k <= 6)
    ensures IntentRules[k].sql in {NamesSql, CompaniesSql, RolesSql, MaxAgeSql, MinAgeSql}
  {
  }

  /** A string lacking, for each word of ps, a letter of that word contains
      none of them. */
  lemma LacksEach(s: string, ps: seq<string>, cs: seq<char>)
    requires |cs| == |ps|
    requires forall j :: 0 <= j < |ps| ==> cs[j] in ps[j] && cs[j] !in s
    ensures !ContainsAny(s, ps)
  {
    forall j | 0 <= j < |ps| ensures !Contains(s, ps[j]) {
      Lacks(s, ps[j], cs[j]);
    }
  }

  /** Every analytical keyword and every trigger of the first seven rules
      holds one of the letters a, c, m, r. */
  predicate LacksACMR(q: string) {
    'a' !in q && 'c' !in q && 'm' !in q && 'r' !in q
  }

  /** A question without the letters a, c, m and r, in either case, is
      routed to retrieval. */
  lemma LacksACMRIsRetrieval(query: string)
    requires LacksACMR(Lower(query))
    ensures Classify(query) == Retrieval
  {
    LacksEach(Lower(query), AnalyticalKeywords, "acamarammaaa");
  }

  /** ... and none of the first seven rules fires on it. */
  lemma LacksACMRSkipsSeven(q: string, i: nat)
    requires LacksACMR(q) && i < 7
    ensures !Fires(IntentRules[i], q)
  {
    if i == 0 { LacksEach(q, NameRule.triggers, "aaaaaa"); }
    else if i == 1 { LacksEach(q, CompanyRule.triggers, "aaaa"); }
    else if i == 2 { LacksEach(q, RoleRule.triggers, "rrrr"); }
    else if i == 3 { LacksEach(q, AgeListRule.triggers, "aaaa"); }
    else if i == 4 { LacksEach(q, CountRule.triggers, "cmam"); }
    else if i == 5 { LacksEach(q, SumRule.triggers, "aaaaa"); }
    else { LacksEach(q, AvgRule.triggers, "aaaa"); }
  }

  /** A question without a, c, m and r on which the MAX rule fires resolves
      to the MAX(age) statement. */
  lemma ReachesMax(query: string)
    requires LacksACMR(Lower(query)) && Fires(MaxRule, Lower(query))
    ensures Classify(query) == Retrieval
    ensures ParseIntent(query) == SqlAction(MaxAgeSql, "maximum age")
  {
    LacksACMRIsRetrieval(query);
    forall i | 0 <= i < 7 ensures !Fires(IntentRules[i], Lower(query)) {
      LacksACMRSkipsSeven(Lower(query), i);
    }
    assert IntentRules[7] == MaxRule;
  }

  /** A question without a, c, m and r on which the MAX rule does not fire
      but the MIN rule does resolves to the MIN(age) statement. */
  lemma ReachesMin(query: string)
    requires LacksACMR(Lower(query)) && !Fires(MaxRule, Lower(query)) && Fires(MinRule, Lower(query))
    ensures Classify(query) == Retrieval
    ensures ParseIntent(query) == SqlAction(MinAgeSql, "minimum age")
  {
    LacksACMRIsRetrieval(query);
    forall i | 0 <= i < 7 ensures !Fires(IntentRules[i], Lower(query)) {
      LacksACMRSkipsSeven(Lower(query), i);
    }
    assert IntentRules[7] == MaxRule;
    assert IntentRules[8] == MinRule;
  }

  /** The MAX rule stays reachable on the retrieval path through "oldest". */
  lemma OldestReachesMax()
    ensures Classify("who is oldest") == Retrieval
    ensures ParseIntent("who is oldest") == SqlAction(MaxAgeSql, "maximum age")
  {
    var q := "who is oldest";
    LowerOldest();
    FiresOldest();
    ReachesMax(q);
  }

  lemma LowerOldest()
    ensures Lower("who is oldest") == "who is oldest"
    ensures LacksACMR("who is oldest")
  {
  }

  lemma FiresOldest()
    ensures Fires(MaxRule, "who is oldest")
  {
    var q := "who is oldest";
    assert OccursAt(q, "oldest", 7);
    ContainsAt(q, MaxRule.triggers[2], 7);
  }

  /** The MIN rule stays reachable on the retrieval path through "youngest". */
  lemma YoungestReachesMin()
    ensures Classify("who is youngest") == Retrieval
    ensures ParseIntent("who is youngest") == SqlAction(MinAgeSql, "minimum age")
  {
    var q := "who is youngest";
    LowerYoungest();
    FiresYoungest();
    ReachesMin(q);
  }

  lemma LowerYoungest()
    ensures Lower("who is youngest") == "who is youngest"
    ensures LacksACMR("who is youngest")
  {
  }

  /** "youngest" holds no trigger of the MAX rule but the MIN rule's last. */
  lemma FiresYoungest()
    ensures !Fires(MaxRule, "who is youngest")
    ensures Fires(MinRule, "who is youngest")
  {
    var q := "who is youngest";
    LacksEach(q, MaxRule.triggers, "aal");
    assert OccursAt(q, "youngest", 7);
    ContainsAt(q, MinRule.triggers[2], 7);
  }
}
