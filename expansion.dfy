/**
 * `expand_query`: the query itself, the business terms of every synonym rule
 * whose trigger word occurs in the lower-cased query, and three variants of
 * every figure/table identifier found in it.
 */
module Expansion {
  import opened Strings
  import opened OrderedDicts
  import opened FigureIds

  /** A synonym rule: when one of `triggers` occurs in the lower-cased query, `terms` are added. */
  datatype Rule = Rule(triggers: seq<string>, terms: set<string>)

  /** The eight rules, in the order the source applies them. */
  const SynonymRules: seq<Rule> := [RevenueRule, LossRule, InstamartRule, FoodDeliveryRule,
    UsersRule, BoardRule, SubsidiaryRule, FinancialRule]

  const RevenueRule: Rule := Rule(["revenue", "sales"], {"net sales", "income from operations", "total income"})
  const LossRule: Rule := Rule(["loss", "profit"], {"net loss", "profit after tax", "PAT", "loss after tax"})
  const InstamartRule: Rule := Rule(["instamart"], {"quick commerce", "dark stores", "Instamart business"})
  const FoodDeliveryRule: Rule := Rule(["food delivery"], {"restaurant partners", "orders", "AOV"})
  const UsersRule: Rule := Rule(["users"], {"monthly transacting users", "MTU"})
  const BoardRule: Rule := Rule(["board", "director"], {"board of directors", "independent directors", "nominee directors"})
  const SubsidiaryRule: Rule := Rule(["subsidiary"], {"Scootsy", "Supr Infotech", "Lynks Logistics"})
  const FinancialRule: Rule := Rule(["financial"], {"standalone financial", "consolidated financial"})

  /** Some word of `ws` occurs in `qlow`. */
  predicate AnyOccurs(qlow: string, ws: seq<string>)
    decreases |ws|
  {
    ws != [] && (Contains(qlow, ws[0]) || AnyOccurs(qlow, ws[1..]))
  }

  /** Rule `r` fires on the lower-cased query `qlow`. */
  predicate Fires(r: Rule, qlow: string) {
    AnyOccurs(qlow, r.triggers)
  }

  /** `base` updated with the terms of each of the first `n` rules that fires, in table order. */
  function WithRules(base: set<string>, qlow: string, n: nat): set<string>
    requires n <= |SynonymRules|
  {
    if n == 0 then base
    else
      var r := SynonymRules[n - 1];
      WithRules(base, qlow, n - 1) + (if Fires(r, qlow) then r.terms else {})
  }

  /** `fid`, `"figure " + fid` and `"table " + fid` for every identifier. */
  function IdVariants(ids: set<string>): set<string> {
    ids + (set fid | fid in ids :: "figure " + fid) + (set fid | fid in ids :: "table " + fid)
  }

  /** One more identifier handled by the loop of `expand_query` adds its three variants. */
  lemma IdVariantsAdd(ids: set<string>, fid: string)
    ensures IdVariants(ids + {fid}) == IdVariants(ids) + {fid} + {"figure " + fid} + {"table " + fid}
  {
  }

  /** The set `expand_query(q)` builds. */
  function Expansions(q: string): set<string> {
    WithRules({q}, Lower(q), |SynonymRules|) + IdVariants(ExtractFigIds(q))
  }

  /** When each rule fires, spelled out as the source tests it. */
  lemma TriggerFacts(qlow: string)
    ensures Fires(RevenueRule, qlow) == (Contains(qlow, "revenue") || Contains(qlow, "sales"))
    ensures Fires(LossRule, qlow) == (Contains(qlow, "loss") || Contains(qlow, "profit"))
    ensures Fires(InstamartRule, qlow) == Contains(qlow, "instamart")
    ensures Fires(FoodDeliveryRule, qlow) == Contains(qlow, "food delivery")
    ensures Fires(UsersRule, qlow) == Contains(qlow, "users")
    ensures Fires(BoardRule, qlow) == (Contains(qlow, "board") || Contains(qlow, "director"))
    ensures Fires(SubsidiaryRule, qlow) == Contains(qlow, "subsidiary")
    ensures Fires(FinancialRule, qlow) == Contains(qlow, "financial")
  {
  }

  /** The first part of `expand_query(q)`: the query and the terms of the synonym rules that fire. */
  method ExpandSynonyms(q: string) returns (expansions: set<string>)
    ensures expansions == WithRules({q}, Lower(q), |SynonymRules|)
  {
    expansions := {q};
    var qlow := Lower(q);
    for k := 0 to |SynonymRules|
      invariant expansions == WithRules({q}, qlow, k)
    {
      var rule := SynonymRules[k];
      if Fires(rule, qlow) {
        expansions := expansions + rule.terms;
      }
    }
  }

  /** The identifier loop of `expand_query`: each identifier of the list adds its three variants. */
  method AddIdVariants(expansions: set<string>, figIds: seq<string>, ghost ids: set<string>)
    returns (out: set<string>)
    requires forall t :: t in figIds <==> t in ids
    ensures out == expansions + IdVariants(ids)
  {
    out := expansions;
    ghost var done: set<string> := {};
    for i := 0 to |figIds|
      invariant forall t :: t in done <==> t in figIds[..i]
      invariant out == expansions + IdVariants(done)
    {
      var fid := figIds[i];
      assert figIds[..i + 1] == figIds[..i] + [fid];
      IdVariantsAdd(done, fid);
      out := out + {fid};
      out := out + {"figure " + fid};
      out := out + {"table " + fid};
      done := done + {fid};
    }
    assert figIds[..|figIds|] == figIds;
    assert done == ids;
  }

  /** `expand_query(q)`: the expansions as a list without repetitions. */
  method ExpandQuery(q: string) returns (expanded: seq<string>)
    ensures NoDuplicates(expanded)
    ensures forall e :: e in expanded <==> e in Expansions(q)
  {
    var expansions := ExpandSynonyms(q);
    var figIds := ExtractFigIdsFromQuery(q);
    expansions := AddIdVariants(expansions, figIds, ExtractFigIds(q));
    expanded := ListOf(expansions);
  }

  /** An element of `WithRules` is in the base or is a term of a rule among the first `n` that fires. */
  lemma {:induction false} WithRulesMembers(base: set<string>, qlow: string, n: nat, e: string)
    requires n <= |SynonymRules|
    ensures e in WithRules(base, qlow, n) <==>
      e in base || exists k :: 0 <= k < n && Fires(SynonymRules[k], qlow) && e in SynonymRules[k].terms
  {
    if n > 0 {
      WithRulesMembers(base, qlow, n - 1, e);
      if e in WithRules(base, qlow, n) && e !in WithRules(base, qlow, n - 1) {
        assert Fires(SynonymRules[n - 1], qlow) && e in SynonymRules[n - 1].terms;
      }
    }
  }

  /** The query itself is always among its expansions. */
  lemma ExpansionsContainQuery(q: string)
    ensures q in Expansions(q)
  {
    WithRulesMembers({q}, Lower(q), |SynonymRules|, q);
  }

  /** Every term of a rule whose trigger occurs in the lower-cased query is an expansion. */
  lemma RuleTermsExpanded(q: string, k: nat, e: string)
    requires k < |SynonymRules| && Fires(SynonymRules[k], Lower(q)) && e in SynonymRules[k].terms
    ensures e in Expansions(q)
  {
    WithRulesMembers({q}, Lower(q), |SynonymRules|, e);
  }

  /** Every identifier found in the query contributes itself, `figure <id>` and `table <id>`. */
  lemma IdVariantsExpanded(q: string, fid: string)
    requires fid in ExtractFigIds(q)
    ensures fid in Expansions(q) && "figure " + fid in Expansions(q) && "table " + fid in Expansions(q)
  {
  }

  /** Nothing else is an expansion: the query, a term of a firing rule, or a variant of a found identifier. */
  lemma ExpansionsOnly(q: string, e: string)
    requires e in Expansions(q)
    ensures e == q
      || (exists k :: 0 <= k < |SynonymRules| && Fires(SynonymRules[k], Lower(q)) && e in SynonymRules[k].terms)
      || (exists fid :: fid in ExtractFigIds(q) && e in {fid, "figure " + fid, "table " + fid})
  {
    WithRulesMembers({q}, Lower(q), |SynonymRules|, e);
  }

  /**
   * A query that triggers no rule and holds no identifier expands to itself
   * alone; `NoIdsWithoutMarkerOrDot` gives the second condition for a query
   * with neither `F` nor `.`.
   */
  lemma PlainQueryExpandsToItself(q: string)
    requires forall k :: 0 <= k < |SynonymRules| ==> !Fires(SynonymRules[k], Lower(q))
    requires ExtractFigIds(q) == {}
    ensures Expansions(q) == {q}
  {
    forall e | e in Expansions(q)
      ensures e == q
    {
      ExpansionsOnly(q, e);
    }
    ExpansionsContainQuery(q);
  }

  /** The variants of `iii.5`, spelled out. */
  lemma IdVariantsOfRomanId()
    ensures "figure " + "iii.5" == "figure iii.5" && "table " + "iii.5" == "table iii.5"
  {
  }

  /** `Figure III.5` is searched for also as `figure iii.5` and `table iii.5`. */
  lemma FigureQueryExpands(q: string)
    requires q == "Figure III.5"
    ensures "figure iii.5" in Expansions(q) && "table iii.5" in Expansions(q)
  {
    FigureRomanExtracts();
    IdVariantsExpanded(q, "iii.5");
    IdVariantsOfRomanId();
  }
}
