/** The account mapper: turns individual transactions and groups into
    booking entries, after dropping the ignored transactions. The regex is
    the oracle's `search`; validation guarantees the patterns compile
    (`Config.ValidatedPatternsCompile`). */
module Mapper {
  import opened Wrappers
  import opened Text
  import opened Transactions
  import opened Patterns
  import opened Config
  import opened Grouper

  /** A booking line, built either from one transaction or from a group:
      exactly one of the two is carried. */
  datatype BookingEntry =
    | FromTxn(mappedDescription: string, debitAccount: Option<string>, creditAccount: string, transaction: Transaction)
    | FromGroup(mappedDescription: string, debitAccount: Option<string>, creditAccount: string, group: Group)

  // ------------------------------------------------------------ ignoring

  /** `__ignoredCategory`: the category equals one of the listed ones,
      ignoring letter case; a mere substring does not count. */
  function IgnoredCategory(categories: seq<string>, category: string): (r: bool)
    ensures r <==> exists i :: 0 <= i < |categories| && Lower(category) == Lower(categories[i])
  {
    if |categories| == 0 then false
    else if Lower(category) == Lower(categories[0]) then true
    else
      assert forall i :: 1 <= i < |categories| ==> categories[i] == categories[1..][i - 1];
      IgnoredCategory(categories[1..], category)
  }

  /** `__ignoredTransaction`: some ignore pattern is found in the merchant. */
  function IgnoredMerchant(re: Regex, patterns: seq<string>, merchant: string): (r: bool)
    ensures r <==> exists i :: 0 <= i < |patterns| && re.search(patterns[i], merchant)
  {
    if |patterns| == 0 then false
    else if re.search(patterns[0], merchant) then true
    else
      assert forall i :: 1 <= i < |patterns| ==> patterns[i] == patterns[1..][i - 1];
      IgnoredMerchant(re, patterns[1..], merchant)
  }

  /** `__ignored` */
  predicate Ignored(cfg: Configuration, re: Regex, t: Transaction) {
    IgnoredCategory(cfg.ignore.categories, t.category) || IgnoredMerchant(re, cfg.ignore.transactions, t.merchant)
  }

  /** The category comparison folds letter case but is exact otherwise. */
  lemma IgnoredCategoryExamples()
    ensures IgnoredCategory(["Bargeldbezug"], "BARGELDBEZUG")
    ensures IgnoredCategory(["Fees", "Bargeldbezug"], "bargeldbezug")
    ensures !IgnoredCategory(["Bargeld"], "Bargeldbezug")
    ensures !IgnoredCategory([], "Bargeldbezug")
  {
    assert Lower("BARGELDBEZUG") == "bargeldbezug";
    assert Lower("Bargeldbezug") == "bargeldbezug";
    assert Lower("bargeldbezug") == "bargeldbezug";
    assert |Lower("Bargeld")| != |Lower("Bargeldbezug")|;
  }

  // ------------------------------------------------------------ rule resolution

  /** The loop over `mappingRules.values()`: the first rule in declared
      order whose pattern is found in the merchant. */
  function FirstMatchingRule(re: Regex, rules: seq<(string, MappingRule)>, merchant: string): (r: Option<MappingRule>)
    ensures r.None? <==> forall i :: 0 <= i < |rules| ==> !(HasPattern(rules[i].1) && re.search(rules[i].1.pattern.value, merchant))
    ensures r.Some? ==>
              exists i :: 0 <= i < |rules| && rules[i].1 == r.value
                && HasPattern(r.value) && re.search(r.value.pattern.value, merchant)
                && forall j :: 0 <= j < i ==> !(HasPattern(rules[j].1) && re.search(rules[j].1.pattern.value, merchant))
  {
    if |rules| == 0 then None
    else if HasPattern(rules[0].1) && re.search(rules[0].1.pattern.value, merchant) then Some(rules[0].1)
    else
      var r := FirstMatchingRule(re, rules[1..], merchant);
      assert forall i :: 1 <= i < |rules| ==> rules[i] == rules[1..][i - 1];
      if r.Some? then
        var i :| 0 <= i < |rules| - 1 && rules[1..][i].1 == r.value
                 && HasPattern(r.value) && re.search(r.value.pattern.value, merchant)
                 && forall j :: 0 <= j < i ==> !(HasPattern(rules[1..][j].1) && re.search(rules[1..][j].1.pattern.value, merchant));
        assert forall j :: 0 <= j < i + 1 ==> !(HasPattern(rules[j].1) && re.search(rules[j].1.pattern.value, merchant));
        r
      else r
  }

  /** `__findMappingRule`: the rule under the transaction's category decides
      alone; otherwise the first rule whose pattern matches. */
  function FindMappingRule(re: Regex, rules: seq<(string, MappingRule)>, t: Transaction): Option<MappingRule> {
    match RuleFor(rules, t.category)
    case Some(rule) =>
      if !HasPattern(rule) || re.search(rule.pattern.value, t.merchant) then Some(rule) else None
    case None => FirstMatchingRule(re, rules, t.merchant)
  }

  /** A category key whose pattern is not found leaves the transaction
      unmapped even when another rule's pattern is found. */
  lemma CategoryKeyBlocksFallback(re: Regex, rules: seq<(string, MappingRule)>, t: Transaction, other: nat)
    requires RuleFor(rules, t.category).Some?
    requires HasPattern(RuleFor(rules, t.category).value)
    requires !re.search(RuleFor(rules, t.category).value.pattern.value, t.merchant)
    requires other < |rules| && HasPattern(rules[other].1) && re.search(rules[other].1.pattern.value, t.merchant)
    ensures FindMappingRule(re, rules, t).None?
  {
  }

  /** A category key without a pattern maps every transaction of that
      category, whatever the merchant. */
  lemma CategoryKeyWithoutPattern(re: Regex, rules: seq<(string, MappingRule)>, t: Transaction, i: nat)
    requires i < |rules| && rules[i].0 == t.category && !HasPattern(rules[i].1)
    requires forall j :: 0 <= j < |rules| && j != i ==> rules[j].0 != t.category
    ensures FindMappingRule(re, rules, t) == Some(rules[i].1)
  {
    RuleForUnique(rules, t.category, i);
  }

  lemma {:induction false} RuleForUnique(rules: seq<(string, MappingRule)>, key: string, i: nat)
    requires i < |rules| && rules[i].0 == key
    requires forall j :: 0 <= j < |rules| && j != i ==> rules[j].0 != key
    ensures RuleFor(rules, key) == Some(rules[i].1)
  {
    if i > 0 {
      RuleForUnique(rules[1..], key, i - 1);
    }
  }

  /** With compiling patterns, the grouper's eligibility and the mapper's
      resolution agree: a transaction can be grouped exactly when a mapping
      rule is found for it. */
  lemma {:induction false} GroupingAgreesWithMapping(re: Regex, rules: seq<(string, MappingRule)>, t: Transaction)
    requires forall i :: 0 <= i < |rules| ==> HasPattern(rules[i].1) ==> re.compiles(rules[i].1.pattern.value)
    ensures CanGroup(re, rules, t) <==> FindMappingRule(re, rules, t).Some?
  {
    match RuleFor(rules, t.category)
    case Some(rule) =>
      assert (t.category, rule) in rules;
    case None =>
      var any := AnyPatternMatches(re, rules, t.merchant);
      var first := FirstMatchingRule(re, rules, t.merchant);
      assert forall i :: 0 <= i < |rules| && HasPattern(rules[i].1) ==>
               GroupMatch(re, t.merchant, rules[i].1.pattern.value) == re.search(rules[i].1.pattern.value, t.merchant);
  }

  // ------------------------------------------------------------ entries

  /** The entry for a transaction that is not ignored. */
  function TransactionEntry(cfg: Configuration, re: Regex, t: Transaction): (e: BookingEntry)
    ensures e.FromTxn? && e.transaction == t && e.creditAccount == cfg.creditAccount
    ensures e.debitAccount.Some? <==> FindMappingRule(re, cfg.rules, t).Some?
  {
    match FindMappingRule(re, cfg.rules, t)
    case Some(rule) => FromTxn(rule.description, Some(rule.debitAccount), cfg.creditAccount, t)
    case None => FromTxn(t.merchant, None, cfg.creditAccount, t)
  }

  /** `mapTransactions`: one entry per transaction that is not ignored, in
      input order. */
  function MapTransactions(cfg: Configuration, re: Regex, ts: seq<Transaction>): (r: seq<BookingEntry>)
    ensures |r| <= |ts|
  {
    if |ts| == 0 then []
    else if Ignored(cfg, re, ts[0]) then MapTransactions(cfg, re, ts[1..])
    else [TransactionEntry(cfg, re, ts[0])] + MapTransactions(cfg, re, ts[1..])
  }

  /** The transactions that survive the ignore rules, in input order. */
  function Kept(cfg: Configuration, re: Regex, ts: seq<Transaction>): (r: seq<Transaction>)
    ensures forall x :: x in r <==> x in ts && !Ignored(cfg, re, x)
  {
    if |ts| == 0 then []
    else
      assert ts == [ts[0]] + ts[1..];
      (if Ignored(cfg, re, ts[0]) then [] else [ts[0]]) + Kept(cfg, re, ts[1..])
  }

  /** `mapTransactions` is filtering by the ignore rules and then mapping
      each kept transaction on its own: entry `i` belongs to the `i`-th kept
      transaction, with the matched rule's description and debit account,
      or the merchant and no debit account when no rule is found. */
  lemma MapTransactionsSpec(cfg: Configuration, re: Regex, ts: seq<Transaction>)
    ensures |MapTransactions(cfg, re, ts)| == |Kept(cfg, re, ts)|
    ensures forall i :: 0 <= i < |Kept(cfg, re, ts)| ==>
              var e, t := MapTransactions(cfg, re, ts)[i], Kept(cfg, re, ts)[i];
              && e.FromTxn? && e.transaction == t && e.creditAccount == cfg.creditAccount
              && (FindMappingRule(re, cfg.rules, t).Some? ==>
                    e.mappedDescription == FindMappingRule(re, cfg.rules, t).value.description
                    && e.debitAccount == Some(FindMappingRule(re, cfg.rules, t).value.debitAccount))
              && (FindMappingRule(re, cfg.rules, t).None? ==> e.mappedDescription == t.merchant && e.debitAccount.None?)
  {
    MapTransactionsOfKept(cfg, re, ts);
  }

  /** Entry `i` is the entry of the `i`-th kept transaction. */
  lemma {:induction false} MapTransactionsOfKept(cfg: Configuration, re: Regex, ts: seq<Transaction>)
    ensures |MapTransactions(cfg, re, ts)| == |Kept(cfg, re, ts)|
    ensures forall i :: 0 <= i < |Kept(cfg, re, ts)| ==>
              MapTransactions(cfg, re, ts)[i] == TransactionEntry(cfg, re, Kept(cfg, re, ts)[i])
  {
    if |ts| > 0 {
      MapTransactionsOfKept(cfg, re, ts[1..]);
      var r, k := MapTransactions(cfg, re, ts), Kept(cfg, re, ts);
      var r', k' := MapTransactions(cfg, re, ts[1..]), Kept(cfg, re, ts[1..]);
      if Ignored(cfg, re, ts[0]) {
        assert r == r' && k == k';
      } else {
        var e := TransactionEntry(cfg, re, ts[0]);
        assert r == [e] + r' && k == [ts[0]] + k';
        forall i | 0 <= i < |k|
          ensures r[i] == TransactionEntry(cfg, re, k[i])
        {
          if i > 0 {
            assert r[i] == r'[i - 1] && k[i] == k'[i - 1];
          } else {
            assert r[0] == e && k[0] == ts[0];
          }
        }
      }
    }
  }

  /** No entry is built from an ignored transaction. */
  lemma NoIgnoredEntry(cfg: Configuration, re: Regex, ts: seq<Transaction>)
    ensures forall e :: e in MapTransactions(cfg, re, ts) ==> e.FromTxn? && e.transaction in ts && !Ignored(cfg, re, e.transaction)
  {
    MapTransactionsSpec(cfg, re, ts);
    var r, k := MapTransactions(cfg, re, ts), Kept(cfg, re, ts);
    forall e | e in r
      ensures e.FromTxn? && e.transaction in ts && !Ignored(cfg, re, e.transaction)
    {
      var i :| 0 <= i < |r| && r[i] == e;
      assert k[i] in k;
    }
  }

  /** The entry for a group: category-only lookup; a category that is not
      a rule key falls back to the category as description and no debit
      account. */
  function GroupEntry(cfg: Configuration, g: Group): (e: BookingEntry)
    ensures e.FromGroup? && e.group == g && e.creditAccount == cfg.creditAccount
    ensures e.debitAccount.Some? <==> exists i :: 0 <= i < |cfg.rules| && cfg.rules[i].0 == g.category
    ensures RuleFor(cfg.rules, g.category).Some? ==>
              && e.mappedDescription == RuleFor(cfg.rules, g.category).value.description
              && e.debitAccount == Some(RuleFor(cfg.rules, g.category).value.debitAccount)
    ensures RuleFor(cfg.rules, g.category).None? ==> e.mappedDescription == g.category && e.debitAccount.None?
  {
    match RuleFor(cfg.rules, g.category)
    case Some(rule) => FromGroup(rule.description, Some(rule.debitAccount), cfg.creditAccount, g)
    case None => FromGroup(g.category, None, cfg.creditAccount, g)
  }

  /** `mapGroups`: exactly one entry per group, in order. */
  function MapGroups(cfg: Configuration, gs: seq<Group>): (r: seq<BookingEntry>)
    ensures |r| == |gs|
    ensures forall i :: 0 <= i < |gs| ==> r[i].FromGroup? && r[i].group == gs[i] && r[i].creditAccount == cfg.creditAccount
    ensures forall i :: 0 <= i < |gs| ==> r[i] == GroupEntry(cfg, gs[i])
  {
    if |gs| == 0 then []
    else [GroupEntry(cfg, gs[0])] + MapGroups(cfg, gs[1..])
  }

  /** A transaction whose category is no rule key but whose merchant matches
      some rule's pattern is grouped under its own category. */
  lemma FallbackGrouped(re: Regex, rules: seq<(string, MappingRule)>, ts: seq<Transaction>, t: Transaction)
    requires forall i :: 0 <= i < |rules| ==> HasPattern(rules[i].1) ==> re.compiles(rules[i].1.pattern.value)
    requires t in ts
    requires FindMappingRule(re, rules, t).Some?
    ensures exists g :: g in GroupsOf(CanGroupOf(re, rules), ts) && g.category == t.category && t in g.transactions
  {
    var p := CanGroupOf(re, rules);
    assert p(t) by {
      GroupingAgreesWithMapping(re, rules, t);
    }
    assert t.category in Categories(p, ts) by {
      MembersAreEligible(p, ts, t.category);
      CategoriesHaveMembers(p, ts, t.category);
    }
    var cs := Categories(p, ts);
    var i :| 0 <= i < |cs| && cs[i] == t.category;
    GroupsShape(p, ts);
    var g := GroupsOf(p, ts)[i];
    assert g.category == t.category && g.transactions == Members(p, ts, t.category);
    MembersAreEligible(p, ts, t.category);
  }

  /** Such a group's entry takes the category as its description and has
      no debit account, although the transaction alone would have been
      mapped to a rule. */
  lemma FallbackGroupUnmapped(cfg: Configuration, re: Regex, ts: seq<Transaction>, t: Transaction)
    requires forall i :: 0 <= i < |cfg.rules| ==> HasPattern(cfg.rules[i].1) ==> re.compiles(cfg.rules[i].1.pattern.value)
    requires t in ts
    requires forall i :: 0 <= i < |cfg.rules| ==> cfg.rules[i].0 != t.category
    requires FindMappingRule(re, cfg.rules, t).Some?
    ensures TransactionEntry(cfg, re, t).debitAccount.Some?
    ensures exists g :: g in GroupsOf(CanGroupOf(re, cfg.rules), ts) && t in g.transactions
                        && GroupEntry(cfg, g) == FromGroup(t.category, None, cfg.creditAccount, g)
  {
    FallbackGrouped(re, cfg.rules, ts, t);
    var g :| g in GroupsOf(CanGroupOf(re, cfg.rules), ts) && g.category == t.category && t in g.transactions;
    assert RuleFor(cfg.rules, g.category).None?;
  }
}
