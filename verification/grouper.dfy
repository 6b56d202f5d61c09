/** The transaction grouper: one pass splits the transactions into those
    kept individually and per-category groups. The reference definitions
    below are stated for any eligibility predicate `p`; `Group` instantiates
    it with `CanGroup`. */
module Grouper {
  import opened Wrappers
  import opened Calendar
  import opened Transactions
  import opened Patterns
  import opened Config

  /** A group of transactions of one category; amounts in cents. */
  datatype Group = Group(
    category: string,
    totalAmount: int,
    transactionCount: nat,
    monthEndDate: CalendarDate,
    transactions: seq<Transaction>)

  function Sum(ts: seq<Transaction>): int {
    if |ts| == 0 then 0 else Sum(ts[..|ts| - 1]) + ts[|ts| - 1].amount
  }

  lemma SumSnoc(s: seq<Transaction>, t: Transaction)
    ensures Sum(s + [t]) == Sum(s) + t.amount
  {
    assert (s + [t])[..|s|] == s;
  }

  // ------------------------------------------------------------ eligibility

  /** Whether some rule with a pattern matches the merchant: the loop over
      `mappingRules.values()`. */
  function AnyPatternMatches(re: Regex, rules: seq<(string, MappingRule)>, merchant: string): (r: bool)
    ensures r <==> exists i :: 0 <= i < |rules| && HasPattern(rules[i].1)
                               && GroupMatch(re, merchant, rules[i].1.pattern.value)
  {
    if |rules| == 0 then false
    else if HasPattern(rules[0].1) && GroupMatch(re, merchant, rules[0].1.pattern.value) then true
    else
      assert forall i :: 1 <= i < |rules| ==> rules[i] == rules[1..][i - 1];
      AnyPatternMatches(re, rules[1..], merchant)
  }

  /** `__canGroup`: a rule under the transaction's category decides alone;
      otherwise any rule whose pattern matches the merchant makes it
      eligible. */
  function CanGroup(re: Regex, rules: seq<(string, MappingRule)>, t: Transaction): bool {
    match RuleFor(rules, t.category)
    case Some(rule) => !HasPattern(rule) || GroupMatch(re, t.merchant, rule.pattern.value)
    case None => AnyPatternMatches(re, rules, t.merchant)
  }

  function CanGroupOf(re: Regex, rules: seq<(string, MappingRule)>): Transaction -> bool {
    t => CanGroup(re, rules, t)
  }

  /** A category key whose rule has a pattern that does not match keeps the
      transaction individual, whatever the other rules' patterns say. */
  lemma CategoryRuleHasPrecedence(re: Regex, rules: seq<(string, MappingRule)>, t: Transaction, other: nat)
    requires RuleFor(rules, t.category).Some?
    requires HasPattern(RuleFor(rules, t.category).value)
    requires !GroupMatch(re, t.merchant, RuleFor(rules, t.category).value.pattern.value)
    requires other < |rules| && HasPattern(rules[other].1) && GroupMatch(re, t.merchant, rules[other].1.pattern.value)
    ensures !CanGroup(re, rules, t)
  {
  }

  /** Without a category key, a transaction is eligible exactly when some
      rule's pattern matches its merchant. */
  lemma NoCategoryKey(re: Regex, rules: seq<(string, MappingRule)>, t: Transaction)
    requires forall i :: 0 <= i < |rules| ==> rules[i].0 != t.category
    ensures CanGroup(re, rules, t) <==>
              exists i :: 0 <= i < |rules| && HasPattern(rules[i].1) && GroupMatch(re, t.merchant, rules[i].1.pattern.value)
  {
  }

  // ------------------------------------------------------------ reference definitions

  /** The transactions kept individually, in input order. */
  function Individuals(p: Transaction -> bool, ts: seq<Transaction>): seq<Transaction> {
    if |ts| == 0 then []
    else Individuals(p, ts[..|ts| - 1]) + (if p(ts[|ts| - 1]) then [] else [ts[|ts| - 1]])
  }

  /** The categories of the eligible transactions, in order of first
      occurrence (the insertion order of `toBeGrouped`). */
  function Categories(p: Transaction -> bool, ts: seq<Transaction>): seq<string> {
    if |ts| == 0 then []
    else
      var cs := Categories(p, ts[..|ts| - 1]);
      var t := ts[|ts| - 1];
      if p(t) && t.category !in cs then cs + [t.category] else cs
  }

  /** The eligible transactions of category `c`, in input order. */
  function Members(p: Transaction -> bool, ts: seq<Transaction>, c: string): seq<Transaction> {
    if |ts| == 0 then []
    else
      var t := ts[|ts| - 1];
      Members(p, ts[..|ts| - 1], c) + (if p(t) && t.category == c then [t] else [])
  }

  predicate Distinct(cs: seq<string>) {
    forall i, j :: 0 <= i < j < |cs| ==> cs[i] != cs[j]
  }

  /** A category is listed exactly when it has members. */
  lemma {:induction false} CategoriesHaveMembers(p: Transaction -> bool, ts: seq<Transaction>, c: string)
    ensures c in Categories(p, ts) <==> |Members(p, ts, c)| > 0
  {
    if |ts| > 0 {
      CategoriesHaveMembers(p, ts[..|ts| - 1], c);
    }
  }

  lemma {:induction false} CategoriesDistinct(p: Transaction -> bool, ts: seq<Transaction>)
    ensures Distinct(Categories(p, ts))
  {
    if |ts| > 0 {
      CategoriesDistinct(p, ts[..|ts| - 1]);
    }
  }

  /** Members of `c` are exactly the eligible input transactions of
      category `c`. */
  lemma {:induction false} MembersAreEligible(p: Transaction -> bool, ts: seq<Transaction>, c: string)
    ensures forall x :: x in Members(p, ts, c) <==> x in ts && p(x) && x.category == c
  {
    if |ts| > 0 {
      var init := ts[..|ts| - 1];
      MembersAreEligible(p, init, c);
      assert ts == init + [ts[|ts| - 1]];
    }
  }

  /** The individual list is exactly the ineligible input transactions. */
  lemma {:induction false} IndividualsAreIneligible(p: Transaction -> bool, ts: seq<Transaction>)
    ensures forall x :: x in Individuals(p, ts) <==> x in ts && !p(x)
  {
    if |ts| > 0 {
      var init := ts[..|ts| - 1];
      IndividualsAreIneligible(p, init);
      assert ts == init + [ts[|ts| - 1]];
    }
  }

  // ------------------------------------------------------------ conservation

  /** The members of the listed categories, as one multiset. */
  function Pooled(p: Transaction -> bool, ts: seq<Transaction>, cs: seq<string>): multiset<Transaction> {
    if |cs| == 0 then multiset{} else multiset(Members(p, ts, cs[0])) + Pooled(p, ts, cs[1..])
  }

  /** The amounts of the members of the listed categories. */
  function PooledSum(p: Transaction -> bool, ts: seq<Transaction>, cs: seq<string>): int {
    if |cs| == 0 then 0 else Sum(Members(p, ts, cs[0])) + PooledSum(p, ts, cs[1..])
  }

  /** One more transaction reaches the pool of the listed categories when
      it is eligible and its category is listed. */
  lemma {:induction false} PooledStep(p: Transaction -> bool, s: seq<Transaction>, t: Transaction, cs: seq<string>)
    requires Distinct(cs)
    ensures Pooled(p, s + [t], cs) == Pooled(p, s, cs) + (if p(t) && t.category in cs then multiset{t} else multiset{})
  {
    if |cs| > 0 {
      PooledStep(p, s, t, cs[1..]);
      assert (s + [t])[..|s|] == s;
    }
  }

  lemma MembersSnoc(p: Transaction -> bool, s: seq<Transaction>, t: Transaction, c: string)
    ensures Members(p, s + [t], c) == Members(p, s, c) + (if p(t) && t.category == c then [t] else [])
  {
    assert (s + [t])[..|s|] == s;
  }

  lemma {:induction false} PooledSumStep(p: Transaction -> bool, s: seq<Transaction>, t: Transaction, cs: seq<string>)
    requires Distinct(cs)
    ensures PooledSum(p, s + [t], cs) == PooledSum(p, s, cs) + (if p(t) && t.category in cs then t.amount else 0)
  {
    if |cs| > 0 {
      var c, rest := cs[0], cs[1..];
      assert Distinct(rest);
      PooledSumStep(p, s, t, rest);
      MembersSumStep(p, s, t, c);
      SplitMembership(cs, t.category);
    }
  }

  lemma MembersSumStep(p: Transaction -> bool, s: seq<Transaction>, t: Transaction, c: string)
    ensures Sum(Members(p, s + [t], c)) == Sum(Members(p, s, c)) + (if p(t) && t.category == c then t.amount else 0)
  {
    MembersSnoc(p, s, t, c);
    if p(t) && t.category == c {
      SumSnoc(Members(p, s, c), t);
    } else {
      assert Members(p, s + [t], c) == Members(p, s, c);
    }
  }

  /** In a list without repetitions, a value is either the head or in the
      tail, never both. */
  lemma SplitMembership(cs: seq<string>, x: string)
    requires Distinct(cs) && |cs| > 0
    ensures (x in cs) == (x == cs[0] || x in cs[1..])
    ensures !(x == cs[0] && x in cs[1..])
  {
    assert cs == [cs[0]] + cs[1..];
  }

  lemma {:induction false} PooledAppend(p: Transaction -> bool, ts: seq<Transaction>, cs: seq<string>, c: string)
    ensures Pooled(p, ts, cs + [c]) == Pooled(p, ts, cs) + multiset(Members(p, ts, c))
    ensures PooledSum(p, ts, cs + [c]) == PooledSum(p, ts, cs) + Sum(Members(p, ts, c))
  {
    if |cs| > 0 {
      var rest := cs[1..];
      assert (cs + [c])[0] == cs[0] && (cs + [c])[1..] == rest + [c];
      PooledAppend(p, ts, rest, c);
    } else {
      assert cs + [c] == [c] && [c][1..] == [];
    }
  }

  /** A category seen for the first time in the last transaction has that
      transaction as its only member. */
  lemma NewCategory(p: Transaction -> bool, s: seq<Transaction>, t: Transaction)
    requires p(t) && t.category !in Categories(p, s)
    ensures Categories(p, s + [t]) == Categories(p, s) + [t.category]
    ensures Members(p, s + [t], t.category) == [t]
  {
    assert (s + [t])[..|s|] == s;
    CategoriesHaveMembers(p, s, t.category);
  }

  /** Every input transaction lands in exactly one place: the individual
      list or the group of its category. */
  lemma {:induction false} GroupingConserves(p: Transaction -> bool, ts: seq<Transaction>)
    ensures multiset(Individuals(p, ts)) + Pooled(p, ts, Categories(p, ts)) == multiset(ts)
  {
    if |ts| > 0 {
      var s, t := ts[..|ts| - 1], ts[|ts| - 1];
      assert ts == s + [t];
      var cs := Categories(p, s);
      assert multiset(Individuals(p, s)) + Pooled(p, s, cs) == multiset(s) by {
        GroupingConserves(p, s);
      }
      assert Pooled(p, ts, cs) == Pooled(p, s, cs) + (if p(t) && t.category in cs then multiset{t} else multiset{}) by {
        CategoriesDistinct(p, s);
        PooledStep(p, s, t, cs);
      }
      assert multiset(ts) == multiset(s) + multiset{t};
      if !p(t) {
        assert Individuals(p, ts) == Individuals(p, s) + [t];
        assert Categories(p, ts) == cs;
      } else if t.category in cs {
        assert Individuals(p, ts) == Individuals(p, s) + [] == Individuals(p, s);
        assert Categories(p, ts) == cs;
      } else {
        assert Individuals(p, ts) == Individuals(p, s) + [] == Individuals(p, s);
        assert Pooled(p, ts, Categories(p, ts)) == Pooled(p, ts, cs) + multiset{t} by {
          NewCategory(p, s, t);
          PooledAppend(p, ts, cs, t.category);
        }
      }
    }
  }

  /** No amount is lost or added: the individual amounts and the pooled
      amounts add up to the input total. */
  lemma {:induction false} GroupingKeepsTotal(p: Transaction -> bool, ts: seq<Transaction>)
    ensures Sum(Individuals(p, ts)) + PooledSum(p, ts, Categories(p, ts)) == Sum(ts)
  {
    if |ts| > 0 {
      var s, t := ts[..|ts| - 1], ts[|ts| - 1];
      assert ts == s + [t];
      var cs := Categories(p, s);
      var before := Sum(Individuals(p, s)) + PooledSum(p, s, cs);
      assert before == Sum(s) by {
        GroupingKeepsTotal(p, s);
      }
      assert Sum(ts) == Sum(s) + t.amount by {
        SumSnoc(s, t);
      }
      assert PooledSum(p, ts, cs) == PooledSum(p, s, cs) + (if p(t) && t.category in cs then t.amount else 0) by {
        CategoriesDistinct(p, s);
        PooledSumStep(p, s, t, cs);
      }
      if !p(t) {
        assert Individuals(p, ts) == Individuals(p, s) + [t];
        assert Categories(p, ts) == cs;
        SumSnoc(Individuals(p, s), t);
      } else if t.category in cs {
        assert Individuals(p, ts) == Individuals(p, s) + [] == Individuals(p, s);
        assert Categories(p, ts) == cs;
      } else {
        assert Individuals(p, ts) == Individuals(p, s) + [] == Individuals(p, s);
        assert PooledSum(p, ts, Categories(p, ts)) == PooledSum(p, ts, cs) + t.amount by {
          NewCategory(p, s, t);
          PooledAppend(p, ts, cs, t.category);
          SumSnoc([], t);
          assert [] + [t] == [t];
        }
      }
    }
  }

  // ------------------------------------------------------------ groups

  function MakeGroup(category: string, members: seq<Transaction>): Group
    requires |members| > 0
  {
    Group(category, Sum(members), |members|, MonthEnd(members[0].date), members)
  }

  /** The group of one category, from its members. */
  function GroupFor(p: Transaction -> bool, ts: seq<Transaction>, c: string): Group
    requires |Members(p, ts, c)| > 0
  {
    MakeGroup(c, Members(p, ts, c))
  }

  /** One group per listed category, from its members. */
  function GroupsFor(p: Transaction -> bool, ts: seq<Transaction>, cs: seq<string>): (r: seq<Group>)
    requires forall i :: 0 <= i < |cs| ==> |Members(p, ts, cs[i])| > 0
    ensures |r| == |cs|
  {
    if |cs| == 0 then []
    else
      PopulatedTail(p, ts, cs);
      [GroupFor(p, ts, cs[0])] + GroupsFor(p, ts, cs[1..])
  }

  function TotalOf(gs: seq<Group>): int {
    if |gs| == 0 then 0 else gs[0].totalAmount + TotalOf(gs[1..])
  }

  function CountOf(gs: seq<Group>): int {
    if |gs| == 0 then 0 else gs[0].transactionCount + CountOf(gs[1..])
  }

  function MembersOf(gs: seq<Group>): multiset<Transaction> {
    if |gs| == 0 then multiset{} else multiset(gs[0].transactions) + MembersOf(gs[1..])
  }

  lemma {:induction false} GroupsForTally(p: Transaction -> bool, ts: seq<Transaction>, cs: seq<string>)
    requires forall i :: 0 <= i < |cs| ==> |Members(p, ts, cs[i])| > 0
    ensures TotalOf(GroupsFor(p, ts, cs)) == PooledSum(p, ts, cs)
    ensures MembersOf(GroupsFor(p, ts, cs)) == Pooled(p, ts, cs)
    ensures CountOf(GroupsFor(p, ts, cs)) == |Pooled(p, ts, cs)|
  {
    if |cs| > 0 {
      GroupsForTally(p, ts, cs[1..]);
    }
  }

  /** The groups `group` builds for eligibility `p`. */
  function GroupsOf(p: Transaction -> bool, ts: seq<Transaction>): seq<Group> {
    var cs := Categories(p, ts);
    assert forall i :: 0 <= i < |cs| ==> |Members(p, ts, cs[i])| > 0 by {
      forall i | 0 <= i < |cs| {
        CategoriesHaveMembers(p, ts, cs[i]);
      }
    }
    GroupsFor(p, ts, cs)
  }

  /** The individual count plus the group counts is the input count, and
      the individual amounts plus the group totals is the input total. */
  lemma GroupsConserve(p: Transaction -> bool, ts: seq<Transaction>)
    ensures |Individuals(p, ts)| + CountOf(GroupsOf(p, ts)) == |ts|
    ensures multiset(Individuals(p, ts)) + MembersOf(GroupsOf(p, ts)) == multiset(ts)
    ensures Sum(Individuals(p, ts)) + TotalOf(GroupsOf(p, ts)) == Sum(ts)
  {
    var cs := Categories(p, ts);
    var gs := GroupsOf(p, ts);
    assert forall i :: 0 <= i < |cs| ==> |Members(p, ts, cs[i])| > 0 by {
      forall i | 0 <= i < |cs| {
        CategoriesHaveMembers(p, ts, cs[i]);
      }
    }
    assert gs == GroupsFor(p, ts, cs);
    var pool := Pooled(p, ts, cs);
    assert MembersOf(gs) == pool && CountOf(gs) == |pool| && TotalOf(gs) == PooledSum(p, ts, cs) by {
      GroupsForTally(p, ts, cs);
    }
    assert multiset(Individuals(p, ts)) + pool == multiset(ts) by {
      GroupingConserves(p, ts);
    }
    assert |multiset(Individuals(p, ts))| + |pool| == |multiset(ts)|;
    GroupingKeepsTotal(p, ts);
  }

  lemma GroupsForShape(p: Transaction -> bool, ts: seq<Transaction>, cs: seq<string>)
    requires forall i :: 0 <= i < |cs| ==> |Members(p, ts, cs[i])| > 0
    ensures forall k :: 0 <= k < |cs| ==> GroupsFor(p, ts, cs)[k] == MakeGroup(cs[k], Members(p, ts, cs[k]))
  {
    forall k | 0 <= k < |cs|
      ensures GroupsFor(p, ts, cs)[k] == MakeGroup(cs[k], Members(p, ts, cs[k]))
    {
      GroupsForAt(p, ts, cs, k);
      assert GroupFor(p, ts, cs[k]) == MakeGroup(cs[k], Members(p, ts, cs[k]));
    }
  }

  lemma PopulatedTail(p: Transaction -> bool, ts: seq<Transaction>, cs: seq<string>)
    requires |cs| > 0 && forall i :: 0 <= i < |cs| ==> |Members(p, ts, cs[i])| > 0
    ensures forall i :: 0 <= i < |cs[1..]| ==> |Members(p, ts, cs[1..][i])| > 0
  {
    assert forall i :: 0 <= i < |cs[1..]| ==> cs[1..][i] == cs[i + 1];
  }

  /** Group `k` is made from the members of category `k`. */
  lemma {:induction false} GroupsForAt(p: Transaction -> bool, ts: seq<Transaction>, cs: seq<string>, k: nat)
    requires forall i :: 0 <= i < |cs| ==> |Members(p, ts, cs[i])| > 0
    requires k < |cs|
    ensures GroupsFor(p, ts, cs)[k] == GroupFor(p, ts, cs[k])
    decreases k
  {
    if k > 0 {
      var rest := cs[1..];
      PopulatedTail(p, ts, cs);
      GroupsForAt(p, ts, rest, k - 1);
      assert GroupsFor(p, ts, cs)[k] == GroupsFor(p, ts, rest)[k - 1];
      assert cs[k] == rest[k - 1];
    }
  }

  /** Each group holds the eligible transactions of its category in input
      order, counts and sums them, and dates them at the end of its first
      member's month; the groups follow first occurrence and have distinct
      categories. */
  lemma GroupsShape(p: Transaction -> bool, ts: seq<Transaction>)
    ensures |GroupsOf(p, ts)| == |Categories(p, ts)|
    ensures Distinct(Categories(p, ts))
    ensures forall k :: 0 <= k < |GroupsOf(p, ts)| ==>
              var g := GroupsOf(p, ts)[k];
              && g.category == Categories(p, ts)[k]
              && g.transactions == Members(p, ts, g.category)
              && g.transactionCount == |g.transactions| > 0
              && g.totalAmount == Sum(g.transactions)
              && g.monthEndDate == MonthEnd(g.transactions[0].date)
  {
    var cs := Categories(p, ts);
    assert forall i :: 0 <= i < |cs| ==> |Members(p, ts, cs[i])| > 0 by {
      forall i | 0 <= i < |cs| {
        CategoriesHaveMembers(p, ts, cs[i]);
      }
    }
    GroupsForShape(p, ts, cs);
    CategoriesDistinct(p, ts);
  }

  // ------------------------------------------------------------ the scan

  /** The position of `c` in `cs`, or `|cs|` when absent. */
  function IndexOf(cs: seq<string>, c: string): (k: nat)
    ensures k <= |cs|
    ensures k < |cs| ==> cs[k] == c
    ensures k == |cs| ==> c !in cs
  {
    if |cs| == 0 then 0 else if cs[0] == c then 0 else 1 + IndexOf(cs[1..], c)
  }

  /** The scan's state after a prefix `s`: the keys are the categories
      seen so far and each bucket holds its key's members. */
  ghost predicate Bucketed(p: Transaction -> bool, s: seq<Transaction>, keys: seq<string>, buckets: seq<seq<Transaction>>) {
    && keys == Categories(p, s)
    && |buckets| == |keys|
    && forall k :: 0 <= k < |keys| ==> buckets[k] == Members(p, s, keys[k])
  }

  /** An eligible transaction of a known category joins its bucket. */
  lemma BucketHit(p: Transaction -> bool, s: seq<Transaction>, t: Transaction,
                  keys: seq<string>, buckets: seq<seq<Transaction>>, k: nat)
    requires Bucketed(p, s, keys, buckets) && p(t) && k < |keys| && keys[k] == t.category
    ensures Bucketed(p, s + [t], keys, buckets[k := buckets[k] + [t]])
  {
    assert (s + [t])[..|s|] == s;
    CategoriesDistinct(p, s);
  }

  /** An eligible transaction of a new category opens a bucket of its own. */
  lemma BucketNew(p: Transaction -> bool, s: seq<Transaction>, t: Transaction,
                  keys: seq<string>, buckets: seq<seq<Transaction>>)
    requires Bucketed(p, s, keys, buckets) && p(t) && t.category !in keys
    ensures Bucketed(p, s + [t], keys + [t.category], buckets + [[t]])
  {
    assert (s + [t])[..|s|] == s;
    CategoriesHaveMembers(p, s, t.category);
  }

  /** An ineligible transaction leaves the buckets alone. */
  lemma BucketSkip(p: Transaction -> bool, s: seq<Transaction>, t: Transaction,
                   keys: seq<string>, buckets: seq<seq<Transaction>>)
    requires Bucketed(p, s, keys, buckets) && !p(t)
    ensures Bucketed(p, s + [t], keys, buckets)
    ensures Individuals(p, s + [t]) == Individuals(p, s) + [t]
  {
    assert (s + [t])[..|s|] == s;
  }

  /** `TransactionGrouper.group`: one pass over the transactions filling
      the individual list and the per-category buckets, then one group per
      bucket in insertion order. */
  method GroupTransactions(re: Regex, rules: seq<(string, MappingRule)>, ts: seq<Transaction>)
    returns (individual: seq<Transaction>, groups: seq<Group>)
    ensures individual == Individuals(CanGroupOf(re, rules), ts)
    ensures groups == GroupsOf(CanGroupOf(re, rules), ts)
  {
    var p := CanGroupOf(re, rules);
    individual := [];
    var keys: seq<string> := [];
    var buckets: seq<seq<Transaction>> := [];
    var i := 0;
    while i < |ts|
      invariant 0 <= i <= |ts|
      invariant individual == Individuals(p, ts[..i])
      invariant Bucketed(p, ts[..i], keys, buckets)
    {
      var t := ts[i];
      assert ts[..i + 1] == ts[..i] + [t];
      if CanGroup(re, rules, t) {
        var k := IndexOf(keys, t.category);
        assert Individuals(p, ts[..i] + [t]) == Individuals(p, ts[..i]) by {
          assert (ts[..i] + [t])[..i] == ts[..i];
        }
        if k < |keys| {
          BucketHit(p, ts[..i], t, keys, buckets, k);
          buckets := buckets[k := buckets[k] + [t]];
        } else {
          BucketNew(p, ts[..i], t, keys, buckets);
          keys := keys + [t.category];
          buckets := buckets + [[t]];
        }
      } else {
        BucketSkip(p, ts[..i], t, keys, buckets);
        individual := individual + [t];
      }
      i := i + 1;
    }
    assert ts[..i] == ts;
    assert forall k :: 0 <= k < |keys| ==> |Members(p, ts, keys[k])| > 0 by {
      forall k | 0 <= k < |keys| {
        CategoriesHaveMembers(p, ts, keys[k]);
      }
    }
    groups := [];
    var j := |keys|;
    while j > 0
      invariant 0 <= j <= |keys|
      invariant groups == GroupsFor(p, ts, keys[j..])
    {
      j := j - 1;
      assert keys[j..][1..] == keys[j + 1..];
      groups := [MakeGroup(keys[j], buckets[j])] + groups;
    }
  }

  /** No transactions: nothing individual and no groups. */
  lemma EmptyInput(re: Regex, rules: seq<(string, MappingRule)>)
    ensures Individuals(CanGroupOf(re, rules), []) == []
    ensures GroupsOf(CanGroupOf(re, rules), []) == []
  {
  }
}
