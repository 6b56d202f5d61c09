/** The processing steps of the command-line entry point: keep the
    transactions of the target month, group them, and map the individual
    transactions first and the groups after them. */
module Pipeline {
  import opened Transactions
  import opened Patterns
  import opened Config
  import opened Grouper
  import opened Mapper

  /** `parseTransactions`: the transactions dated in the target month, in
      input order. */
  function InMonth(ts: seq<Transaction>, year: int, month: int): (r: seq<Transaction>)
    ensures forall x :: x in r <==> x in ts && x.date.year == year && x.date.month == month
    ensures |r| <= |ts|
  {
    if |ts| == 0 then []
    else
      assert ts == [ts[0]] + ts[1..];
      (if ts[0].date.year == year && ts[0].date.month == month then [ts[0]] else []) + InMonth(ts[1..], year, month)
  }

  /** `groupTransactions` followed by `mapToBookingEntries`. */
  function Bookings(cfg: Configuration, re: Regex, ts: seq<Transaction>, year: int, month: int): seq<BookingEntry> {
    var selected := InMonth(ts, year, month);
    var p := CanGroupOf(re, cfg.rules);
    MapTransactions(cfg, re, Individuals(p, selected)) + MapGroups(cfg, GroupsOf(p, selected))
  }

  /** The transaction entries come first, then exactly one entry per group,
      in group order. */
  lemma BookingsOrder(cfg: Configuration, re: Regex, ts: seq<Transaction>, year: int, month: int)
    ensures var r := Bookings(cfg, re, ts, year, month);
            var gs := GroupsOf(CanGroupOf(re, cfg.rules), InMonth(ts, year, month));
            var n := |r| - |gs|;
            && 0 <= n
            && (forall i :: 0 <= i < n ==> r[i].FromTxn?)
            && (forall k :: 0 <= k < |gs| ==> r[n + k].FromGroup? && r[n + k].group == gs[k])
  {
    var p := CanGroupOf(re, cfg.rules);
    var selected := InMonth(ts, year, month);
    var txns := MapTransactions(cfg, re, Individuals(p, selected));
    NoIgnoredEntry(cfg, re, Individuals(p, selected));
    EntriesInOrder(txns, MapGroups(cfg, GroupsOf(p, selected)), GroupsOf(p, selected));
  }

  /** Transaction entries followed by one entry per group keep that order. */
  lemma EntriesInOrder(txns: seq<BookingEntry>, ges: seq<BookingEntry>, gs: seq<Group>)
    requires forall e :: e in txns ==> e.FromTxn?
    requires |ges| == |gs| && forall k :: 0 <= k < |gs| ==> ges[k].FromGroup? && ges[k].group == gs[k]
    ensures var r := txns + ges;
            && |r| - |gs| == |txns|
            && (forall i :: 0 <= i < |txns| ==> r[i].FromTxn?)
            && (forall k :: 0 <= k < |gs| ==> r[|txns| + k].FromGroup? && r[|txns| + k].group == gs[k])
  {
    assert forall i :: 0 <= i < |txns| ==> txns[i] in txns;
  }

  /** Every booked transaction, on its own or inside a group, is dated in
      the target month. */
  lemma BookingsInMonth(cfg: Configuration, re: Regex, ts: seq<Transaction>, year: int, month: int)
    ensures forall e :: e in Bookings(cfg, re, ts, year, month) && e.FromTxn? ==>
              e.transaction.date.year == year && e.transaction.date.month == month
    ensures forall e, x :: e in Bookings(cfg, re, ts, year, month) && e.FromGroup? && x in e.group.transactions ==>
              x.date.year == year && x.date.month == month
  {
    var p := CanGroupOf(re, cfg.rules);
    var selected := InMonth(ts, year, month);
    var txns := MapTransactions(cfg, re, Individuals(p, selected));
    var gs := GroupsOf(p, selected);
    assert forall e :: e in txns ==> e.FromTxn? && e.transaction in selected by {
      NoIgnoredEntry(cfg, re, Individuals(p, selected));
      IndividualsAreIneligible(p, selected);
    }
    assert forall g, x :: g in gs && x in g.transactions ==> x in selected by {
      forall g, x | g in gs && x in g.transactions
        ensures x in selected
      {
        GroupMembersSelected(p, selected, g, x);
      }
    }
    assert forall e :: e in MapGroups(cfg, gs) ==> e.FromGroup? && e.group in gs by {
      forall e | e in MapGroups(cfg, gs)
        ensures e.FromGroup? && e.group in gs
      {
        var k :| 0 <= k < |gs| && MapGroups(cfg, gs)[k] == e;
      }
    }
  }

  lemma GroupMembersSelected(p: Transaction -> bool, ts: seq<Transaction>, g: Group, x: Transaction)
    requires g in GroupsOf(p, ts) && x in g.transactions
    ensures x in ts
  {
    GroupsShape(p, ts);
    var k :| 0 <= k < |GroupsOf(p, ts)| && GroupsOf(p, ts)[k] == g;
    MembersAreEligible(p, ts, g.category);
  }

  /** The ignore rules are applied to individual transactions only: an
      ignored transaction that can be grouped is still booked, inside its
      group's entry. */
  lemma IgnoredButGrouped(cfg: Configuration, re: Regex, ts: seq<Transaction>, year: int, month: int, t: Transaction)
    requires t in ts && t.date.year == year && t.date.month == month
    requires CanGroup(re, cfg.rules, t) && Ignored(cfg, re, t)
    ensures exists e :: e in Bookings(cfg, re, ts, year, month) && e.FromGroup? && t in e.group.transactions
  {
    var p := CanGroupOf(re, cfg.rules);
    var selected := InMonth(ts, year, month);
    assert t in selected && p(t);
    assert t.category in Categories(p, selected) by {
      MembersAreEligible(p, selected, t.category);
      CategoriesHaveMembers(p, selected, t.category);
    }
    var cs := Categories(p, selected);
    var k :| 0 <= k < |cs| && cs[k] == t.category;
    GroupsShape(p, selected);
    var gs := GroupsOf(p, selected);
    MembersAreEligible(p, selected, t.category);
    assert t in gs[k].transactions;
    BookingsOrder(cfg, re, ts, year, month);
    var r := Bookings(cfg, re, ts, year, month);
    var e := r[|r| - |gs| + k];
    assert e in r;
  }
}
