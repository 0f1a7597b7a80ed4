/** What transfer marking does to the totals of `Summary`: money that only moved between the user's
    own accounts leaves inflow and outflow together. */
module Totals {
  import opened Like
  import opened Matching
  import opened Marking
  import opened Sequences

  /** Total of the rows of one direction that analytics counts. */
  function Flow(rows: seq<Txn>, credit: bool): int {
    if rows == [] then 0
    else
      var t := rows[|rows| - 1];
      Flow(rows[..|rows| - 1], credit) + if t.credit == credit && t.category != TRANSFERS then t.cents else 0
  }

  function Net(rows: seq<Txn>): int {
    Flow(rows, true) - Flow(rows, false)
  }

  // ---------- Summary ----------

  /** One row of the grouped query: a month with its inflow and outflow. */
  datatype Month = Month(month: int, inflow: int, outflow: int)

  /** The counted rows of one month. */
  function MonthFlow(rows: seq<Txn>, monthOf: int -> int, m: int, credit: bool): int {
    if rows == [] then 0
    else
      var t := rows[|rows| - 1];
      MonthFlow(rows[..|rows| - 1], monthOf, m, credit)
        + if t.credit == credit && t.category != TRANSFERS && monthOf(t.date) == m then t.cents else 0
  }

  /** The month has a row that analytics counts. */
  ghost predicate Listed(rows: seq<Txn>, monthOf: int -> int, m: int) {
    exists t :: t in rows && t.category != "Transfers" && monthOf(t.date) == m
  }

  /** `groups` is the result of the grouped query: each month that has a counted row, once. */
  ghost predicate GroupedByMonth(rows: seq<Txn>, monthOf: int -> int, groups: seq<Month>) {
    && (forall i, j :: 0 <= i < j < |groups| ==> groups[i].month != groups[j].month)
    && (forall i :: 0 <= i < |groups| ==>
          && groups[i].inflow == MonthFlow(rows, monthOf, groups[i].month, true)
          && groups[i].outflow == MonthFlow(rows, monthOf, groups[i].month, false))
    && forall m :: Listed(rows, monthOf, m) <==> exists i :: 0 <= i < |groups| && groups[i].month == m
  }

  /** The months with a counted row, once each. */
  lemma {:induction false} MonthsOf(rows: seq<Txn>, monthOf: int -> int) returns (ms: seq<int>)
    ensures forall i, j :: 0 <= i < j < |ms| ==> ms[i] != ms[j]
    ensures forall m :: Listed(rows, monthOf, m) <==> m in ms
    decreases |rows|
  {
    ms := [];
    if rows != [] {
      var before, t := rows[..|rows| - 1], rows[|rows| - 1];
      ms := MonthsOf(before, monthOf);
      WithoutLast(rows);
      var m := monthOf(t.date);
      assert forall n :: Listed(rows, monthOf, n) <==> Listed(before, monthOf, n) || (t.category != "Transfers" && n == m);
      if t.category != "Transfers" && m !in ms {
        ms := ms + [m];
      }
    }
  }

  /** Every ledger has such a result. */
  lemma GroupsExist(rows: seq<Txn>, monthOf: int -> int) returns (groups: seq<Month>)
    ensures GroupedByMonth(rows, monthOf, groups)
  {
    var ms := MonthsOf(rows, monthOf);
    groups := seq(|ms|, i requires 0 <= i < |ms| =>
      Month(ms[i], MonthFlow(rows, monthOf, ms[i], true), MonthFlow(rows, monthOf, ms[i], false)));
    forall m ensures Listed(rows, monthOf, m) <==> exists i :: 0 <= i < |groups| && groups[i].month == m {
      if m in ms {
        var i :| 0 <= i < |ms| && ms[i] == m;
        assert groups[i].month == m;
      }
    }
  }

  /** The counted rows whose month is among the first `n` groups. */
  ghost function Covered(rows: seq<Txn>, monthOf: int -> int, groups: seq<Month>, n: nat, credit: bool): int
    requires n <= |groups|
  {
    if rows == [] then 0
    else
      var t := rows[|rows| - 1];
      Covered(rows[..|rows| - 1], monthOf, groups, n, credit)
        + if t.credit == credit && t.category != TRANSFERS
             && (exists i :: 0 <= i < n && groups[i].month == monthOf(t.date)) then t.cents else 0
  }

  lemma {:induction false} CoveredNone(rows: seq<Txn>, monthOf: int -> int, groups: seq<Month>, credit: bool)
    ensures Covered(rows, monthOf, groups, 0, credit) == 0
    decreases |rows|
  {
    if rows != [] {
      CoveredNone(rows[..|rows| - 1], monthOf, groups, credit);
    }
  }

  lemma {:induction false} CoveredNext(rows: seq<Txn>, monthOf: int -> int, groups: seq<Month>, n: nat, credit: bool)
    requires n < |groups| && forall i, j :: 0 <= i < j < |groups| ==> groups[i].month != groups[j].month
    ensures Covered(rows, monthOf, groups, n + 1, credit)
         == Covered(rows, monthOf, groups, n, credit) + MonthFlow(rows, monthOf, groups[n].month, credit)
    decreases |rows|
  {
    if rows != [] {
      CoveredNext(rows[..|rows| - 1], monthOf, groups, n, credit);
      var m := monthOf(rows[|rows| - 1].date);
      assert (exists i :: 0 <= i < n + 1 && groups[i].month == m)
        <==> (exists i :: 0 <= i < n && groups[i].month == m) || groups[n].month == m;
    }
  }

  lemma {:induction false} CoveredAll(rows: seq<Txn>, monthOf: int -> int, groups: seq<Month>, credit: bool)
    requires forall t :: t in rows && t.category != TRANSFERS ==>
               exists i :: 0 <= i < |groups| && groups[i].month == monthOf(t.date)
    ensures Covered(rows, monthOf, groups, |groups|, credit) == Flow(rows, credit)
    decreases |rows|
  {
    if rows != [] {
      assert rows[|rows| - 1] in rows;
      CoveredAll(rows[..|rows| - 1], monthOf, groups, credit);
    }
  }

  /** The accumulation loop of `Summary` over the grouped query adds up to the totals over all rows. */
  method Summary(groups: seq<Month>, ghost rows: seq<Txn>, ghost monthOf: int -> int)
      returns (inflow: int, outflow: int, net: int)
    requires GroupedByMonth(rows, monthOf, groups)
    ensures inflow == Flow(rows, true) && outflow == Flow(rows, false) && net == Net(rows)
  {
    inflow, outflow := 0, 0;
    CoveredNone(rows, monthOf, groups, true);
    CoveredNone(rows, monthOf, groups, false);
    for n := 0 to |groups|
      invariant inflow == Covered(rows, monthOf, groups, n, true)
      invariant outflow == Covered(rows, monthOf, groups, n, false)
    {
      CoveredNext(rows, monthOf, groups, n, true);
      CoveredNext(rows, monthOf, groups, n, false);
      inflow := inflow + groups[n].inflow;
      outflow := outflow + groups[n].outflow;
    }
    forall t | t in rows && t.category != TRANSFERS
      ensures exists i :: 0 <= i < |groups| && groups[i].month == monthOf(t.date)
    {
      assert Listed(rows, monthOf, monthOf(t.date));
    }
    CoveredAll(rows, monthOf, groups, true);
    CoveredAll(rows, monthOf, groups, false);
    net := inflow - outflow;
  }

  // ---------- Sums over positions and over pairs ----------

  /** Cents of the transactions at the positions in `ps`. */
  ghost function CentsAt(txns: seq<Txn>, ps: set<nat>): int {
    if txns == [] then 0
    else CentsAt(txns[..|txns| - 1], ps) + if |txns| - 1 in ps then txns[|txns| - 1].cents else 0
  }

  /** Cents moved by a set of pairs: each pair counts once. */
  ghost function Moved(txns: seq<Txn>, m: set<Edge>): int
    decreases m
  {
    if m == {} then 0
    else
      var e :| e in m;
      CentsOf(txns, e) + Moved(txns, m - {e})
  }

  ghost function CentsOf(txns: seq<Txn>, e: Edge): int {
    if e.d < |txns| then txns[e.d].cents else 0
  }

  ghost predicate Tagged(txns: seq<Txn>, p: nat) {
    p < |txns| && txns[p].category == TRANSFERS
  }

  lemma {:induction false} CentsAtNone(txns: seq<Txn>)
    ensures CentsAt(txns, {}) == 0
    decreases |txns|
  {
    if txns != [] {
      CentsAtNone(txns[..|txns| - 1]);
    }
  }

  lemma {:induction false} CentsAtUnion(txns: seq<Txn>, ps: set<nat>, qs: set<nat>)
    requires ps !! qs
    ensures CentsAt(txns, ps + qs) == CentsAt(txns, ps) + CentsAt(txns, qs)
    decreases |txns|
  {
    if txns != [] {
      CentsAtUnion(txns[..|txns| - 1], ps, qs);
    }
  }

  lemma {:induction false} CentsAtOne(txns: seq<Txn>, p: nat)
    ensures CentsAt(txns, {p}) == if p < |txns| then txns[p].cents else 0
    decreases |txns|
  {
    if txns != [] {
      CentsAtOne(txns[..|txns| - 1], p);
    }
  }

  lemma FreshEnd(m: set<Edge>, e: Edge, credit: bool)
    requires Disjoint(m) && e in m
    ensures End(e, credit) !in Ends(m - {e}, credit)
  {
    if End(e, credit) in Ends(m - {e}, credit) {
      var f :| f in m - {e} && End(f, credit) == End(e, credit);
      assert Share(e, f);
    }
  }

  lemma MovedSplit(txns: seq<Txn>, m: set<Edge>) returns (e: Edge)
    requires m != {}
    ensures e in m && Moved(txns, m) == CentsOf(txns, e) + Moved(txns, m - {e})
  {
    e :| e in m && Moved(txns, m) == CentsOf(txns, e) + Moved(txns, m - {e});
  }

  lemma CentsAtSplit(txns: seq<Txn>, m: set<Edge>, e: Edge, credit: bool)
    requires Disjoint(m) && e in m && Admissible(txns, e)
    ensures CentsAt(txns, Ends(m, credit)) == CentsAt(txns, Ends(m - {e}, credit)) + CentsOf(txns, e)
  {
    EndsSplit(m, e, credit);
    FreshEnd(m, e, credit);
    CentsAtUnion(txns, Ends(m - {e}, credit), {End(e, credit)});
    CentsAtOne(txns, End(e, credit));
  }

  /** Disjoint admissible pairs move the cents found at their debits, and at their credits. */
  lemma {:induction false} MovedAtEnds(txns: seq<Txn>, m: set<Edge>, credit: bool)
    requires Disjoint(m) && forall e :: e in m ==> Admissible(txns, e)
    ensures Moved(txns, m) == CentsAt(txns, Ends(m, credit))
    decreases m
  {
    if m == {} {
      CentsAtNone(txns);
      assert Ends(m, credit) == {};
    } else {
      var e := MovedSplit(txns, m);
      MovedAtEnds(txns, m - {e}, credit);
      CentsAtSplit(txns, m, e, credit);
    }
  }

  lemma MovedUnion(txns: seq<Txn>, m: set<Edge>, n: set<Edge>)
    requires Disjoint(m + n) && m !! n && forall e :: e in m + n ==> Admissible(txns, e)
    ensures Moved(txns, m + n) == Moved(txns, m) + Moved(txns, n)
  {
    MovedAtEnds(txns, m, true);
    MovedAtEnds(txns, n, true);
    MovedAtEnds(txns, m + n, true);
    assert Ends(m + n, true) == Ends(m, true) + Ends(n, true);
    forall e, f | e in m && f in n ensures e.c != f.c {
      assert e in m + n && f in m + n;
      assert !Share(e, f);
    }
    CentsAtUnion(txns, Ends(m, true), Ends(n, true));
  }

  // ---------- What marking removes ----------

  /** Cents of the counted rows of one direction whose id satisfies `hit`. */
  ghost function Hit(rows: seq<Txn>, hit: string -> bool, credit: bool): int {
    if rows == [] then 0
    else
      var t := rows[|rows| - 1];
      Hit(rows[..|rows| - 1], hit, credit)
        + if t.credit == credit && t.category != TRANSFERS && hit(t.id) then t.cents else 0
  }

  ghost function IsMatched(txns: seq<Txn>): string -> bool {
    id => MatchedId(txns, id)
  }

  lemma {:induction false} FlowDrop(rows: seq<Txn>, rows': seq<Txn>, hit: string -> bool, credit: bool)
    requires |rows| == |rows'|
    requires forall i :: 0 <= i < |rows| ==>
               rows'[i] == if hit(rows[i].id) then rows[i].(category := TRANSFERS) else rows[i]
    ensures Flow(rows, credit) - Flow(rows', credit) == Hit(rows, hit, credit)
    decreases |rows|
  {
    if rows != [] {
      FlowDrop(rows[..|rows| - 1], rows'[..|rows| - 1], hit, credit);
    }
  }

  lemma HitNext(rows: seq<Txn>, t: Txn, hit: string -> bool, credit: bool)
    ensures Hit(rows + [t], hit, credit)
         == Hit(rows, hit, credit) + if t.credit == credit && t.category != TRANSFERS && hit(t.id) then t.cents else 0
  {
    assert (rows + [t])[..|rows|] == rows;
  }

  lemma {:induction false} HitEligible(rules: seq<Rule>, rows: seq<Txn>, hit: string -> bool, credit: bool)
    requires forall t :: t in rows && hit(t.id) ==> !Ruled(rules, t)
    ensures Hit(rows, hit, credit) == Hit(Eligible(rules, rows), hit, credit)
    decreases |rows|
  {
    if rows != [] {
      var n := |rows| - 1;
      HitEligible(rules, rows[..n], hit, credit);
      assert rows[n] in rows;
      assert rows == rows[..n] + [rows[n]];
      HitNext(rows[..n], rows[n], hit, credit);
      var before := Eligible(rules, rows[..n]);
      if Ruled(rules, rows[n]) {
        assert Eligible(rules, rows) == before;
      } else {
        HitNext(before, rows[n], hit, credit);
      }
    }
  }

  /** The ends, on one side, that marking takes out of the totals. */
  ghost function Untagged(txns: seq<Txn>, m: set<Edge>, credit: bool): set<Edge> {
    set e | e in m && !Tagged(txns, End(e, credit))
  }

  lemma {:induction false} HitAtEnds(txns: seq<Txn>, n: nat, ps: set<nat>, credit: bool)
    requires n <= |txns| && DistinctIds(txns)
    requires forall p: nat :: p < |txns| ==>
               (p in ps <==> txns[p].credit == credit && txns[p].category != TRANSFERS && MatchedId(txns, txns[p].id))
    ensures Hit(txns[..n], IsMatched(txns), credit) == CentsAt(txns[..n], ps)
    decreases n
  {
    if n > 0 {
      HitAtEnds(txns, n - 1, ps, credit);
      assert txns[..n][..n - 1] == txns[..n - 1];
    }
  }

  lemma UntaggedEndsAre(txns: seq<Txn>, credit: bool, p: nat)
    requires p < |txns| && DistinctIds(txns)
    ensures p in Ends(Untagged(txns, Pairs(txns), credit), credit)
       <==> txns[p].credit == credit && txns[p].category != TRANSFERS && MatchedId(txns, txns[p].id)
  {
    var m := Pairs(txns);
    if MatchedId(txns, txns[p].id) {
      var q: nat :| q < |txns| && txns[q].id == txns[p].id && Matched(txns, q);
      assert q == p;
      var e :| e in m && (p == e.d || p == e.c);
      assert Admissible(txns, e);
      if txns[p].credit == credit && txns[p].category != TRANSFERS {
        assert End(e, credit) == p && e in Untagged(txns, m, credit);
      }
    }
    if p in Ends(Untagged(txns, m, credit), credit) {
      var e :| e in Untagged(txns, m, credit) && End(e, credit) == p;
      assert Admissible(txns, e);
      assert Matched(txns, p);
    }
  }

  /** Marking lowers the flow of a direction by what the pairs with an untagged end there move. */
  lemma MarkingDrop(rules: seq<Rule>, rows: seq<Txn>, rows': seq<Txn>, credit: bool)
    requires DistinctIds(rows) && Marked(rules, rows, rows')
    ensures var txns := Eligible(rules, rows);
            Flow(rows, credit) - Flow(rows', credit) == Moved(txns, Untagged(txns, Pairs(txns), credit))
  {
    var txns := Eligible(rules, rows);
    var m := Pairs(txns);
    var hit := IsMatched(txns);
    EligibleDistinct(rules, rows);
    FlowDrop(rows, rows', hit, credit);
    forall t | t in rows && hit(t.id) ensures !Ruled(rules, t) {
      MatchedRowIsEligible(rules, rows, t);
    }
    HitEligible(rules, rows, hit, credit);
    var un := Untagged(txns, m, credit);
    forall p: nat | p < |txns| ensures p in Ends(un, credit) <==>
        txns[p].credit == credit && txns[p].category != TRANSFERS && MatchedId(txns, txns[p].id) {
      UntaggedEndsAre(txns, credit, p);
    }
    HitAtEnds(txns, |txns|, Ends(un, credit), credit);
    assert txns[..|txns|] == txns;
    StableIsDisjoint(txns, m);
    MovedAtEnds(txns, un, credit);
  }

  /** Pairs of the matching with exactly one end already tagged. */
  ghost function PreTagged(txns: seq<Txn>, m: set<Edge>, credit: bool): set<Edge> {
    set e | e in m && Tagged(txns, End(e, credit)) && !Tagged(txns, End(e, !credit))
  }

  /** In general Net rises by the pairs whose credit alone was tagged before, and falls by those whose
      debit alone was. */
  lemma NetChange(rules: seq<Rule>, rows: seq<Txn>, rows': seq<Txn>)
    requires DistinctIds(rows) && Marked(rules, rows, rows')
    ensures var txns := Eligible(rules, rows);
            Net(rows') - Net(rows)
            == Moved(txns, PreTagged(txns, Pairs(txns), true)) - Moved(txns, PreTagged(txns, Pairs(txns), false))
  {
    var txns := Eligible(rules, rows);
    var m := Pairs(txns);
    MarkingDrop(rules, rows, rows', true);
    MarkingDrop(rules, rows, rows', false);
    StableIsDisjoint(txns, m);
    var both := set e | e in m && !Tagged(txns, e.d) && !Tagged(txns, e.c);
    assert Untagged(txns, m, true) == both + PreTagged(txns, m, false);
    assert Untagged(txns, m, false) == both + PreTagged(txns, m, true);
    MovedUnion(txns, both, PreTagged(txns, m, false));
    MovedUnion(txns, both, PreTagged(txns, m, true));
  }

  /** Conservation: when no matched row was tagged before, inflow and outflow drop by the same cents,
      namely what the matching moves, and Net stays. */
  lemma NetConserved(rules: seq<Rule>, rows: seq<Txn>, rows': seq<Txn>)
    requires DistinctIds(rows) && Marked(rules, rows, rows')
    requires forall t :: t in rows && MatchedId(Eligible(rules, rows), t.id) ==> t.category != TRANSFERS
    ensures var txns := Eligible(rules, rows);
            Flow(rows, true) - Flow(rows', true) == Flow(rows, false) - Flow(rows', false) == Moved(txns, Pairs(txns))
    ensures Net(rows') == Net(rows)
  {
    var txns := Eligible(rules, rows);
    var m := Pairs(txns);
    MarkingDrop(rules, rows, rows', true);
    MarkingDrop(rules, rows, rows', false);
    forall e, credit: bool | e in m ensures !Tagged(txns, End(e, credit)) {
      var p := End(e, credit);
      assert Admissible(txns, e);
      assert Matched(txns, p) && MatchedId(txns, txns[p].id) && txns[p] in txns;
      EligibleRows(rules, rows, txns[p]);
    }
    assert Untagged(txns, m, true) == m && Untagged(txns, m, false) == m;
  }
}
