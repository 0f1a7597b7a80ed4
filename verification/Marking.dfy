/** Transfer marking of the ledger: the in-place eligibility filter, the retagging of matched rows,
    and what it does to the totals that analytics reports. */
module Marking {
  import opened Like
  import opened Matching
  import opened Sequences
  import Transfers

  // ---------- Eligibility ----------

  /** Some user rule that applies assigns a category other than Transfers. */
  ghost predicate Ruled(rules: seq<Rule>, t: Txn) {
    exists i :: 0 <= i < |rules| && Applies(rules[i].pattern, t.merchant) && rules[i].category != TRANSFERS
  }

  method RuledByUser(rules: seq<Rule>, t: Txn) returns (ruled: bool)
    ensures ruled <==> Ruled(rules, t)
  {
    for i := 0 to |rules|
      invariant !Ruled(rules[..i], t)
    {
      if Applies(rules[i].pattern, t.merchant) && rules[i].category != TRANSFERS {
        return true;
      }
    }
    assert rules[..|rules|] == rules;
    return false;
  }

  /** The rows the matcher may touch, in order. */
  ghost function Eligible(rules: seq<Rule>, rows: seq<Txn>): seq<Txn> {
    if rows == [] then []
    else Eligible(rules, rows[..|rows| - 1]) + if Ruled(rules, rows[|rows| - 1]) then [] else [rows[|rows| - 1]]
  }

  /** The filter reuses the candidates' own array for its result. */
  method FilterInPlace(rules: seq<Rule>, cands: array<Txn>) returns (n: nat)
    modifies cands
    ensures n <= cands.Length && cands[..n] == Eligible(rules, old(cands[..]))
  {
    n := 0;
    ghost var all, kept: seq<Txn> := cands[..], [];
    for i := 0 to cands.Length
      invariant n == |kept| <= i
      invariant kept == Eligible(rules, all[..i])
      invariant forall k :: 0 <= k < n ==> cands[k] == kept[k]
      invariant forall k :: i <= k < cands.Length ==> cands[k] == all[k]
    {
      var c := cands[i];
      EligibleNext(rules, all, i);
      var ruled := RuledByUser(rules, c);
      if !ruled {
        cands[n] := c;
        n := n + 1;
        kept := kept + [c];
      }
    }
    assert all[..cands.Length] == all;
    assert cands[..n] == kept;
  }

  lemma EligibleNext(rules: seq<Rule>, rows: seq<Txn>, i: nat)
    requires i < |rows|
    ensures Eligible(rules, rows[..i + 1])
         == Eligible(rules, rows[..i]) + if Ruled(rules, rows[i]) then [] else [rows[i]]
  {
    assert rows[..i + 1][..i] == rows[..i];
  }

  lemma {:induction false} EligibleRows(rules: seq<Rule>, rows: seq<Txn>, t: Txn)
    ensures t in Eligible(rules, rows) <==> t in rows && !Ruled(rules, t)
    decreases |rows|
  {
    if rows != [] {
      EligibleRows(rules, rows[..|rows| - 1], t);
      assert rows == rows[..|rows| - 1] + [rows[|rows| - 1]];
    }
  }

  ghost predicate DistinctIds(rows: seq<Txn>) {
    forall i, j :: 0 <= i < j < |rows| ==> rows[i].id != rows[j].id
  }

  lemma {:induction false} EligibleDistinct(rules: seq<Rule>, rows: seq<Txn>)
    requires DistinctIds(rows)
    ensures DistinctIds(Eligible(rules, rows))
    decreases |rows|
  {
    if rows != [] {
      var before := rows[..|rows| - 1];
      EligibleDistinct(rules, before);
      forall i | 0 <= i < |Eligible(rules, before)| ensures Eligible(rules, before)[i].id != rows[|rows| - 1].id {
        EligibleRows(rules, before, Eligible(rules, before)[i]);
      }
    }
  }

  // ---------- Retagging by id ----------

  function SetCategory(rows: seq<Txn>, ids: seq<string>, category: string): (r: seq<Txn>)
    ensures |r| == |rows|
  {
    seq(|rows|, i requires 0 <= i < |rows| => if rows[i].id in ids then rows[i].(category := category) else rows[i])
  }

  /** The row at position `p` is one end of a pair. */
  ghost predicate Matched(txns: seq<Txn>, p: nat) {
    exists e :: e in Pairs(txns) && (p == e.d || p == e.c)
  }

  /** The row with this id ends a pair. */
  ghost predicate MatchedId(txns: seq<Txn>, id: string) {
    exists p: nat :: p < |txns| && txns[p].id == id && Matched(txns, p)
  }

  /** The ledger after marking: every eligible row that ends a pair carries the tag, nothing else changes. */
  ghost predicate Marked(rules: seq<Rule>, rows: seq<Txn>, rows': seq<Txn>) {
    && |rows'| == |rows|
    && forall i :: 0 <= i < |rows| ==>
         rows'[i] == if MatchedId(Eligible(rules, rows), rows[i].id) then rows[i].(category := TRANSFERS) else rows[i]
  }

  lemma ReportedIsMatched(txns: seq<Txn>, ids: seq<string>, id: string)
    requires Transfers.Reports(txns, ids) && id in ids
    ensures MatchedId(txns, id)
  {
    var at :| Transfers.Lists(txns, Pairs(txns), ids, at);
    var k :| 0 <= k < |ids| && ids[k] == id;
    assert at[k] in at && Transfers.UntaggedEnd(txns, Pairs(txns), at[k]);
  }

  lemma MatchedIsReported(txns: seq<Txn>, ids: seq<string>, t: Txn)
    requires Transfers.Reports(txns, ids) && DistinctIds(txns)
    requires MatchedId(txns, t.id) && t in txns && t.category != TRANSFERS
    ensures t.id in ids
  {
    var at :| Transfers.Lists(txns, Pairs(txns), ids, at);
    var p: nat :| p < |txns| && txns[p].id == t.id && Matched(txns, p);
    assert txns[p] == t && Transfers.UntaggedEnd(txns, Pairs(txns), p);
    var k :| 0 <= k < |at| && at[k] == p;
    assert ids[k] in ids;
  }

  lemma MatchedRowIsEligible(rules: seq<Rule>, rows: seq<Txn>, t: Txn)
    requires DistinctIds(rows) && t in rows && MatchedId(Eligible(rules, rows), t.id)
    ensures t in Eligible(rules, rows) && !Ruled(rules, t)
  {
    var cands := Eligible(rules, rows);
    var p: nat :| p < |cands| && cands[p].id == t.id && Matched(cands, p);
    EligibleRows(rules, rows, cands[p]);
    assert cands[p] == t;
  }

  lemma ReportedIdsMark(rules: seq<Rule>, rows: seq<Txn>, ids: seq<string>)
    requires DistinctIds(rows) && Transfers.Reports(Eligible(rules, rows), ids)
    ensures Marked(rules, rows, SetCategory(rows, ids, TRANSFERS))
  {
    var cands := Eligible(rules, rows);
    EligibleDistinct(rules, rows);
    forall i | 0 <= i < |rows|
      ensures SetCategory(rows, ids, TRANSFERS)[i]
           == if MatchedId(cands, rows[i].id) then rows[i].(category := TRANSFERS) else rows[i]
    {
      if rows[i].id in ids {
        ReportedIsMatched(cands, ids, rows[i].id);
      } else if MatchedId(cands, rows[i].id) && rows[i].category != TRANSFERS {
        MatchedRowIsEligible(rules, rows, rows[i]);
        MatchedIsReported(cands, ids, rows[i]);
      }
    }
  }

  // ---------- In plain terms ----------

  /** Some rule claims the row for a category of its own. */
  ghost predicate SetAside(rules: seq<Rule>, t: Txn) {
    exists i :: 0 <= i < |rules| && RuleClaims(rules[i], t.merchant) && rules[i].category != "Transfers"
  }

  /** The candidates are the rows at the positions `at`, in order: all but those set aside. */
  ghost predicate Candidates(rules: seq<Rule>, rows: seq<Txn>, cands: seq<Txn>, at: seq<nat>) {
    Traced((row: Txn, t: Txn) => t == row && !SetAside(rules, row), (row: Txn) => SetAside(rules, row), rows, cands, at)
  }

  ghost predicate EndsPair(m: set<Edge>, at: seq<nat>, i: nat) {
    exists e :: e in m && e.d < |at| && e.c < |at| && (at[e.d] == i || at[e.c] == i)
  }

  /** The rows that end a pair are tagged, and nothing else changes. */
  ghost predicate TagsEnds(rows: seq<Txn>, m: set<Edge>, at: seq<nat>, rows': seq<Txn>) {
    && |rows'| == |rows|
    && forall i: nat :: i < |rows| ==>
         rows'[i] == if EndsPair(m, at, i) then rows[i].(category := "Transfers") else rows[i]
  }

  /** The rows that no rule claims for another category are paired up, and those in a pair are tagged. */
  ghost predicate Marks(rules: seq<Rule>, rows: seq<Txn>, rows': seq<Txn>) {
    exists cands: seq<Txn>, at: seq<nat>, m ::
      Candidates(rules, rows, cands, at) && IsPairing(cands, m) && TagsEnds(rows, m, at, rows')
  }

  lemma RuledIff(rules: seq<Rule>, t: Txn)
    ensures Ruled(rules, t) <==> SetAside(rules, t)
  {
    forall i | 0 <= i < |rules| ensures Applies(rules[i].pattern, t.merchant) <==> RuleClaims(rules[i], t.merchant) {
      ClaimsIff(rules[i], t.merchant);
    }
  }

  lemma {:induction false} EligibleTraced(rules: seq<Rule>, rows: seq<Txn>) returns (at: seq<nat>)
    ensures Candidates(rules, rows, Eligible(rules, rows), at)
    decreases |rows|
  {
    at := [];
    if rows != [] {
      var before, t := rows[..|rows| - 1], rows[|rows| - 1];
      at := EligibleTraced(rules, before);
      RuledIff(rules, t);
      var gives, drops := (row: Txn, t: Txn) => t == row && !SetAside(rules, row), (row: Txn) => SetAside(rules, row);
      WithoutLast(rows);
      if SetAside(rules, t) {
        TracedDrop(gives, drops, before, Eligible(rules, before), at, t);
      } else {
        TracedResult(gives, drops, before, Eligible(rules, before), at, t, t);
        at := at + [|before|];
      }
    }
  }

  lemma MatchedIff(rows: seq<Txn>, cands: seq<Txn>, at: seq<nat>, i: nat)
    requires DistinctIds(rows) && i < |rows| && |at| == |cands|
    requires forall p :: 0 <= p < |at| ==> at[p] < |rows| && cands[p] == rows[at[p]]
    ensures MatchedId(cands, rows[i].id) <==> EndsPair(Pairs(cands), at, i)
  {
    PairsIff(cands, Pairs(cands));
    if MatchedId(cands, rows[i].id) {
      var p: nat :| p < |cands| && cands[p].id == rows[i].id && Matched(cands, p);
      assert at[p] == i;
    }
    if EndsPair(Pairs(cands), at, i) {
      var e :| e in Pairs(cands) && e.d < |at| && e.c < |at| && (at[e.d] == i || at[e.c] == i);
      var p := if at[e.d] == i then e.d else e.c;
      assert cands[p].id == rows[i].id && Matched(cands, p);
    }
  }

  lemma MarksPlainly(rules: seq<Rule>, rows: seq<Txn>, rows': seq<Txn>)
    requires DistinctIds(rows) && Marked(rules, rows, rows')
    ensures Marks(rules, rows, rows')
  {
    var cands := Eligible(rules, rows);
    var at := EligibleTraced(rules, rows);
    PairsIff(cands, Pairs(cands));
    forall i: nat | i < |rows|
      ensures rows'[i] == if EndsPair(Pairs(cands), at, i) then rows[i].(category := "Transfers") else rows[i]
    {
      MatchedIff(rows, cands, at, i);
    }
    assert TagsEnds(rows, Pairs(cands), at, rows');
  }

  /** `markTransfers` on the array the candidate query filled. */
  method MarkTransfers(rules: seq<Rule>, rows: seq<Txn>) returns (rows': seq<Txn>)
    requires DistinctIds(rows)
    ensures Marked(rules, rows, rows')
    ensures Marks(rules, rows, rows')
  {
    var cands := new Txn[|rows|](i requires 0 <= i < |rows| => rows[i]);
    assert cands[..] == rows;
    var n := FilterInPlace(rules, cands);
    var ids := Transfers.MatchTransfers(cands[..n]);
    ReportedIdsMark(rules, rows, ids);
    rows' := rows;
    if |ids| != 0 {
      rows' := SetCategory(rows, ids, TRANSFERS);
    }
    assert rows' == SetCategory(rows, ids, TRANSFERS);
    MarksPlainly(rules, rows, rows');
  }

  /** A row that a rule of another category applies to keeps its category. */
  lemma RuledRowsUntouched(rules: seq<Rule>, rows: seq<Txn>, rows': seq<Txn>, i: nat)
    requires DistinctIds(rows) && Marked(rules, rows, rows') && i < |rows| && Ruled(rules, rows[i])
    ensures rows'[i] == rows[i]
  {
    if MatchedId(Eligible(rules, rows), rows[i].id) {
      MatchedRowIsEligible(rules, rows, rows[i]);
    }
  }

  lemma {:induction false} EligibleAlike(rules: seq<Rule>, rows: seq<Txn>, rows': seq<Txn>)
    requires |rows| == |rows'|
    requires forall i :: 0 <= i < |rows| ==> rows'[i] == rows[i].(category := rows'[i].category)
    ensures var a, b := Eligible(rules, rows), Eligible(rules, rows');
            |a| == |b| && forall p :: 0 <= p < |a| ==> b[p] == a[p].(category := b[p].category)
    decreases |rows|
  {
    if rows != [] {
      var n := |rows| - 1;
      EligibleAlike(rules, rows[..n], rows'[..n]);
      assert Ruled(rules, rows[n]) <==> Ruled(rules, rows'[n]);
    }
  }

  /** Marking twice is marking once, for a fixed candidate order and rule list. */
  lemma MarkingTwiceInPlace(rules: seq<Rule>, rows: seq<Txn>, once: seq<Txn>, twice: seq<Txn>)
    requires Marked(rules, rows, once) && Marked(rules, once, twice)
    ensures twice == once
  {
    EligibleAlike(rules, rows, once);
    var a, b := Eligible(rules, rows), Eligible(rules, once);
    PairsIgnoreCategories(a, b);
    forall i | 0 <= i < |rows| ensures twice[i] == once[i] {
      assert forall p: nat :: p < |a| ==> a[p].id == b[p].id && (Matched(a, p) <==> Matched(b, p));
      assert MatchedId(a, rows[i].id) <==> MatchedId(b, rows[i].id);
    }
  }
}
