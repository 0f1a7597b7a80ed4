/** What transfer pairing promises: the unique stable matching of debits with credits, over positions
    in the transaction list, with no mention of buckets, sorting or used-sets. */
module Matching {

  /** A ledger row as the matcher sees it. Amounts are cents and dates are days. */
  datatype Txn = Txn(id: string, upload: string, date: int, cents: int, credit: bool,
                     category: string, merchant: string)

  const TRANSFERS := "Transfers"
  const WINDOW := 3

  function Gap(t: Txn, u: Txn): nat {
    if t.date <= u.date then u.date - t.date else t.date - u.date
  }

  /** A debit and a credit, by position. */
  datatype Edge = Edge(d: nat, c: nat)

  ghost predicate InRange(txns: seq<Txn>, e: Edge) {
    e.d < |txns| && e.c < |txns|
  }

  predicate Compatible(d: Txn, c: Txn) {
    d.upload != c.upload && Gap(d, c) <= WINDOW
  }

  ghost predicate Admissible(txns: seq<Txn>, e: Edge) {
    && InRange(txns, e)
    && !txns[e.d].credit && txns[e.c].credit
    && txns[e.d].cents == txns[e.c].cents
    && Compatible(txns[e.d], txns[e.c])
  }

  ghost function EdgeGap(txns: seq<Txn>, e: Edge): nat
    requires InRange(txns, e)
  {
    Gap(txns[e.d], txns[e.c])
  }

  /** The strict order the code picks in: closest dates first, then list order. */
  ghost predicate Before(txns: seq<Txn>, e: Edge, f: Edge) {
    && InRange(txns, e) && InRange(txns, f)
    && (|| EdgeGap(txns, e) < EdgeGap(txns, f)
        || (EdgeGap(txns, e) == EdgeGap(txns, f) && (e.d < f.d || (e.d == f.d && e.c < f.c))))
  }

  ghost predicate Share(e: Edge, f: Edge) {
    e.d == f.d || e.c == f.c
  }

  /** Some pair of `m` that comes before `e` uses its debit or its credit. */
  ghost predicate Blocked(txns: seq<Txn>, m: set<Edge>, e: Edge) {
    exists f :: f in m && Before(txns, f, e) && Share(f, e)
  }

  /** Exactly the pairs of `among` that no earlier chosen pair blocks are chosen. */
  ghost predicate StableAmong(txns: seq<Txn>, among: set<Edge>, m: set<Edge>) {
    forall e :: e in m <==> e in among && !Blocked(txns, m, e)
  }

  ghost function AllEdges(txns: seq<Txn>): (r: set<Edge>)
    ensures forall e :: e in r <==> Admissible(txns, e)
  {
    set d: nat, c: nat | d < |txns| && c < |txns| && Admissible(txns, Edge(d, c)) :: Edge(d, c)
  }

  ghost predicate Stable(txns: seq<Txn>, m: set<Edge>) {
    StableAmong(txns, AllEdges(txns), m)
  }

  /** No transaction is in two pairs. */
  ghost predicate Disjoint(m: set<Edge>) {
    forall e, f :: e in m && f in m && Share(e, f) ==> e == f
  }

  // ---------- Stability determines the matching ----------

  lemma {:induction false} StableAgree(txns: seq<Txn>, m: set<Edge>, n: set<Edge>, e: Edge)
    requires Stable(txns, m) && Stable(txns, n) && Admissible(txns, e)
    ensures e in m <==> e in n
    decreases EdgeGap(txns, e), e.d, e.c
  {
    forall f | Admissible(txns, f) && Before(txns, f, e) ensures f in m <==> f in n {
      StableAgree(txns, m, n, f);
    }
  }

  /** There is at most one stable matching. */
  lemma StableIsUnique(txns: seq<Txn>, m: set<Edge>, n: set<Edge>)
    requires Stable(txns, m) && Stable(txns, n)
    ensures m == n
  {
    forall e ensures e in m <==> e in n {
      if Admissible(txns, e) {
        StableAgree(txns, m, n, e);
      }
    }
  }

  lemma StableIsDisjoint(txns: seq<Txn>, m: set<Edge>)
    requires Stable(txns, m)
    ensures Disjoint(m)
  {
    forall e, f | e in m && f in m && Share(e, f) ensures e == f {
      assert Admissible(txns, e) && Admissible(txns, f);
      assert e == f || Before(txns, e, f) || Before(txns, f, e);
    }
  }

  // ---------- One global greedy over all pairs ----------

  ghost predicate Least(txns: seq<Txn>, es: set<Edge>, e: Edge) {
    e in es && forall f :: f in es && f != e ==> Before(txns, e, f)
  }

  lemma {:induction false} LeastExists(txns: seq<Txn>, es: set<Edge>)
    requires es != {} && forall e :: e in es ==> InRange(txns, e)
    ensures exists e :: Least(txns, es, e)
    decreases es
  {
    var x :| x in es;
    if es == {x} {
      assert Least(txns, es, x);
    } else {
      var rest := es - {x};
      assert es == rest + {x};
      LeastExists(txns, rest);
      var y :| Least(txns, rest, y);
      if Before(txns, x, y) {
        forall f | f in es && f != x ensures Before(txns, x, f) {
          assert f in rest;
        }
        assert Least(txns, es, x);
      } else {
        assert Least(txns, es, y);
      }
    }
  }

  /** The pairs of `es` that do not touch `x`. */
  ghost function Untouched(es: set<Edge>, x: Edge): set<Edge> {
    set e | e in es && !Share(x, e)
  }

  /** Take the first remaining pair, drop everything that touches it, repeat. */
  ghost function Greedy(txns: seq<Txn>, es: set<Edge>): set<Edge>
    requires forall e :: e in es ==> InRange(txns, e)
    decreases |es|
  {
    if es == {} then {}
    else
      LeastExists(txns, es);
      var x :| Least(txns, es, x);
      SubsetSmaller(Untouched(es, x), es, x);
      {x} + Greedy(txns, Untouched(es, x))
  }

  lemma SubsetSmaller<T>(a: set<T>, b: set<T>, x: T)
    requires x in b && a <= b - {x}
    ensures |a| < |b|
  {
    CardinalityMonotone(a, b - {x});
  }

  lemma {:induction false} CardinalityMonotone<T>(a: set<T>, b: set<T>)
    requires a <= b
    ensures |a| <= |b|
    decreases a
  {
    if a != {} {
      var x :| x in a;
      CardinalityMonotone(a - {x}, b - {x});
    }
  }

  lemma {:induction false} GreedyIsStable(txns: seq<Txn>, es: set<Edge>)
    requires forall e :: e in es ==> InRange(txns, e)
    ensures StableAmong(txns, es, Greedy(txns, es))
    decreases |es|
  {
    var m := Greedy(txns, es);
    if es == {} {
    } else {
      LeastExists(txns, es);
      var x :| Least(txns, es, x) && m == {x} + Greedy(txns, Untouched(es, x));
      var rest := Untouched(es, x);
      SubsetSmaller(rest, es, x);
      GreedyIsStable(txns, rest);
      var m' := Greedy(txns, rest);
      forall e ensures e in m <==> e in es && !Blocked(txns, m, e) {
        StableStep(txns, es, x, m', e);
      }
    }
  }

  lemma StableStep(txns: seq<Txn>, es: set<Edge>, x: Edge, m': set<Edge>, e: Edge)
    requires Least(txns, es, x) && (forall f :: f in es ==> InRange(txns, f))
    requires StableAmong(txns, Untouched(es, x), m')
    ensures e in {x} + m' <==> e in es && !Blocked(txns, {x} + m', e)
  {
    var m := {x} + m';
    if e in es {
      if e == x {
      } else if Share(x, e) {
        assert Before(txns, x, e);
        assert Blocked(txns, m, e);
      } else {
        assert Blocked(txns, m, e) <==> Blocked(txns, m', e);
      }
    }
  }

  /** The matching: what the global greedy over all admissible pairs returns. */
  ghost function Pairs(txns: seq<Txn>): (m: set<Edge>)
    ensures Stable(txns, m)
  {
    GreedyIsStable(txns, AllEdges(txns));
    Greedy(txns, AllEdges(txns))
  }

  /** The matching does not look at categories. */
  lemma PairsIgnoreCategories(txns: seq<Txn>, txns': seq<Txn>)
    requires |txns| == |txns'|
    requires forall i :: 0 <= i < |txns| ==> txns'[i] == txns[i].(category := txns'[i].category)
    ensures Pairs(txns) == Pairs(txns')
  {
    var m := Pairs(txns);
    assert forall e :: Admissible(txns, e) <==> Admissible(txns', e);
    assert forall e, f :: Before(txns, e, f) <==> Before(txns', e, f);
    forall e ensures Blocked(txns, m, e) <==> Blocked(txns', m, e) {}
    assert Stable(txns', m);
    StableIsUnique(txns', m, Pairs(txns'));
  }

  // ---------- In plain terms ----------

  /** A debit and a credit of equal cents from different statements, at most three days apart. */
  ghost predicate TransferPair(txns: seq<Txn>, e: Edge) {
    && e.d < |txns| && e.c < |txns|
    && txns[e.d].credit == false && txns[e.c].credit == true
    && txns[e.d].cents == txns[e.c].cents
    && txns[e.d].upload != txns[e.c].upload
    && -3 <= txns[e.d].date - txns[e.c].date <= 3
  }

  /** `x` is nearer to zero than `y`. */
  predicate Nearer(x: int, y: int) {
    if y >= 0 then -y < x < y else y < x < -y
  }

  /** Fewer days between debit and credit, whichever is dated first; else the earlier debit, else the
      earlier credit in the list. */
  ghost predicate TakenFirst(txns: seq<Txn>, e: Edge, f: Edge)
    requires TransferPair(txns, e) && TransferPair(txns, f)
  {
    var x, y := txns[e.d].date - txns[e.c].date, txns[f.d].date - txns[f.c].date;
    Nearer(x, y) || ((x == y || x == -y) && (e.d < f.d || (e.d == f.d && e.c < f.c)))
  }

  lemma AdmissibleIff(txns: seq<Txn>, e: Edge)
    ensures Admissible(txns, e) <==> TransferPair(txns, e)
  {}

  lemma BeforeIff(txns: seq<Txn>, e: Edge, f: Edge)
    requires TransferPair(txns, e) && TransferPair(txns, f)
    ensures Before(txns, e, f) <==> TakenFirst(txns, e, f)
  {}

  /** Transfer pairs without a common end, and every other transfer pair loses one of its ends to a pair
      that is taken first. */
  ghost predicate IsPairing(txns: seq<Txn>, m: set<Edge>) {
    && (forall e :: e in m ==> TransferPair(txns, e))
    && (forall e, f :: e in m && f in m && e != f ==> e.d != f.d && e.c != f.c)
    && forall e :: TransferPair(txns, e) && e !in m ==>
         exists f :: f in m && (f.d == e.d || f.c == e.c) && TakenFirst(txns, f, e)
  }

  /** The matching is the one pairing that meets this description. */
  lemma PairsIff(txns: seq<Txn>, m: set<Edge>)
    ensures IsPairing(txns, m) <==> m == Pairs(txns)
  {
    if m == Pairs(txns) {
      PairsArePairing(txns);
    }
    if IsPairing(txns, m) {
      PairingIsStable(txns, m);
      StableIsUnique(txns, m, Pairs(txns));
    }
  }

  lemma PairsArePairing(txns: seq<Txn>)
    ensures IsPairing(txns, Pairs(txns))
  {
    var m := Pairs(txns);
    StableIsDisjoint(txns, m);
    forall e | e in m ensures TransferPair(txns, e) {
      AdmissibleIff(txns, e);
    }
    forall e | TransferPair(txns, e) && e !in m
      ensures exists f :: f in m && (f.d == e.d || f.c == e.c) && TakenFirst(txns, f, e)
    {
      AdmissibleIff(txns, e);
      var f :| f in m && Before(txns, f, e) && Share(f, e);
      AdmissibleIff(txns, f);
      BeforeIff(txns, f, e);
    }
  }

  lemma PairingIsStable(txns: seq<Txn>, m: set<Edge>)
    requires IsPairing(txns, m)
    ensures Stable(txns, m)
  {
    forall e ensures e in m <==> Admissible(txns, e) && !Blocked(txns, m, e) {
      AdmissibleIff(txns, e);
      assert e in m ==> forall f :: f in m && Share(f, e) ==> f == e;
      if e !in m && TransferPair(txns, e) {
        var f :| f in m && (f.d == e.d || f.c == e.c) && TakenFirst(txns, f, e);
        BeforeIff(txns, f, e);
        assert Blocked(txns, m, e);
      }
    }
  }

  // ---------- How good is it? ----------

  function End(e: Edge, credit: bool): nat {
    if credit then e.c else e.d
  }

  /** The debits, or the credits, that a set of pairs uses. */
  ghost function Ends(m: set<Edge>, credit: bool): set<nat> {
    set e | e in m :: End(e, credit)
  }

  lemma EndsSplit(m: set<Edge>, e: Edge, credit: bool)
    requires e in m
    ensures Ends(m, credit) == Ends(m - {e}, credit) + {End(e, credit)}
  {}

  lemma {:induction false} EndsNoMore(m: set<Edge>, credit: bool)
    ensures |Ends(m, credit)| <= |m|
    decreases m
  {
    if m != {} {
      var e :| e in m;
      EndsNoMore(m - {e}, credit);
      EndsSplit(m, e, credit);
    }
  }

  /** Disjoint pairs have as many debits, and as many credits, as there are pairs. */
  lemma {:induction false} EndsOfDisjoint(m: set<Edge>, credit: bool)
    requires Disjoint(m)
    ensures |Ends(m, credit)| == |m|
    decreases m
  {
    if m != {} {
      var e :| e in m;
      EndsOfDisjoint(m - {e}, credit);
      EndsSplit(m, e, credit);
      if End(e, credit) in Ends(m - {e}, credit) {
        var f :| f in m - {e} && End(f, credit) == End(e, credit);
        assert Share(e, f);
      }
    }
  }

  /** The matching has at least half as many pairs as any disjoint set of admissible pairs. */
  lemma AtLeastHalfOfAny(txns: seq<Txn>, n: set<Edge>)
    requires Disjoint(n) && forall e :: e in n ==> Admissible(txns, e)
    ensures |n| <= 2 * |Pairs(txns)|
  {
    var m := Pairs(txns);
    var byDebit := set e | e in n && e.d in Ends(m, false);
    var byCredit := n - byDebit;
    forall e | e in byCredit ensures e.c in Ends(m, true) {
      var f := if e in m then e else var f :| f in m && Before(txns, f, e) && Share(f, e); f;
      assert End(f, false) in Ends(m, false) && End(f, true) in Ends(m, true);
    }
    EndsOfDisjoint(byDebit, false);
    EndsOfDisjoint(byCredit, true);
    CardinalityMonotone(Ends(byDebit, false), Ends(m, false));
    CardinalityMonotone(Ends(byCredit, true), Ends(m, true));
    EndsNoMore(m, false);
    EndsNoMore(m, true);
  }

  lemma OnlyThreePairs(txns: seq<Txn>, e: Edge)
    requires txns == [Txn("a", "u", 0, 5, false, "", ""), Txn("b", "u", 3, 5, false, "", ""),
                      Txn("c", "v", 0, 5, true, "", ""), Txn("d", "v", -3, 5, true, "", "")]
    ensures Admissible(txns, e) <==> e in {Edge(0, 2), Edge(0, 3), Edge(1, 2)}
  {
    if InRange(txns, e) && !txns[e.d].credit && txns[e.c].credit {
      assert e.d == 0 || e.d == 1;
      assert e.c == 2 || e.c == 3;
    }
  }

  /** The factor two is attained: the closest pair can cost two others. */
  lemma HalfIsAttained() returns (txns: seq<Txn>, n: set<Edge>)
    ensures Disjoint(n) && (forall e :: e in n ==> Admissible(txns, e))
    ensures |n| == 2 && |Pairs(txns)| == 1
  {
    txns := [Txn("a", "u", 0, 5, false, "", ""), Txn("b", "u", 3, 5, false, "", ""),
             Txn("c", "v", 0, 5, true, "", ""), Txn("d", "v", -3, 5, true, "", "")];
    n := {Edge(0, 3), Edge(1, 2)};
    forall e ensures Admissible(txns, e) <==> e in {Edge(0, 2), Edge(0, 3), Edge(1, 2)} {
      OnlyThreePairs(txns, e);
    }
    var m := {Edge(0, 2)};
    assert Before(txns, Edge(0, 2), Edge(0, 3)) && Before(txns, Edge(0, 2), Edge(1, 2));
    assert Blocked(txns, m, Edge(0, 3)) && Blocked(txns, m, Edge(1, 2));
    assert !Blocked(txns, m, Edge(0, 2));
    StableIsUnique(txns, m, Pairs(txns));
  }
}
