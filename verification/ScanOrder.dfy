/** When the order in which the unordered candidate query returns the rows matters to the pairing, and
    when marking is idempotent whatever the order of the next scan. */
module ScanOrder {
  import opened Like
  import opened Matching
  import opened Marking

  /** The pairing as the user sees it: the ids of each debit and its credit. */
  ghost function IdPairs(txns: seq<Txn>): set<(string, string)> {
    set e | e in Pairs(txns) && InRange(txns, e) :: (txns[e.d].id, txns[e.c].id)
  }

  /** Every scan of the same rows yields the same pairing. */
  ghost predicate ScanIndependent(txns: seq<Txn>) {
    forall scan :: multiset(scan) == multiset(txns) ==> IdPairs(scan) == IdPairs(txns)
  }

  /** A strictly closer chosen pair uses the debit or the credit of `e`. */
  ghost predicate Outdone(txns: seq<Txn>, e: Edge)
    requires InRange(txns, e)
  {
    exists f :: f in Pairs(txns) && InRange(txns, f) && Share(f, e) && EdgeGap(txns, f) < EdgeGap(txns, e)
  }

  /** Every admissible pair that is not chosen loses to a strictly closer one, never to list order. */
  ghost predicate StrictlyDecided(txns: seq<Txn>) {
    forall e :: Admissible(txns, e) && e !in Pairs(txns) ==> Outdone(txns, e)
  }

  /** Two admissible pairs that share an end are never equally close. Checkable before the call. */
  ghost predicate NoTies(txns: seq<Txn>) {
    forall e, f :: Admissible(txns, e) && Admissible(txns, f) && e != f && Share(e, f) ==>
      EdgeGap(txns, e) != EdgeGap(txns, f)
  }

  // ---------- Permutations ----------

  lemma SameElements<T>(a: seq<T>, b: seq<T>)
    requires multiset(a) == multiset(b)
    ensures forall x :: x in a <==> x in b
  {
    forall x ensures x in a <==> x in b {
      assert x in a <==> x in multiset(a);
      assert x in b <==> x in multiset(b);
    }
  }

  lemma CountTwice<T>(s: seq<T>, i: nat, j: nat)
    requires i < j < |s| && s[i] == s[j]
    ensures multiset(s)[s[i]] >= 2
  {
    assert s == s[..j] + [s[j]] + s[j + 1..];
    assert s[i] in s[..j];
    assert s[i] in multiset(s[..j]);
  }

  lemma {:induction false} CountOnce<T>(s: seq<T>, x: T)
    requires forall i, j :: 0 <= i < j < |s| ==> s[i] != s[j]
    ensures multiset(s)[x] <= 1
    decreases |s|
  {
    if s != [] {
      var n := |s| - 1;
      CountOnce(s[..n], x);
      assert s == s[..n] + [s[n]];
      if s[n] == x {
        assert x !in s[..n];
        assert x !in multiset(s[..n]);
      }
    }
  }

  lemma DistinctByCount(a: seq<Txn>, b: seq<Txn>)
    requires multiset(a) == multiset(b) && DistinctIds(a)
    ensures DistinctIds(b)
  {
    SameElements(a, b);
    forall i, j | 0 <= i < j < |b| ensures b[i].id != b[j].id {
      if b[i].id == b[j].id {
        assert b[i] in a && b[j] in a;
        CountTwice(b, i, j);
        CountOnce(a, b[i]);
      }
    }
  }

  /** The two edges join the same rows of two scans. */
  ghost predicate SameRows(txns: seq<Txn>, e: Edge, scan: seq<Txn>, e': Edge) {
    InRange(txns, e) && InRange(scan, e') && scan[e'.d] == txns[e.d] && scan[e'.c] == txns[e.c]
  }

  lemma Found(txns: seq<Txn>, e: Edge, scan: seq<Txn>) returns (e': Edge)
    requires multiset(scan) == multiset(txns) && InRange(txns, e)
    ensures SameRows(txns, e, scan, e')
    ensures Admissible(txns, e) <==> Admissible(scan, e')
  {
    SameElements(txns, scan);
    assert txns[e.d] in scan && txns[e.c] in scan;
    var d :| 0 <= d < |scan| && scan[d] == txns[e.d];
    var c :| 0 <= c < |scan| && scan[c] == txns[e.c];
    e' := Edge(d, c);
  }

  lemma SameShare(txns: seq<Txn>, e: Edge, f: Edge, scan: seq<Txn>, e': Edge, f': Edge)
    requires DistinctIds(txns) && DistinctIds(scan) && SameRows(txns, e, scan, e') && SameRows(txns, f, scan, f')
    ensures Share(e, f) <==> Share(e', f')
  {}

  lemma ChosenById(txns: seq<Txn>, e: Edge)
    requires DistinctIds(txns) && InRange(txns, e)
    ensures (txns[e.d].id, txns[e.c].id) in IdPairs(txns) <==> e in Pairs(txns)
  {
    if (txns[e.d].id, txns[e.c].id) in IdPairs(txns) {
      var f :| f in Pairs(txns) && InRange(txns, f) && (txns[f.d].id, txns[f.c].id) == (txns[e.d].id, txns[e.c].id);
      assert f == e;
    }
  }

  // ---------- Strictly decided pairings do not depend on the scan ----------

  /** The pairing of `txns`, at the positions of another scan. */
  ghost function Carried(txns: seq<Txn>, scan: seq<Txn>): set<Edge> {
    set e | e in AllEdges(scan) && (scan[e.d].id, scan[e.c].id) in IdPairs(txns)
  }

  lemma CarriedIff(txns: seq<Txn>, e: Edge, scan: seq<Txn>, e': Edge)
    requires DistinctIds(txns) && SameRows(txns, e, scan, e')
    ensures e' in Carried(txns, scan) <==> e in Pairs(txns)
  {
    ChosenById(txns, e);
    if e in Pairs(txns) {
      assert Admissible(txns, e);
    }
  }

  /** A chosen pair is still unblocked in the other scan. */
  lemma CarriedUnblocked(txns: seq<Txn>, scan: seq<Txn>, e': Edge, f': Edge)
    requires DistinctIds(txns) && DistinctIds(scan) && multiset(scan) == multiset(txns)
    requires e' in Carried(txns, scan) && f' in Carried(txns, scan) && Share(f', e')
    ensures !Before(scan, f', e')
  {
    var e := Found(scan, e', txns);
    var f := Found(scan, f', txns);
    CarriedIff(txns, e, scan, e');
    CarriedIff(txns, f, scan, f');
    SameShare(txns, f, e, scan, f', e');
    StableIsDisjoint(txns, Pairs(txns));
    assert e == f;
  }

  /** A pair that is not chosen is blocked in the other scan by the strictly closer one. */
  lemma OutdoneBlocked(txns: seq<Txn>, scan: seq<Txn>, e': Edge)
    requires DistinctIds(txns) && DistinctIds(scan) && multiset(scan) == multiset(txns) && StrictlyDecided(txns)
    requires Admissible(scan, e') && e' !in Carried(txns, scan)
    ensures Blocked(scan, Carried(txns, scan), e')
  {
    var e := Found(scan, e', txns);
    CarriedIff(txns, e, scan, e');
    assert Outdone(txns, e);
    var f :| f in Pairs(txns) && InRange(txns, f) && Share(f, e) && EdgeGap(txns, f) < EdgeGap(txns, e);
    var f' := Found(txns, f, scan);
    CarriedIff(txns, f, scan, f');
    SameShare(txns, f, e, scan, f', e');
  }

  lemma DecidedIsIndependent(txns: seq<Txn>, scan: seq<Txn>)
    requires DistinctIds(txns) && multiset(scan) == multiset(txns) && StrictlyDecided(txns)
    ensures IdPairs(scan) == IdPairs(txns)
  {
    DistinctByCount(txns, scan);
    var m := Carried(txns, scan);
    forall e' ensures e' in m <==> e' in AllEdges(scan) && !Blocked(scan, m, e') {
      if e' in m {
        forall f' | f' in m && Share(f', e') ensures !Before(scan, f', e') {
          CarriedUnblocked(txns, scan, e', f');
        }
      } else if e' in AllEdges(scan) {
        OutdoneBlocked(txns, scan, e');
      }
    }
    StableIsUnique(scan, m, Pairs(scan));
    CarriedPairs(txns, scan);
  }

  lemma CarriedPairs(txns: seq<Txn>, scan: seq<Txn>)
    requires DistinctIds(txns) && DistinctIds(scan) && multiset(scan) == multiset(txns)
    requires Pairs(scan) == Carried(txns, scan)
    ensures IdPairs(scan) == IdPairs(txns)
  {
    forall p | p in IdPairs(txns) ensures p in IdPairs(scan) {
      var e :| e in Pairs(txns) && InRange(txns, e) && p == (txns[e.d].id, txns[e.c].id);
      var e' := Found(txns, e, scan);
      CarriedIff(txns, e, scan, e');
    }
  }

  // ---------- Otherwise some scan changes the pairing ----------

  /** The row at position `i` moved to the front. */
  function Front(txns: seq<Txn>, i: nat): (r: seq<Txn>)
    requires i < |txns|
    ensures multiset(r) == multiset(txns) && r[0] == txns[i]
  {
    assert txns == txns[..i] + [txns[i]] + txns[i + 1..];
    [txns[i]] + txns[..i] + txns[i + 1..]
  }

  lemma MoveFirst(txns: seq<Txn>, t: Txn) returns (scan: seq<Txn>)
    requires t in txns
    ensures multiset(scan) == multiset(txns) && scan != [] && scan[0] == t
    ensures txns[0] != t ==> |scan| >= 2 && scan[1] == txns[0]
  {
    var i :| 0 <= i < |txns| && txns[i] == t && (txns[0] == t ==> i == 0);
    scan := Front(txns, i);
  }

  /** A scan that returns the two rows of a pair first. */
  lemma PairFirst(txns: seq<Txn>, e: Edge) returns (scan: seq<Txn>)
    requires Admissible(txns, e)
    ensures multiset(scan) == multiset(txns)
    ensures |scan| >= 2 && scan[0] == txns[e.d] && scan[1] == txns[e.c]
  {
    var one := MoveFirst(txns, txns[e.c]);
    SameElements(txns, one);
    scan := MoveFirst(one, txns[e.d]);
  }

  /** Scanned first, a pair can only lose to a strictly closer one. */
  lemma FirstLosesStrictly(scan: seq<Txn>)
    requires Admissible(scan, Edge(0, 1)) && Edge(0, 1) !in Pairs(scan)
    ensures Outdone(scan, Edge(0, 1))
  {
    var e := Edge(0, 1);
    assert Blocked(scan, Pairs(scan), e);
    var f :| f in Pairs(scan) && Before(scan, f, e) && Share(f, e);
    assert Admissible(scan, f);
  }

  lemma IndependentIsDecided(txns: seq<Txn>, e: Edge)
    requires DistinctIds(txns) && ScanIndependent(txns) && Admissible(txns, e) && e !in Pairs(txns)
    ensures Outdone(txns, e)
  {
    var scan := PairFirst(txns, e);
    var e' := Edge(0, 1);
    DistinctByCount(txns, scan);
    assert IdPairs(scan) == IdPairs(txns);
    ChosenById(txns, e);
    ChosenById(scan, e');
    FirstLosesStrictly(scan);
    var f' :| f' in Pairs(scan) && InRange(scan, f') && Share(f', e') && EdgeGap(scan, f') < EdgeGap(scan, e');
    var f := Found(scan, f', txns);
    ChosenById(scan, f');
    ChosenById(txns, f);
    SameShare(scan, f', e', txns, f, e);
  }

  /** The pairing is the same for every scan exactly when every admissible pair that is not chosen shares
      an end with a strictly closer chosen one. */
  lemma ScanIndependentIff(txns: seq<Txn>)
    requires DistinctIds(txns)
    ensures ScanIndependent(txns) <==> StrictlyDecided(txns)
  {
    if StrictlyDecided(txns) {
      forall scan | multiset(scan) == multiset(txns) ensures IdPairs(scan) == IdPairs(txns) {
        DecidedIsIndependent(txns, scan);
      }
    }
    if ScanIndependent(txns) {
      forall e | Admissible(txns, e) && e !in Pairs(txns) ensures Outdone(txns, e) {
        IndependentIsDecided(txns, e);
      }
    }
  }

  /** Without ties nothing is decided by list order. */
  lemma NoTiesIsDecided(txns: seq<Txn>)
    requires NoTies(txns)
    ensures StrictlyDecided(txns)
  {
    forall e | Admissible(txns, e) && e !in Pairs(txns) ensures Outdone(txns, e) {
      assert Blocked(txns, Pairs(txns), e);
      var f :| f in Pairs(txns) && Before(txns, f, e) && Share(f, e);
      assert Admissible(txns, f);
    }
  }

  /** An id is matched when it occurs in the pairing. */
  lemma MatchedIdInPairs(txns: seq<Txn>, id: string)
    ensures MatchedId(txns, id) <==> exists p :: p in IdPairs(txns) && (p.0 == id || p.1 == id)
  {
    if MatchedId(txns, id) {
      var p: nat :| p < |txns| && txns[p].id == id && Matched(txns, p);
      var e :| e in Pairs(txns) && (p == e.d || p == e.c);
      assert Admissible(txns, e);
      assert (txns[e.d].id, txns[e.c].id) in IdPairs(txns);
    }
    if p :| p in IdPairs(txns) && (p.0 == id || p.1 == id) {
      var e :| e in Pairs(txns) && InRange(txns, e) && p == (txns[e.d].id, txns[e.c].id);
      assert Matched(txns, e.d) && Matched(txns, e.c);
    }
  }

  /** Without ties every scan of the rows gives the same pairing and matches the same ids. */
  lemma NoTiesAnyScan(txns: seq<Txn>, scan: seq<Txn>, id: string)
    requires DistinctIds(txns) && NoTies(txns) && multiset(scan) == multiset(txns)
    ensures IdPairs(scan) == IdPairs(txns)
    ensures MatchedId(scan, id) <==> MatchedId(txns, id)
  {
    NoTiesIsDecided(txns);
    DecidedIsIndependent(txns, scan);
    MatchedIdInPairs(txns, id);
    MatchedIdInPairs(scan, id);
  }

  // ---------- Marking again after another scan ----------

  lemma {:induction false} EligibleCount(rules: seq<Rule>, rows: seq<Txn>, t: Txn)
    ensures multiset(Eligible(rules, rows))[t] == if Ruled(rules, t) then 0 else multiset(rows)[t]
    decreases |rows|
  {
    if rows != [] {
      var n := |rows| - 1;
      EligibleCount(rules, rows[..n], t);
      assert rows == rows[..n] + [rows[n]];
    }
  }

  lemma EligiblePermutes(rules: seq<Rule>, rows: seq<Txn>, scan: seq<Txn>)
    requires multiset(scan) == multiset(rows)
    ensures multiset(Eligible(rules, scan)) == multiset(Eligible(rules, rows))
  {
    forall t ensures multiset(Eligible(rules, scan))[t] == multiset(Eligible(rules, rows))[t] {
      EligibleCount(rules, rows, t);
      EligibleCount(rules, scan, t);
    }
  }

  /** The lists differ in categories alone. */
  ghost predicate Alike(a: seq<Txn>, b: seq<Txn>) {
    |a| == |b| && forall i :: 0 <= i < |a| ==> b[i] == a[i].(category := b[i].category)
  }

  lemma AlikeEdge(a: seq<Txn>, b: seq<Txn>, e: Edge)
    requires Alike(a, b) && InRange(a, e)
    ensures InRange(b, e) && EdgeGap(b, e) == EdgeGap(a, e) && (Admissible(a, e) <==> Admissible(b, e))
    ensures (a[e.d].id, a[e.c].id) == (b[e.d].id, b[e.c].id)
  {}

  lemma OutdoneIgnoresCategories(a: seq<Txn>, b: seq<Txn>, e: Edge)
    requires Alike(a, b) && Pairs(a) == Pairs(b) && InRange(a, e) && Outdone(a, e)
    ensures InRange(b, e) && Outdone(b, e)
  {
    var f :| f in Pairs(a) && InRange(a, f) && Share(f, e) && EdgeGap(a, f) < EdgeGap(a, e);
    AlikeEdge(a, b, e);
    AlikeEdge(a, b, f);
  }

  lemma IdPairsIgnoreCategories(a: seq<Txn>, b: seq<Txn>)
    requires Alike(a, b) && Pairs(a) == Pairs(b)
    ensures IdPairs(b) == IdPairs(a)
  {
    forall e | InRange(a, e) ensures (a[e.d].id, a[e.c].id) == (b[e.d].id, b[e.c].id) {
      AlikeEdge(a, b, e);
    }
  }

  /** Neither the pairing nor what decides it looks at categories. */
  lemma DecidedIgnoresCategories(a: seq<Txn>, b: seq<Txn>)
    requires Alike(a, b) && StrictlyDecided(a)
    ensures StrictlyDecided(b) && IdPairs(b) == IdPairs(a)
  {
    PairsIgnoreCategories(a, b);
    IdPairsIgnoreCategories(a, b);
    forall e | Admissible(b, e) && e !in Pairs(b) ensures Outdone(b, e) {
      AlikeEdge(a, b, e);
      OutdoneIgnoresCategories(a, b, e);
    }
  }

  /** The ids matched in any later scan are those matched in the first. */
  lemma MatchedAgain(rules: seq<Rule>, rows: seq<Txn>, once: seq<Txn>, scan: seq<Txn>, id: string)
    requires DistinctIds(rows) && Marked(rules, rows, once) && multiset(scan) == multiset(once)
    requires StrictlyDecided(Eligible(rules, rows))
    ensures MatchedId(Eligible(rules, scan), id) <==> MatchedId(Eligible(rules, rows), id)
  {
    var a, b, c := Eligible(rules, rows), Eligible(rules, once), Eligible(rules, scan);
    EligibleAlike(rules, rows, once);
    DecidedIgnoresCategories(a, b);
    EligiblePermutes(rules, once, scan);
    EligibleDistinct(rules, once);
    DecidedIsIndependent(b, c);
    MatchedIdInPairs(a, id);
    MatchedIdInPairs(c, id);
  }

  lemma MarkedAgainAt(rules: seq<Rule>, rows: seq<Txn>, once: seq<Txn>, scan: seq<Txn>, again: seq<Txn>, i: nat)
    requires DistinctIds(rows) && StrictlyDecided(Eligible(rules, rows)) && i < |scan|
    requires Marked(rules, rows, once) && multiset(scan) == multiset(once) && Marked(rules, scan, again)
    ensures again[i] == scan[i]
  {
    SameElements(once, scan);
    assert scan[i] in once;
    var j :| 0 <= j < |once| && once[j] == scan[i];
    MatchedAgain(rules, rows, once, scan, scan[i].id);
  }

  /** Marking again changes nothing when the rows are scanned in the same order, and in whatever order they
      are scanned when list order decides no pair. */
  lemma MarkingIsIdempotent(rules: seq<Rule>, rows: seq<Txn>, once: seq<Txn>, scan: seq<Txn>, again: seq<Txn>)
    requires DistinctIds(rows) && Marked(rules, rows, once) && multiset(scan) == multiset(once) && Marked(rules, scan, again)
    requires scan == once || StrictlyDecided(Eligible(rules, rows))
    ensures again == scan
  {
    if scan == once {
      MarkingTwiceInPlace(rules, rows, once, again);
    } else {
      forall i: nat | i < |scan| ensures again[i] == scan[i] {
        MarkedAgainAt(rules, rows, once, scan, again, i);
      }
    }
  }
}
