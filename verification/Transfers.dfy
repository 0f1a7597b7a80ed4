/** `MatchTransfers` as the code runs it: bucket by cents, split into debits and credits, enumerate
    the viable pairs of a bucket, sort them, and pick greedily with used-sets, one bucket after
    another in any order. Proved to return exactly the untagged ends of `Matching.Pairs`. */
module Transfers {
  import opened Choice
  import opened Matching

  // ---------- Subsequences by position ----------

  /** `sub` is what `sel` selects from the first `n` transactions, in order; `pos` says where. */
  ghost predicate Selects(txns: seq<Txn>, n: nat, sel: Txn -> bool, sub: seq<Txn>, pos: seq<nat>)
    requires n <= |txns|
  {
    && |sub| == |pos|
    && (forall i :: 0 <= i < |pos| ==> pos[i] < n && sub[i] == txns[pos[i]] && sel(txns[pos[i]]))
    && (forall i, j :: 0 <= i < j < |pos| ==> pos[i] < pos[j])
    && (forall p :: 0 <= p < n && sel(txns[p]) ==> p in pos)
  }

  lemma SelectsStep(txns: seq<Txn>, n: nat, sel: Txn -> bool, sub: seq<Txn>, pos: seq<nat>)
    requires n < |txns| && Selects(txns, n, sel, sub, pos)
    ensures if sel(txns[n]) then Selects(txns, n + 1, sel, sub + [txns[n]], pos + [n])
            else Selects(txns, n + 1, sel, sub, pos)
  {}

  lemma SelectsMembers(txns: seq<Txn>, sel: Txn -> bool, sub: seq<Txn>, pos: seq<nat>)
    requires Selects(txns, |txns|, sel, sub, pos)
    ensures forall t :: t in sub <==> t in txns && sel(t)
  {
    forall t | t in txns && sel(t) ensures t in sub {
      var p :| 0 <= p < |txns| && txns[p] == t;
      var i :| 0 <= i < |pos| && pos[i] == p;
      assert sub[i] == t;
    }
  }

  /** Selecting from a selection. */
  lemma SelectsWithin(txns: seq<Txn>, selA: Txn -> bool, group: seq<Txn>, pos: seq<nat>,
                      selB: Txn -> bool, sub: seq<Txn>, loc: seq<nat>)
      returns (pos': seq<nat>)
    requires Selects(txns, |txns|, selA, group, pos)
    requires Selects(group, |group|, selB, sub, loc)
    ensures Selects(txns, |txns|, (t: Txn) => selA(t) && selB(t), sub, pos')
  {
    pos' := seq(|loc|, i requires 0 <= i < |loc| => pos[loc[i]]);
    forall p | 0 <= p < |txns| && selA(txns[p]) && selB(txns[p]) ensures p in pos' {
      var g :| 0 <= g < |pos| && pos[g] == p;
      assert selB(group[g]);
      var i :| 0 <= i < |loc| && loc[i] == g;
      assert pos'[i] == p;
    }
  }

  function Of(cents: int): Txn -> bool {
    (t: Txn) => t.cents == cents
  }

  function Side(credit: bool): Txn -> bool {
    (t: Txn) => t.credit == credit
  }

  ghost predicate SideOf(txns: seq<Txn>, cents: int, credit: bool, sub: seq<Txn>, pos: seq<nat>) {
    Selects(txns, |txns|, (t: Txn) => t.cents == cents && t.credit == credit, sub, pos)
  }

  // ---------- Bucketing ----------

  ghost predicate Bucketed(txns: seq<Txn>, n: nat, byAmount: map<int, seq<Txn>>, at: map<int, seq<nat>>)
    requires n <= |txns|
  {
    && byAmount.Keys == at.Keys
    && (forall k :: k in at ==> Selects(txns, n, Of(k), byAmount[k], at[k]))
    && (forall p :: 0 <= p < n ==> txns[p].cents in at)
  }

  /** A key met for the first time selects nothing from what came before. */
  lemma NewKeySelects(txns: seq<Txn>, n: nat, byAmount: map<int, seq<Txn>>, at: map<int, seq<nat>>, k: int)
    requires n <= |txns| && Bucketed(txns, n, byAmount, at) && k !in at
    ensures Selects(txns, n, Of(k), [], [])
  {}

  /** The group that the next transaction joins. */
  lemma GroupStep(txns: seq<Txn>, n: nat, byAmount: map<int, seq<Txn>>, at: map<int, seq<nat>>)
    requires n < |txns| && Bucketed(txns, n, byAmount, at)
    ensures var k := txns[n].cents;
            Selects(txns, n + 1, Of(k), (if k in byAmount then byAmount[k] else []) + [txns[n]],
                    (if k in at then at[k] else []) + [n])
  {
    var k := txns[n].cents;
    if k in at {
      SelectsStep(txns, n, Of(k), byAmount[k], at[k]);
    } else {
      NewKeySelects(txns, n, byAmount, at, k);
      SelectsStep(txns, n, Of(k), [], []);
    }
  }

  lemma OtherGroup(txns: seq<Txn>, n: nat, byAmount: map<int, seq<Txn>>, at: map<int, seq<nat>>, j: int)
    requires n < |txns| && Bucketed(txns, n, byAmount, at) && j in at && j != txns[n].cents
    ensures Selects(txns, n + 1, Of(j), byAmount[j], at[j])
  {
    SelectsStep(txns, n, Of(j), byAmount[j], at[j]);
  }

  lemma BucketedStep(txns: seq<Txn>, n: nat, byAmount: map<int, seq<Txn>>, at: map<int, seq<nat>>)
    requires n < |txns| && Bucketed(txns, n, byAmount, at)
    ensures var k := txns[n].cents;
            Bucketed(txns, n + 1,
                     byAmount[k := (if k in byAmount then byAmount[k] else []) + [txns[n]]],
                     at[k := (if k in at then at[k] else []) + [n]])
  {
    GroupStep(txns, n, byAmount, at);
    forall j | j in at && j != txns[n].cents ensures Selects(txns, n + 1, Of(j), byAmount[j], at[j]) {
      OtherGroup(txns, n, byAmount, at, j);
    }
  }

  method Bucket(txns: seq<Txn>) returns (byAmount: map<int, seq<Txn>>, ghost at: map<int, seq<nat>>)
    ensures Bucketed(txns, |txns|, byAmount, at)
    ensures forall k, t :: k in byAmount ==> (t in byAmount[k] <==> t in txns && t.cents == k)
    ensures forall t :: t in txns ==> t.cents in byAmount
  {
    byAmount, at := map[], map[];
    for n := 0 to |txns|
      invariant Bucketed(txns, n, byAmount, at)
    {
      BucketedStep(txns, n, byAmount, at);
      var k := txns[n].cents;
      byAmount := byAmount[k := (if k in byAmount then byAmount[k] else []) + [txns[n]]];
      at := at[k := (if k in at then at[k] else []) + [n]];
    }
    forall k | k in byAmount ensures forall t :: t in byAmount[k] <==> t in txns && t.cents == k {
      SelectsMembers(txns, Of(k), byAmount[k], at[k]);
    }
  }

  method Split(group: seq<Txn>) returns (debits: seq<Txn>, credits: seq<Txn>, ghost dl: seq<nat>, ghost cl: seq<nat>)
    ensures Selects(group, |group|, Side(false), debits, dl)
    ensures Selects(group, |group|, Side(true), credits, cl)
    ensures forall t :: (t in debits <==> t in group && !t.credit) && (t in credits <==> t in group && t.credit)
  {
    debits, credits, dl, cl := [], [], [], [];
    for g := 0 to |group|
      invariant Selects(group, g, Side(false), debits, dl)
      invariant Selects(group, g, Side(true), credits, cl)
    {
      SelectsStep(group, g, Side(false), debits, dl);
      SelectsStep(group, g, Side(true), credits, cl);
      if group[g].credit {
        credits, cl := credits + [group[g]], cl + [g];
      } else {
        debits, dl := debits + [group[g]], dl + [g];
      }
    }
    SelectsMembers(group, Side(false), debits, dl);
    SelectsMembers(group, Side(true), credits, cl);
  }

  // ---------- Enumerating and sorting the pairs of a bucket ----------

  /** A pair by index into the bucket's debits and credits. */
  datatype Pair = Pair(d: nat, c: nat, gap: nat)

  ghost predicate Viable(debits: seq<Txn>, credits: seq<Txn>, p: Pair) {
    && p.d < |debits| && p.c < |credits|
    && Compatible(debits[p.d], credits[p.c])
    && p.gap == Gap(debits[p.d], credits[p.c])
  }

  ghost predicate NoDup<T>(s: seq<T>) {
    forall i, j :: 0 <= i < j < |s| ==> s[i] != s[j]
  }

  method Enumerate(debits: seq<Txn>, credits: seq<Txn>) returns (pairs: seq<Pair>)
    ensures NoDup(pairs)
    ensures forall p :: p in pairs <==> Viable(debits, credits, p)
  {
    pairs := [];
    for i := 0 to |debits|
      invariant NoDup(pairs)
      invariant forall p :: p in pairs <==> Viable(debits, credits, p) && p.d < i
    {
      for j := 0 to |credits|
        invariant NoDup(pairs)
        invariant forall p :: p in pairs <==>
                    Viable(debits, credits, p) && (p.d < i || (p.d == i && p.c < j))
      {
        if debits[i].upload != credits[j].upload {
          var gap := Gap(debits[i], credits[j]);
          if gap <= WINDOW {
            assert Pair(i, j, gap) !in pairs;
            pairs := pairs + [Pair(i, j, gap)];
          }
        }
      }
    }
  }

  /** The comparison given to the sort. */
  predicate Less(a: Pair, b: Pair) {
    if a.gap != b.gap then a.gap < b.gap
    else if a.d != b.d then a.d < b.d
    else a.c < b.c
  }

  ghost predicate Ascending(s: seq<Pair>) {
    forall i, j :: 0 <= i < j < |s| ==> Less(s[i], s[j])
  }

  function Insert(p: Pair, s: seq<Pair>): (r: seq<Pair>)
    requires Ascending(s) && p !in s && (forall q :: q in s ==> Less(p, q) || Less(q, p))
    ensures Ascending(r) && |r| == |s| + 1 && forall q :: q in r <==> q == p || q in s
  {
    if s == [] || Less(p, s[0]) then [p] + s
    else
      assert s[0] in s && Less(s[0], p);
      assert forall q :: q in s[1..] ==> q in s && Less(s[0], q);
      var rest := Insert(p, s[1..]);
      assert forall i :: 0 <= i < |rest| ==> rest[i] in rest;
      [s[0]] + rest
  }

  /** Stands for the library sort: ascending and holding the same pairs. */
  function SortPairs(pairs: seq<Pair>): (r: seq<Pair>)
    requires NoDup(pairs) && (forall p, q :: p in pairs && q in pairs && p != q ==> Less(p, q) || Less(q, p))
    ensures Ascending(r) && |r| == |pairs| && forall q :: q in r <==> q in pairs
  {
    if pairs == [] then []
    else
      assert pairs[0] in pairs && pairs[0] !in pairs[1..];
      assert forall q :: q in pairs[1..] ==> q in pairs;
      Insert(pairs[0], SortPairs(pairs[1..]))
  }

  // ---------- Picking greedily ----------

  /** The pair as an edge between list positions. */
  ghost function ToEdge(p: Pair, dp: seq<nat>, cp: seq<nat>): Edge
    requires p.d < |dp| && p.c < |cp|
  {
    Edge(dp[p.d], cp[p.c])
  }

  /** The sorted pairs of the bucket of `cents`, tied to list positions. */
  ghost predicate BucketPairs(txns: seq<Txn>, cents: int, debits: seq<Txn>, credits: seq<Txn>,
                              dp: seq<nat>, cp: seq<nat>, pairs: seq<Pair>) {
    && SideOf(txns, cents, false, debits, dp)
    && SideOf(txns, cents, true, credits, cp)
    && Ascending(pairs)
    && forall p :: p in pairs <==> Viable(debits, credits, p)
  }

  /** Every admissible edge of the bucket is one of its pairs. */
  lemma EdgeHasPair(txns: seq<Txn>, cents: int, debits: seq<Txn>, credits: seq<Txn>,
                    dp: seq<nat>, cp: seq<nat>, pairs: seq<Pair>, e: Edge)
      returns (k: nat)
    requires BucketPairs(txns, cents, debits, credits, dp, cp, pairs)
    requires Admissible(txns, e) && txns[e.d].cents == cents
    ensures k < |pairs| && pairs[k].d < |dp| && pairs[k].c < |cp| && ToEdge(pairs[k], dp, cp) == e
  {
    var i :| 0 <= i < |dp| && dp[i] == e.d;
    var j :| 0 <= j < |cp| && cp[j] == e.c;
    var p := Pair(i, j, Gap(debits[i], credits[j]));
    assert Viable(debits, credits, p);
    k :| 0 <= k < |pairs| && pairs[k] == p;
  }

  lemma PairIsEdge(txns: seq<Txn>, cents: int, debits: seq<Txn>, credits: seq<Txn>,
                   dp: seq<nat>, cp: seq<nat>, pairs: seq<Pair>, k: nat)
    requires BucketPairs(txns, cents, debits, credits, dp, cp, pairs) && k < |pairs|
    ensures Viable(debits, credits, pairs[k])
    ensures pairs[k].d < |dp| && pairs[k].c < |cp|
    ensures var e := ToEdge(pairs[k], dp, cp);
            Admissible(txns, e) && txns[e.d].cents == cents && pairs[k].gap == EdgeGap(txns, e)
  {
    assert pairs[k] in pairs;
  }

  /** Sorting order is the order of the specification. */
  lemma OrderAgrees(txns: seq<Txn>, cents: int, debits: seq<Txn>, credits: seq<Txn>,
                    dp: seq<nat>, cp: seq<nat>, pairs: seq<Pair>, k: nat, l: nat)
    requires BucketPairs(txns, cents, debits, credits, dp, cp, pairs) && k < |pairs| && l < |pairs|
    requires pairs[k].d < |dp| && pairs[k].c < |cp| && pairs[l].d < |dp| && pairs[l].c < |cp|
    ensures Before(txns, ToEdge(pairs[k], dp, cp), ToEdge(pairs[l], dp, cp)) <==> k < l
  {
    PairIsEdge(txns, cents, debits, credits, dp, cp, pairs, k);
    PairIsEdge(txns, cents, debits, credits, dp, cp, pairs, l);
  }

  /** `done` is the part of the matching that lies among the first `k` pairs. */
  ghost predicate DoneBy(txns: seq<Txn>, dp: seq<nat>, cp: seq<nat>, pairs: seq<Pair>, k: nat, done: set<Edge>)
    requires k <= |pairs| && forall q :: 0 <= q < |pairs| ==> pairs[q].d < |dp| && pairs[q].c < |cp|
  {
    && (forall e :: e in done ==> e in Pairs(txns) && exists q :: 0 <= q < k && ToEdge(pairs[q], dp, cp) == e)
    && (forall q :: 0 <= q < k && ToEdge(pairs[q], dp, cp) in Pairs(txns) ==> ToEdge(pairs[q], dp, cp) in done)
  }

  /** The test the loop makes is the test of the specification. */
  lemma PickedIff(txns: seq<Txn>, cents: int, debits: seq<Txn>, credits: seq<Txn>,
                  dp: seq<nat>, cp: seq<nat>, pairs: seq<Pair>, k: nat, done: set<Edge>)
    requires BucketPairs(txns, cents, debits, credits, dp, cp, pairs) && k < |pairs|
    requires forall q :: 0 <= q < |pairs| ==> pairs[q].d < |dp| && pairs[q].c < |cp|
    requires DoneBy(txns, dp, cp, pairs, k, done)
    ensures ToEdge(pairs[k], dp, cp) in Pairs(txns)
       <==> !exists f :: f in done && Share(f, ToEdge(pairs[k], dp, cp))
  {
    var m, e := Pairs(txns), ToEdge(pairs[k], dp, cp);
    PairIsEdge(txns, cents, debits, credits, dp, cp, pairs, k);
    StableIsDisjoint(txns, m);
    if e in m {
      forall f | f in done && Share(f, e) ensures false {
        var q :| 0 <= q < k && ToEdge(pairs[q], dp, cp) == f;
        OrderAgrees(txns, cents, debits, credits, dp, cp, pairs, q, k);
      }
    } else {
      var f :| f in m && Before(txns, f, e) && Share(f, e);
      assert Admissible(txns, f);
      var q := EdgeHasPair(txns, cents, debits, credits, dp, cp, pairs, f);
      OrderAgrees(txns, cents, debits, credits, dp, cp, pairs, q, k);
    }
  }

  /** An end of a pair in `m` that does not carry the Transfers tag yet. */
  ghost predicate UntaggedEnd(txns: seq<Txn>, m: set<Edge>, p: nat) {
    && p < |txns| && txns[p].category != TRANSFERS
    && exists e :: e in m && (p == e.d || p == e.c)
  }

  /** `ids` lists the ids at positions `at`: each untagged end of `m` exactly once. */
  ghost predicate Lists(txns: seq<Txn>, m: set<Edge>, ids: seq<string>, at: seq<nat>) {
    && |ids| == |at| && NoDup(at)
    && (forall k :: 0 <= k < |at| ==> at[k] < |txns| && ids[k] == txns[at[k]].id)
    && (forall p :: p in at <==> UntaggedEnd(txns, m, p))
  }

  /** What one end of a picked pair contributes: its position and id, unless already tagged. */
  function Report(t: Txn): seq<string> {
    if t.category != TRANSFERS then [t.id] else []
  }

  ghost function ReportAt(txns: seq<Txn>, p: nat): seq<nat>
    requires p < |txns|
  {
    if txns[p].category != TRANSFERS then [p] else []
  }

  lemma ListsMore(txns: seq<Txn>, m: set<Edge>, ids: seq<string>, at: seq<nat>, e: Edge)
    requires Lists(txns, m, ids, at) && Admissible(txns, e)
    requires forall f :: f in m ==> Admissible(txns, f) && !Share(f, e)
    ensures Lists(txns, m + {e}, ids + Report(txns[e.d]) + Report(txns[e.c]),
                  at + ReportAt(txns, e.d) + ReportAt(txns, e.c))
  {
    assert !UntaggedEnd(txns, m, e.d) && !UntaggedEnd(txns, m, e.c);
    forall p: nat ensures UntaggedEnd(txns, m + {e}, p) <==>
        UntaggedEnd(txns, m, p) || (p < |txns| && txns[p].category != TRANSFERS && (p == e.d || p == e.c)) {
      if p < |txns| && (p == e.d || p == e.c) {
        assert e in m + {e};
      }
    }
  }

  ghost predicate DoneOfBucket(txns: seq<Txn>, cents: int, done: set<Edge>) {
    forall e :: e in done <==> e in Pairs(txns) && txns[e.d].cents == cents
  }

  lemma DoneAtEnd(txns: seq<Txn>, cents: int, debits: seq<Txn>, credits: seq<Txn>,
                  dp: seq<nat>, cp: seq<nat>, pairs: seq<Pair>, done: set<Edge>)
    requires BucketPairs(txns, cents, debits, credits, dp, cp, pairs)
    requires forall q :: 0 <= q < |pairs| ==> pairs[q].d < |dp| && pairs[q].c < |cp|
    requires DoneBy(txns, dp, cp, pairs, |pairs|, done)
    ensures DoneOfBucket(txns, cents, done)
  {
    forall e ensures e in done <==> e in Pairs(txns) && txns[e.d].cents == cents {
      if e in done {
        var q :| 0 <= q < |pairs| && ToEdge(pairs[q], dp, cp) == e;
        PairIsEdge(txns, cents, debits, credits, dp, cp, pairs, q);
      } else if e in Pairs(txns) && txns[e.d].cents == cents {
        assert Admissible(txns, e);
        var q := EdgeHasPair(txns, cents, debits, credits, dp, cp, pairs, e);
      }
    }
  }

  /** `used` holds the local indices, on one side, of the edges done. */
  ghost predicate Used(used: set<nat>, pos: seq<nat>, done: set<Edge>, credit: bool) {
    forall i :: 0 <= i < |pos| ==> (i in used <==> pos[i] in Ends(done, credit))
  }

  lemma UsedMore(used: set<nat>, pos: seq<nat>, done: set<Edge>, credit: bool, i: nat, e: Edge)
    requires Used(used, pos, done, credit) && i < |pos| && pos[i] == End(e, credit)
    requires forall i, j :: 0 <= i < j < |pos| ==> pos[i] < pos[j]
    ensures Used(used + {i}, pos, done + {e}, credit)
  {
    assert Ends(done + {e}, credit) == Ends(done, credit) + {End(e, credit)};
  }

  lemma SharedEnds(done: set<Edge>, e: Edge)
    ensures (exists f :: f in done && Share(f, e)) <==> e.d in Ends(done, false) || e.c in Ends(done, true)
  {
    if e.d in Ends(done, false) {
      var f :| f in done && End(f, false) == e.d;
      assert Share(f, e);
    }
    if e.c in Ends(done, true) {
      var f :| f in done && End(f, true) == e.c;
      assert Share(f, e);
    }
    if exists f :: f in done && Share(f, e) {
      var f :| f in done && Share(f, e);
      assert End(f, false) in Ends(done, false) && End(f, true) in Ends(done, true);
    }
  }

  /** The state of the picking loop before its `k`-th pair. */
  ghost predicate PickState(txns: seq<Txn>, dp: seq<nat>, cp: seq<nat>, pairs: seq<Pair>, k: nat,
                            done: set<Edge>, usedD: set<nat>, usedC: set<nat>, ids: seq<string>, at: seq<nat>) {
    && k <= |pairs|
    && (forall q :: 0 <= q < |pairs| ==> pairs[q].d < |dp| && pairs[q].c < |cp|)
    && DoneBy(txns, dp, cp, pairs, k, done)
    && Used(usedD, dp, done, false) && Used(usedC, cp, done, true)
    && Lists(txns, done, ids, at)
  }

  lemma DoneByMore(txns: seq<Txn>, dp: seq<nat>, cp: seq<nat>, pairs: seq<Pair>, k: nat, done: set<Edge>)
    requires k < |pairs| && forall q :: 0 <= q < |pairs| ==> pairs[q].d < |dp| && pairs[q].c < |cp|
    requires DoneBy(txns, dp, cp, pairs, k, done)
    ensures var e := ToEdge(pairs[k], dp, cp);
            DoneBy(txns, dp, cp, pairs, k + 1, if e in Pairs(txns) then done + {e} else done)
  {}

  /** The pair shares an end with one picked before: the loop skips it. */
  lemma PickSkips(txns: seq<Txn>, cents: int, debits: seq<Txn>, credits: seq<Txn>,
                  dp: seq<nat>, cp: seq<nat>, pairs: seq<Pair>, k: nat,
                  done: set<Edge>, usedD: set<nat>, usedC: set<nat>, ids: seq<string>, at: seq<nat>)
    requires BucketPairs(txns, cents, debits, credits, dp, cp, pairs) && k < |pairs|
    requires PickState(txns, dp, cp, pairs, k, done, usedD, usedC, ids, at)
    requires pairs[k].d in usedD || pairs[k].c in usedC
    ensures PickState(txns, dp, cp, pairs, k + 1, done, usedD, usedC, ids, at)
  {
    PickedIff(txns, cents, debits, credits, dp, cp, pairs, k, done);
    SharedEnds(done, ToEdge(pairs[k], dp, cp));
    DoneByMore(txns, dp, cp, pairs, k, done);
  }

  /** Both ends are still free: the loop picks the pair. */
  lemma PickTakes(txns: seq<Txn>, cents: int, debits: seq<Txn>, credits: seq<Txn>,
                  dp: seq<nat>, cp: seq<nat>, pairs: seq<Pair>, k: nat,
                  done: set<Edge>, usedD: set<nat>, usedC: set<nat>, ids: seq<string>, at: seq<nat>)
    requires BucketPairs(txns, cents, debits, credits, dp, cp, pairs) && k < |pairs|
    requires PickState(txns, dp, cp, pairs, k, done, usedD, usedC, ids, at)
    requires pairs[k].d !in usedD && pairs[k].c !in usedC
    ensures pairs[k].d < |debits| && pairs[k].c < |credits|
    ensures var p, e := pairs[k], ToEdge(pairs[k], dp, cp);
            && e.d < |txns| && e.c < |txns|
            && PickState(txns, dp, cp, pairs, k + 1, done + {e}, usedD + {p.d}, usedC + {p.c},
                         ids + Report(debits[p.d]) + Report(credits[p.c]),
                         at + ReportAt(txns, e.d) + ReportAt(txns, e.c))
  {
    var p, e := pairs[k], ToEdge(pairs[k], dp, cp);
    PairIsEdge(txns, cents, debits, credits, dp, cp, pairs, k);
    PickedIff(txns, cents, debits, credits, dp, cp, pairs, k, done);
    SharedEnds(done, e);
    DoneByMore(txns, dp, cp, pairs, k, done);
    UsedMore(usedD, dp, done, false, p.d, e);
    UsedMore(usedC, cp, done, true, p.c, e);
    ListsMore(txns, done, ids, at, e);
  }

  method Pick(debits: seq<Txn>, credits: seq<Txn>, pairs: seq<Pair>,
              ghost txns: seq<Txn>, ghost cents: int, ghost dp: seq<nat>, ghost cp: seq<nat>)
      returns (ids: seq<string>, ghost at: seq<nat>, ghost done: set<Edge>)
    requires BucketPairs(txns, cents, debits, credits, dp, cp, pairs)
    ensures DoneOfBucket(txns, cents, done)
    ensures Lists(txns, done, ids, at)
  {
    forall q | 0 <= q < |pairs| ensures pairs[q].d < |dp| && pairs[q].c < |cp| {
      PairIsEdge(txns, cents, debits, credits, dp, cp, pairs, q);
    }
    var usedD, usedC: set<nat> := {}, {};
    ids, at, done := [], [], {};
    for k := 0 to |pairs|
      invariant PickState(txns, dp, cp, pairs, k, done, usedD, usedC, ids, at)
    {
      var p := pairs[k];
      if p.d in usedD || p.c in usedC {
        PickSkips(txns, cents, debits, credits, dp, cp, pairs, k, done, usedD, usedC, ids, at);
        continue;
      }
      PickTakes(txns, cents, debits, credits, dp, cp, pairs, k, done, usedD, usedC, ids, at);
      usedD, usedC := usedD + {p.d}, usedC + {p.c};
      ids := ids + Report(debits[p.d]) + Report(credits[p.c]);
      at := at + ReportAt(txns, dp[p.d]) + ReportAt(txns, cp[p.c]);
      done := done + {ToEdge(p, dp, cp)};
    }
    DoneAtEnd(txns, cents, debits, credits, dp, cp, pairs, done);
  }

  // ---------- The whole function ----------

  lemma EmptySide(txns: seq<Txn>, cents: int, credit: bool)
    requires SideOf(txns, cents, credit, [], [])
    ensures forall e :: e in Pairs(txns) ==> txns[e.d].cents != cents
  {
    forall e | e in Pairs(txns) ensures txns[e.d].cents != cents {
      assert Admissible(txns, e);
    }
  }

  lemma ListsUnion(txns: seq<Txn>, m: set<Edge>, ids: seq<string>, at: seq<nat>,
                   n: set<Edge>, ids': seq<string>, at': seq<nat>)
    requires Lists(txns, m, ids, at) && Lists(txns, n, ids', at')
    requires forall e, f :: e in m && f in n ==>
               Admissible(txns, e) && Admissible(txns, f) && txns[e.d].cents != txns[f.d].cents
    ensures Lists(txns, m + n, ids + ids', at + at')
  {
    forall p: nat | UntaggedEnd(txns, m, p) && UntaggedEnd(txns, n, p) ensures false {
      var e :| e in m && (p == e.d || p == e.c);
      var f :| f in n && (p == f.d || p == f.c);
    }
    forall p: nat ensures UntaggedEnd(txns, m + n, p) <==> UntaggedEnd(txns, m, p) || UntaggedEnd(txns, n, p) {
      if UntaggedEnd(txns, m + n, p) {
        var e :| e in m + n && (p == e.d || p == e.c);
        assert e in m || e in n;
      }
    }
    forall i, j | 0 <= i < j < |at + at'| ensures (at + at')[i] != (at + at')[j] {
      if i < |at| <= j {
        assert at[i] in at && at'[j - |at|] in at';
      }
    }
  }

  /** Positions of one side of a bucket's group in the whole list. */
  lemma GroupSide(txns: seq<Txn>, cents: int, credit: bool, group: seq<Txn>, pos: seq<nat>, sub: seq<Txn>, loc: seq<nat>)
      returns (pos': seq<nat>)
    requires Selects(txns, |txns|, Of(cents), group, pos) && Selects(group, |group|, Side(credit), sub, loc)
    ensures SideOf(txns, cents, credit, sub, pos')
  {
    pos' := SelectsWithin(txns, Of(cents), group, pos, Side(credit), sub, loc);
  }

  method PickBucket(group: seq<Txn>, ghost txns: seq<Txn>, ghost cents: int, ghost pos: seq<nat>)
      returns (ids: seq<string>, ghost at: seq<nat>, ghost done: set<Edge>)
    requires Selects(txns, |txns|, Of(cents), group, pos)
    ensures DoneOfBucket(txns, cents, done)
    ensures Lists(txns, done, ids, at)
  {
    var debits, credits, dl, cl := Split(group);
    ghost var dp := GroupSide(txns, cents, false, group, pos, debits, dl);
    ghost var cp := GroupSide(txns, cents, true, group, pos, credits, cl);
    if |debits| == 0 || |credits| == 0 {
      assert debits == [] ==> SideOf(txns, cents, false, [], []);
      assert credits == [] ==> SideOf(txns, cents, true, [], []);
      EmptySide(txns, cents, |debits| != 0);
      return [], [], {};
    }
    var pairs := Enumerate(debits, credits);
    pairs := SortPairs(pairs);
    ids, at, done := Pick(debits, credits, pairs, txns, cents, dp, cp);
  }

  /** The ids of the untagged ends of the matching, one for each position. */
  ghost predicate Reports(txns: seq<Txn>, ids: seq<string>) {
    exists at :: Lists(txns, Pairs(txns), ids, at)
  }

  /** The same in plain terms: a pairing, and the id of each of its rows that is not tagged yet, once for
      each such row. */
  ghost predicate ReportsTransfers(txns: seq<Txn>, ids: seq<string>) {
    exists m, at: seq<nat> :: IsPairing(txns, m) && ListsRows(txns, m, ids, at)
  }

  ghost predicate ListsRows(txns: seq<Txn>, m: set<Edge>, ids: seq<string>, at: seq<nat>) {
    && |ids| == |at|
    && (forall k, l :: 0 <= k < l < |at| ==> at[k] != at[l])
    && (forall k :: 0 <= k < |at| ==> at[k] < |txns| && ids[k] == txns[at[k]].id)
    && forall p: nat :: p in at <==>
         p < |txns| && txns[p].category != "Transfers" && exists e :: e in m && (e.d == p || e.c == p)
  }

  lemma ReportsPlainly(txns: seq<Txn>, ids: seq<string>)
    ensures Reports(txns, ids) <==> ReportsTransfers(txns, ids)
  {
    if Reports(txns, ids) {
      var at :| Lists(txns, Pairs(txns), ids, at);
      PairsIff(txns, Pairs(txns));
      assert ListsRows(txns, Pairs(txns), ids, at);
    }
    if ReportsTransfers(txns, ids) {
      var m, at: seq<nat> :| IsPairing(txns, m) && ListsRows(txns, m, ids, at);
      PairsIff(txns, m);
      assert Lists(txns, Pairs(txns), ids, at);
    }
  }

  /** Whatever order the buckets are visited in, the result lists the ids of the untagged ends of the
      one global matching, each position once. */
  method MatchTransfers(txns: seq<Txn>) returns (ids: seq<string>)
    ensures Reports(txns, ids)
    ensures ReportsTransfers(txns, ids)
  {
    var byAmount, where := Bucket(txns);
    ghost var done: set<Edge> := {};
    ghost var at: seq<nat> := [];
    ids := [];
    var keys: set<int> := byAmount.Keys;
    while keys != {}
      invariant keys <= byAmount.Keys
      invariant forall e :: e in done <==> e in Pairs(txns) && txns[e.d].cents !in keys
      invariant Lists(txns, done, ids, at)
      decreases keys
    {
      var k := AnyOf(keys);
      var ids', at', done' := PickBucket(byAmount[k], txns, k, where[k]);
      ListsUnion(txns, done, ids, at, done', ids', at');
      ids, at, done := ids + ids', at + at', done + done';
      keys := keys - {k};
    }
    assert done == Pairs(txns);
    ReportsPlainly(txns, ids);
  }

  /** With distinct ids, nothing is reported twice, and the reported set is fixed by the input. */
  lemma DistinctIds(txns: seq<Txn>, ids: seq<string>)
    requires Reports(txns, ids)
    requires forall i, j :: 0 <= i < j < |txns| ==> txns[i].id != txns[j].id
    ensures NoDup(ids)
    ensures forall p :: 0 <= p < |txns| ==> (txns[p].id in ids <==> UntaggedEnd(txns, Pairs(txns), p))
  {
    var at :| Lists(txns, Pairs(txns), ids, at);
    forall p | 0 <= p < |txns| ensures txns[p].id in ids <==> UntaggedEnd(txns, Pairs(txns), p) {
      if p in at {
        var k :| 0 <= k < |at| && at[k] == p;
        assert ids[k] in ids;
      }
      if txns[p].id in ids {
        var k :| 0 <= k < |ids| && ids[k] == txns[p].id;
        assert at[k] in at && at[k] == p;
      }
    }
  }
}
