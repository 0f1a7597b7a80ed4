/** The two-row edit distance of `engine.go`, proved to be the length of a shortest edit script
    and a metric. Go indexes strings by byte, so words are byte sequences. */
module Levenshtein {

  import opened Bytes

  type Word = seq<Byte>

  function Min(x: int, y: int): int {
    if x <= y then x else y
  }

  /** The textbook distance, by recursion on the last bytes. */
  function Dist(a: Word, b: Word): (d: nat)
    decreases |a| + |b|
  {
    if a == [] then |b|
    else if b == [] then |a|
    else
      var a', b' := a[..|a| - 1], b[..|b| - 1];
      Min(Dist(a', b) + 1,
          Min(Dist(a, b') + 1,
              Dist(a', b') + if a[|a| - 1] == b[|b| - 1] then 0 else 1))
  }

  // ---------- The metric laws ----------

  lemma {:induction false} Symmetry(a: Word, b: Word)
    ensures Dist(a, b) == Dist(b, a)
    decreases |a| + |b|
  {
    if a != [] && b != [] {
      var a', b' := a[..|a| - 1], b[..|b| - 1];
      Symmetry(a', b);
      Symmetry(a, b');
      Symmetry(a', b');
    }
  }

  lemma {:induction false} LengthBounds(a: Word, b: Word)
    ensures |a| - |b| <= Dist(a, b) && |b| - |a| <= Dist(a, b)
    ensures Dist(a, b) <= |a| || Dist(a, b) <= |b|
    decreases |a| + |b|
  {
    if a != [] && b != [] {
      var a', b' := a[..|a| - 1], b[..|b| - 1];
      LengthBounds(a', b);
      LengthBounds(a, b');
      LengthBounds(a', b');
    }
  }

  lemma {:induction false} ZeroIffEqual(a: Word, b: Word)
    ensures Dist(a, b) == 0 <==> a == b
    decreases |a| + |b|
  {
    if a != [] && b != [] {
      var a', b' := a[..|a| - 1], b[..|b| - 1];
      ZeroIffEqual(a', b');
      assert a == a' + [a[|a| - 1]] && b == b' + [b[|b| - 1]];
    }
  }

  lemma {:induction false} Triangle(a: Word, b: Word, c: Word)
    ensures Dist(a, c) <= Dist(a, b) + Dist(b, c)
    decreases |a| + |b| + |c|
  {
    LengthBounds(a, b);
    LengthBounds(b, c);
    LengthBounds(a, c);
    if a != [] && b != [] && c != [] {
      var a', b', c' := a[..|a| - 1], b[..|b| - 1], c[..|c| - 1];
      Triangle(a', b, c);
      Triangle(a, b, c');
      Triangle(a, b', c);
      Triangle(a, b', c');
      Triangle(a', b', c);
      Triangle(a', b', c');
    }
  }

  // ---------- Edit scripts ----------

  /** One step: insert, delete or substitute a single byte at a position of the current word. */
  datatype Edit = Insert(at: nat, with: Byte) | Delete(at: nat) | Substitute(at: nat, with: Byte)

  ghost predicate Fits(e: Edit, w: Word) {
    if e.Insert? then e.at <= |w| else e.at < |w|
  }

  ghost function Perform(e: Edit, w: Word): Word
    requires Fits(e, w)
  {
    match e
    case Insert(i, x) => w[..i] + [x] + w[i..]
    case Delete(i) => w[..i] + w[i + 1..]
    case Substitute(i, x) => w[..i] + [x] + w[i + 1..]
  }

  /** `script` turns `a` into `b`. */
  ghost predicate Turns(script: seq<Edit>, a: Word, b: Word)
    decreases |script|
  {
    if script == [] then a == b
    else Fits(script[0], a) && Turns(script[1..], Perform(script[0], a), b)
  }

  lemma CommonLast(x: Word, y: Word, c: Byte)
    ensures Dist(x + [c], y + [c]) <= Dist(x, y)
  {
    var q, r := x + [c], y + [c];
    assert q[..|q| - 1] == x && r[..|r| - 1] == y;
  }

  lemma Regroup(x: Word, t: Word)
    requires t != []
    ensures x + t == x + [t[0]] + t[1..]
  {}

  /** A common tail never increases the distance. */
  lemma {:induction false} CommonTail(x: Word, y: Word, t: Word)
    ensures Dist(x + t, y + t) <= Dist(x, y)
    decreases |t|
  {
    if t == [] {
      assert x + t == x && y + t == y;
    } else {
      var x', y' := x + [t[0]], y + [t[0]];
      CommonLast(x, y, t[0]);
      CommonTail(x', y', t[1..]);
      Regroup(x, t);
      Regroup(y, t);
    }
  }

  lemma OneMore(p: Word, y: Byte)
    ensures Dist(p, p + [y]) <= 1 && Dist(p + [y], p) <= 1
  {
    var q := p + [y];
    assert q[..|q| - 1] == p;
    ZeroIffEqual(p, p);
    Symmetry(p, q);
  }

  lemma OneOther(p: Word, x: Byte, y: Byte)
    ensures Dist(p + [x], p + [y]) <= 1
  {
    var q, r := p + [x], p + [y];
    assert q[..|q| - 1] == p && r[..|r| - 1] == p;
    ZeroIffEqual(p, p);
  }

  lemma ChangeAtEnd(p: Word, x: Word, y: Word)
    requires |x| <= 1 && |y| <= 1
    ensures Dist(p + x, p + y) <= 1
  {
    assert p + [] == p;
    if x == y {
      ZeroIffEqual(p + x, p + y);
    } else if x == [] {
      assert y == [y[0]];
      OneMore(p, y[0]);
    } else if y == [] {
      assert x == [x[0]];
      OneMore(p, x[0]);
    } else {
      assert x == [x[0]] && y == [y[0]];
      OneOther(p, x[0], y[0]);
    }
  }

  /** Changing at most one byte between `p` and `t` costs at most one. */
  lemma LocalChange(p: Word, x: Word, y: Word, t: Word)
    requires |x| <= 1 && |y| <= 1
    ensures Dist(p + x + t, p + y + t) <= 1
  {
    ChangeAtEnd(p, x, y);
    CommonTail(p + x, p + y, t);
  }

  lemma OneEdit(e: Edit, w: Word)
    requires Fits(e, w)
    ensures Dist(w, Perform(e, w)) <= 1
  {
    var p, x, y, t := EditParts(e, w);
    LocalChange(p, x, y, t);
  }

  /** What an edit replaces, and what stays before and after it. */
  lemma EditParts(e: Edit, w: Word) returns (p: Word, x: Word, y: Word, t: Word)
    requires Fits(e, w)
    ensures |x| <= 1 && |y| <= 1 && w == p + x + t && Perform(e, w) == p + y + t
  {
    p := w[..e.at];
    x, t := if e.Insert? then [] else [w[e.at]], if e.Insert? then w[e.at..] else w[e.at + 1..];
    y := if e.Delete? then [] else [e.with];
  }

  /** No script is shorter than the distance. */
  lemma {:induction false} Minimal(script: seq<Edit>, a: Word, b: Word)
    requires Turns(script, a, b)
    ensures Dist(a, b) <= |script|
    decreases |script|
  {
    if script == [] {
      ZeroIffEqual(a, b);
    } else {
      var w := Perform(script[0], a);
      OneEdit(script[0], a);
      Minimal(script[1..], w, b);
      Triangle(a, w, b);
    }
  }

  lemma PerformFramed(e: Edit, a: Word, t: Word)
    requires Fits(e, a)
    ensures Fits(e, a + t) && Perform(e, a + t) == Perform(e, a) + t
  {
    assert (a + t)[..e.at] == a[..e.at];
    assert !e.Insert? ==> (a + t)[e.at + 1..] == a[e.at + 1..] + t;
    assert e.Insert? ==> (a + t)[e.at..] == a[e.at..] + t;
  }

  /** A script still works, in place, in front of an untouched tail. */
  lemma {:induction false} Framed(script: seq<Edit>, a: Word, b: Word, t: Word)
    requires Turns(script, a, b)
    ensures Turns(script, a + t, b + t)
    decreases |script|
  {
    if script != [] {
      Framed(script[1..], Perform(script[0], a), b, t);
      PerformFramed(script[0], a, t);
    }
  }

  lemma {:induction false} Appended(script: seq<Edit>, a: Word, b: Word, last: Edit)
    requires Turns(script, a, b) && Fits(last, b)
    ensures Turns(script + [last], a, Perform(last, b))
    decreases |script|
  {
    if script != [] {
      Appended(script[1..], Perform(script[0], a), b, last);
      assert (script + [last])[1..] == script[1..] + [last];
    } else {
      assert script + [last] == [last];
      assert [last][1..] == [];
    }
  }

  lemma ThenInsert(script: seq<Edit>, a: Word, b: Word, y: Byte)
    requires Turns(script, a, b)
    ensures Turns(script + [Insert(|b|, y)], a, b + [y])
  {
    Appended(script, a, b, Insert(|b|, y));
    assert Perform(Insert(|b|, y), b) == b + [y];
  }

  lemma ThenDelete(script: seq<Edit>, a: Word, b: Word, x: Byte)
    requires Turns(script, a, b)
    ensures Turns(script + [Delete(|b|)], a + [x], b)
  {
    Framed(script, a, b, [x]);
    Appended(script, a + [x], b + [x], Delete(|b|));
    assert Perform(Delete(|b|), b + [x]) == b;
  }

  lemma ThenSubstitute(script: seq<Edit>, a: Word, b: Word, x: Byte, y: Byte)
    requires Turns(script, a, b)
    ensures Turns(script + [Substitute(|b|, y)], a + [x], b + [y])
  {
    Framed(script, a, b, [x]);
    Appended(script, a + [x], b + [x], Substitute(|b|, y));
    assert Perform(Substitute(|b|, y), b + [x]) == b + [y];
  }

  /** The distance is achieved by some script. */
  lemma {:induction false} Achievable(a: Word, b: Word) returns (script: seq<Edit>)
    ensures Turns(script, a, b) && |script| == Dist(a, b)
    decreases |a| + |b|
  {
    if a == [] && b == [] {
      return [];
    }
    var a' := if a == [] then [] else a[..|a| - 1];
    var b' := if b == [] then [] else b[..|b| - 1];
    assert a != [] ==> a == a' + [a[|a| - 1]];
    assert b != [] ==> b == b' + [b[|b| - 1]];
    if a == [] || (b != [] && Dist(a, b) == Dist(a, b') + 1) {
      script := Achievable(a, b');
      ThenInsert(script, a, b', b[|b| - 1]);
      script := script + [Insert(|b'|, b[|b| - 1])];
    } else if b == [] || Dist(a, b) == Dist(a', b) + 1 {
      script := Achievable(a', b);
      ThenDelete(script, a', b, a[|a| - 1]);
      script := script + [Delete(|b|)];
    } else {
      script := Achievable(a', b');
      if a[|a| - 1] == b[|b| - 1] {
        Framed(script, a', b', [a[|a| - 1]]);
      } else {
        ThenSubstitute(script, a', b', a[|a| - 1], b[|b| - 1]);
        script := script + [Substitute(|b'|, b[|b| - 1])];
      }
    }
  }

  /** `d` is the length of a shortest script from `a` to `b`. */
  ghost predicate ShortestScript(a: Word, b: Word, d: int) {
    && (exists script :: Turns(script, a, b) && |script| == d)
    && (forall script :: Turns(script, a, b) ==> d <= |script|)
  }

  lemma DistIsShortest(a: Word, b: Word)
    ensures ShortestScript(a, b, Dist(a, b))
  {
    var script := Achievable(a, b);
    forall s | Turns(s, a, b) ensures Dist(a, b) <= |s| {
      Minimal(s, a, b);
    }
  }

  // ---------- The two-row algorithm ----------

  /** Cell (i, j) of the table: the distance between the first `i` and the first `j` bytes. */
  ghost function Table(a: Word, b: Word): (int, int) -> int {
    (i: int, j: int) => if 0 <= i <= |a| && 0 <= j <= |b| then Dist(a[..i], b[..j]) else 0
  }

  /** The recurrence at one cell. */
  ghost predicate CellLaw(t: (int, int) -> int, a: Word, b: Word, i: nat, j: nat)
    requires i <= |a| && j <= |b|
  {
    t(i, j) ==
      if i == 0 then j
      else if j == 0 then i
      else Min(t(i - 1, j) + 1, Min(t(i, j - 1) + 1, t(i - 1, j - 1) + if a[i - 1] == b[j - 1] then 0 else 1))
  }

  ghost predicate TableLaw(t: (int, int) -> int, a: Word, b: Word) {
    forall i: nat, j: nat | i <= |a| && j <= |b| :: CellLaw(t, a, b, i, j)
  }

  lemma CellOfDist(a: Word, b: Word, i: nat, j: nat)
    requires i <= |a| && j <= |b|
    ensures CellLaw(Table(a, b), a, b, i, j)
  {
    if i > 0 && j > 0 {
      assert a[..i][..i - 1] == a[..i - 1] && b[..j][..j - 1] == b[..j - 1];
    }
  }

  lemma DistTable(a: Word, b: Word) returns (t: (int, int) -> int)
    ensures TableLaw(t, a, b) && t(|a|, |b|) == Dist(a, b)
  {
    t := Table(a, b);
    forall i: nat, j: nat | i <= |a| && j <= |b| ensures CellLaw(t, a, b, i, j) {
      CellOfDist(a, b, i, j);
    }
    assert a[..|a|] == a && b[..|b|] == b;
  }

  /** The first `n` cells of row `i` of a table. */
  ghost predicate IsRow(row: seq<int>, t: (int, int) -> int, i: nat, n: nat) {
    n <= |row| && forall j :: 0 <= j < n ==> row[j] == t(i, j)
  }

  /** The inner loop: overwrites `curr` with row `i`, reading row `i - 1` from `prev`. */
  method FillRow(prev: array<int>, curr: array<int>, a: Word, i: nat, b: Word, ghost t: (int, int) -> int)
    requires 1 <= i <= |a| && prev != curr && prev.Length == curr.Length == |b| + 1
    requires TableLaw(t, a, b) && IsRow(prev[..], t, i - 1, |b| + 1)
    modifies curr
    ensures IsRow(curr[..], t, i, |b| + 1)
  {
    curr[0] := i;
    assert CellLaw(t, a, b, i, 0);
    for j := 1 to |b| + 1
      invariant IsRow(curr[..], t, i, j)
    {
      var cost := 1;
      if a[i - 1] == b[j - 1] {
        cost := 0;
      }
      assert CellLaw(t, a, b, i, j);
      assert prev[..][j] == t(i - 1, j) && prev[..][j - 1] == t(i - 1, j - 1) && curr[..][j - 1] == t(i, j - 1);
      curr[j] := Min(prev[j] + 1, Min(curr[j - 1] + 1, prev[j - 1] + cost));
    }
  }

  /** The table walk: two rows, swapped after each byte of `a`. */
  method TwoRows(a: Word, b: Word, ghost t: (int, int) -> int) returns (d: int)
    requires TableLaw(t, a, b)
    ensures d == t(|a|, |b|)
  {
    var la, lb := |a|, |b|;
    var prev, curr := new int[lb + 1], new int[lb + 1];
    for j := 0 to lb + 1
      invariant IsRow(prev[..], t, 0, j)
    {
      assert CellLaw(t, a, b, 0, j);
      prev[j] := j;
    }
    for i := 1 to la + 1
      invariant prev != curr && fresh(prev) && fresh(curr)
      invariant prev.Length == curr.Length == lb + 1
      invariant IsRow(prev[..], t, i - 1, lb + 1)
    {
      FillRow(prev, curr, a, i, b, t);
      prev, curr := curr, prev;
    }
    assert prev[lb] == prev[..][lb];
    return prev[lb];
  }

  /** `levenshtein` as a whole, with its early exits. */
  method Compute(a: Word, b: Word) returns (d: int)
    ensures d == Dist(a, b)
    ensures ShortestScript(a, b, d)
  {
    if |a| == 0 {
      d := |b|;
    } else if |b| == 0 {
      d := |a|;
    } else {
      ghost var t := DistTable(a, b);
      d := TwoRows(a, b, t);
    }
    DistIsShortest(a, b);
  }

  // ---------- The fuzzy tier ----------

  function FuzzThreshold(word: Word): int {
    if |word| >= 8 then 2 else 1
  }

  /** A token the fuzzy tier accepts for a keyword: both at least five bytes, few enough edits. */
  predicate FuzzyHit(token: Word, keyword: Word) {
    |keyword| >= 5 && |token| >= 5 && Dist(token, keyword) <= FuzzThreshold(keyword)
  }

  /** Both words have at least five bytes, and at most one edit, two if the keyword has eight bytes or more,
      turns the token into the keyword. */
  ghost predicate Resembles(token: Word, keyword: Word) {
    && |token| >= 5 && |keyword| >= 5
    && exists script :: Turns(script, token, keyword) && |script| <= if |keyword| >= 8 then 2 else 1
  }

  /** The test of the fuzzy tier, in edit scripts. */
  lemma FuzzyHitIff(token: Word, keyword: Word)
    ensures FuzzyHit(token, keyword) <==> Resembles(token, keyword)
  {
    if FuzzyHit(token, keyword) {
      var script := Achievable(token, keyword);
      assert Turns(script, token, keyword);
    }
    if Resembles(token, keyword) {
      var script :| Turns(script, token, keyword) && |script| <= if |keyword| >= 8 then 2 else 1;
      Minimal(script, token, keyword);
    }
  }

  lemma FuzzyHitsAreClose(token: Word, keyword: Word)
    requires FuzzyHit(token, keyword)
    ensures -2 <= |token| - |keyword| <= 2
    ensures |keyword| < 8 ==> -1 <= |token| - |keyword| <= 1
    ensures exists script :: Turns(script, token, keyword) && |script| <= 2
  {
    LengthBounds(token, keyword);
    var _ := Achievable(token, keyword);
  }

  /** Two tokens accepted for the same keyword are within four edits of each other. */
  lemma FuzzyHitsOfOneKeyword(t: Word, u: Word, keyword: Word)
    requires FuzzyHit(t, keyword) && FuzzyHit(u, keyword)
    ensures Dist(t, u) <= 2 * FuzzThreshold(keyword)
  {
    Symmetry(u, keyword);
    Triangle(t, keyword, u);
  }
}
