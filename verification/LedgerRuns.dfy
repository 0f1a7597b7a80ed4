/** Runs from an empty account that leave the ledger in a state it should not be in: one for each proviso
    of the coherence guards, and one in which marking twice tags a row without a partner. The keyword
    table is arbitrary. */
module LedgerRuns {
  import opened Text
  import opened Like
  import opened Options
  import opened Engine
  import opened Matching
  import opened Ledger
  import Marking
  import Totals

  // ---------- Steps on small ledgers ----------

  lemma NormalWord(w: string)
    requires w != "" && forall i :: 0 <= i < |w| ==> 'A' <= w[i] <= 'Z'
    ensures Normalized(ASCII, w) == w
  {
    AsciiIsSane();
    assert ToUpper(ASCII, w) == w;
    RunsOfJoin(KeptBy(ASCII), [w]);
    assert Join([w]) == w;
  }

  lemma SomeAnswer(cfg: Config, rules: seq<Rule>, description: string) returns (category: string)
    ensures MayReturn(cfg, rules, description, category)
  {
    var order := SomeOrder(cfg.keywords);
    EveryOrderAllowed(cfg, rules, description, order, order);
    category := CategorizeIn(cfg, rules, description, order, order);
  }

  lemma IngestOne(cfg: Config, v: View, id: string, upload: string, line: Line) returns (t: Txn)
    requires Reachable(cfg, v) && forall i :: 0 <= i < |v.rows| ==> v.rows[i].id != id
    requires Marking.DistinctIds(v.rows)
    ensures Reachable(cfg, v.(rows := v.rows + [t]))
    ensures t == Txn(id, upload, line.date, line.cents, line.credit, t.category, Normalized(cfg.tb, line.description))
    ensures RowFor(cfg, v.rules, upload, line, t)
  {
    var c := SomeAnswer(cfg, NormalizedRules(cfg.tb, v.rules), line.description);
    t := Txn(id, upload, line.date, line.cents, line.credit, IngestCategory(line, c), Normalized(cfg.tb, line.description));
    assert RowFor(cfg, v.rules, upload, line, t);
    Advance(cfg, v, Ingest(upload, [line], [t]), v.(rows := v.rows + [t]));
  }

  lemma Recategorizes(cfg: Config, v: View, t: Txn, requested: string, category: string, done: Progress, v': View)
    requires Reachable(cfg, v) && t in v.rows
    requires v' == Recategorized(v, t.id, ResolvePattern(cfg.tb, requested, t.merchant), category, done)
    ensures Next(cfg, v, Recategorize(t.id, requested, category, done), v') && Reachable(cfg, v')
  {
    Advance(cfg, v, Recategorize(t.id, requested, category, done), v');
  }

  lemma OneRow(t: Txn, rules: seq<Rule>, pattern: string, category: string)
    ensures Recategorized(View([t], rules), t.id, pattern, category, Complete)
         == View([t.(category := category)], Upsert(rules, pattern, category))
  {
    var v' := Recategorized(View([t], rules), t.id, pattern, category, Complete);
    assert v'.rows[0] == t.(category := category);
  }

  lemma FirstRule(pattern: string, category: string)
    ensures Upsert([], pattern, category) == [Rule(pattern, category)]
  {}

  lemma SecondRule(known: Rule, pattern: string, category: string)
    requires pattern != known.pattern
    ensures Upsert([known], pattern, category) == [Rule(pattern, category), known]
  {
    assert [known][1..] == [];
    assert Place([known], pattern) == 1;
  }

  function Row(id: string, category: string, merchant: string): Txn {
    Txn(id, "u", 0, 1, false, category, merchant)
  }

  /** One ingested row, re-categorised once under a pattern of its own. */
  lemma OneRuledRow(cfg: Config, merchant: string, pattern: string, category: string)
    requires cfg.tb == ASCII && Normalized(ASCII, merchant) == merchant
    requires pattern != "" && Normalized(ASCII, pattern) == pattern
    ensures Reachable(cfg, View([Row("1", category, merchant)], [Rule(pattern, category)]))
    ensures Applies(pattern, merchant) ==> Coherent(View([Row("1", category, merchant)], [Rule(pattern, category)]))
  {
    EmptyIsReachable(cfg);
    var t := IngestOne(cfg, View([], []), "1", "u", Line(merchant, 0, 1, false));
    assert [] + [t] == [t];
    OneRow(t, [], pattern, category);
    FirstRule(pattern, category);
    Recategorizes(cfg, View([t], []), t, pattern, category, Complete,
                  View([Row("1", category, merchant)], [Rule(pattern, category)]));
  }

  lemma {:induction false} NoSuchLetter(s: string, c: char)
    requires c !in s
    ensures !Contains(s, [c])
    decreases |s|
  {
    if s != [] {
      NoSuchLetter(s[1..], c);
      assert s[0] != [c][0];
    }
  }

  lemma OneLetter()
    ensures Contains("A", "A") && Contains("AB", "A") && Contains("AB", "B")
    ensures !Contains("AB", "C") && !Contains("", "A")
  {
    assert "AB"[1..] == "B" && "B"[1..] == "";
    NoSuchLetter("AB", 'C');
    NoSuchLetter("", 'A');
    assert ['C'] == "C" && ['A'] == "A";
  }

  // ---------- Each proviso is needed ----------

  /** The row of a ledger that shows it incoherent. */
  lemma Disagrees(v: View, i: nat, category: string)
    requires i < |v.rows| && FirstMatch(v.rules, v.rows[i].merchant) == Some(category) && v.rows[i].category != category
    ensures !Coherent(v)
  {
    assert !Agrees(v.rules, v.rows[i].merchant, v.rows[i].category);
  }

  lemma NewestWins(newest: Rule, older: Rule, merchant: string)
    requires Applies(newest.pattern, merchant)
    ensures FirstMatch([newest], merchant) == FirstMatch([newest, older], merchant) == Some(newest.category)
  {}

  lemma OlderWins(newest: Rule, older: Rule, merchant: string)
    requires !Applies(newest.pattern, merchant) && Applies(older.pattern, merchant)
    ensures FirstMatch([newest, older], merchant) == Some(older.category)
  {
    assert [newest, older][1..] == [older];
  }

  lemma TwoRules(cfg: Config)
    requires cfg.tb == ASCII
    ensures Reachable(cfg, View([Row("1", "X", "AB")], [Rule("B", "X"), Rule("A", "Y")]))
  {
    NormalWord("A");
    NormalWord("B");
    NormalWord("AB");
    OneRuledRow(cfg, "AB", "A", "Y");
    var y := Row("1", "Y", "AB");
    OneRow(y, [Rule("A", "Y")], "B", "X");
    SecondRule(Rule("A", "Y"), "B", "X");
    Recategorizes(cfg, View([y], [Rule("A", "Y")]), y, "B", "X", Complete,
                  View([Row("1", "X", "AB")], [Rule("B", "X"), Rule("A", "Y")]));
  }

  lemma UpsertOlder(newest: Rule, older: Rule, category: string)
    requires newest.pattern != older.pattern
    ensures Upsert([newest, older], older.pattern, category) == [newest, Rule(older.pattern, category)]
  {
    assert [newest, older][1..] == [older];
    assert Place([newest, older], older.pattern) == 1;
  }

  /** Re-using an old pattern under a newer overlapping rule: the row gets Z, the engine would say X. */
  lemma ReusedPatternBreaks(cfg: Config) returns (v: View, v': View)
    requires cfg.tb == ASCII
    ensures Reachable(cfg, v) && Coherent(v) && Next(cfg, v, Recategorize("1", "A", "Z", Complete), v') && !Coherent(v')
  {
    TwoRules(cfg);
    NormalWord("A");
    OneLetter();
    var x := Row("1", "X", "AB");
    v := View([x], [Rule("B", "X"), Rule("A", "Y")]);
    v' := View([Row("1", "Z", "AB")], [Rule("B", "X"), Rule("A", "Z")]);
    OneRow(x, v.rules, "A", "Z");
    UpsertOlder(Rule("B", "X"), Rule("A", "Y"), "Z");
    Recategorizes(cfg, v, x, "A", "Z", Complete, v');
    NewestWins(Rule("B", "X"), Rule("A", "Y"), "AB");
    NewestWins(Rule("B", "X"), Rule("A", "Z"), "AB");
    Disagrees(v', 0, "X");
  }

  /** A requested pattern that the row itself does not contain. */
  lemma ForeignPatternBreaks(cfg: Config) returns (v: View, v': View)
    requires cfg.tb == ASCII
    ensures Reachable(cfg, v) && Coherent(v) && Next(cfg, v, Recategorize("1", "C", "Z", Complete), v') && !Coherent(v')
  {
    NormalWord("A");
    NormalWord("C");
    NormalWord("AB");
    OneLetter();
    OneRuledRow(cfg, "AB", "A", "X");
    var x := Row("1", "X", "AB");
    v := View([x], [Rule("A", "X")]);
    v' := View([Row("1", "Z", "AB")], [Rule("C", "Z"), Rule("A", "X")]);
    OneRow(x, v.rules, "C", "Z");
    SecondRule(Rule("A", "X"), "C", "Z");
    Recategorizes(cfg, v, x, "C", "Z", Complete, v');
    OlderWins(Rule("C", "Z"), Rule("A", "X"), "AB");
    Disagrees(v', 0, "X");
  }

  /** A rule that assigns "Uncategorized" meets a credit line: the row becomes Income. */
  lemma UncategorizedRuleBreaks(cfg: Config) returns (v: View, lines: seq<Line>, inserted: seq<Txn>, v': View)
    requires cfg.tb == ASCII
    ensures Reachable(cfg, v) && Coherent(v) && Next(cfg, v, Ingest("v", lines, inserted), v') && !Coherent(v')
  {
    NormalWord("A");
    OneLetter();
    OneRuledRow(cfg, "A", "A", UNCATEGORIZED);
    v := View([Row("1", UNCATEGORIZED, "A")], [Rule("A", UNCATEGORIZED)]);
    var line, t := Line("A", 0, 1, true), Txn("2", "v", 0, 1, true, INCOME, "A");
    lines, inserted, v' := [line], [t], View([Row("1", UNCATEGORIZED, "A"), t], v.rules);
    CreditBecomesIncome(cfg, line, t);
    IngestsOne(cfg, Row("1", UNCATEGORIZED, "A"), v.rules, "v", line, t);
    Disagrees(v', 1, UNCATEGORIZED);
  }

  lemma IngestsOne(cfg: Config, r: Txn, rules: seq<Rule>, upload: string, line: Line, t: Txn)
    requires r.id != t.id && RowFor(cfg, rules, upload, line, t)
    ensures Next(cfg, View([r], rules), Ingest(upload, [line], [t]), View([r, t], rules))
  {
    assert [r] + [t] == [r, t];
  }

  lemma CreditBecomesIncome(cfg: Config, line: Line, t: Txn)
    requires cfg.tb == ASCII && line == Line("A", 0, 1, true) && t == Txn("2", "v", 0, 1, true, INCOME, "A")
    ensures RowFor(cfg, [Rule("A", UNCATEGORIZED)], "v", line, t)
    ensures FirstMatch([Rule("A", UNCATEGORIZED)], "A") == Some(UNCATEGORIZED)
  {
    NormalWord("A");
    OneLetter();
    var rules := [Rule("A", UNCATEGORIZED)];
    assert NormalizedRules(cfg.tb, rules) == rules;
    assert MayReturn(cfg, rules, line.description, UNCATEGORIZED) && t.category == IngestCategory(line, UNCATEGORIZED);
  }

  lemma BlankIsNormal()
    ensures Normalized(ASCII, "") == ""
  {}

  lemma TwoIngested(cfg: Config, merchant: string) returns (t: Txn, a: Txn)
    requires cfg.tb == ASCII && Normalized(ASCII, merchant) == merchant
    ensures Reachable(cfg, View([t, a], []))
    ensures t == Row("1", t.category, merchant) && a == Row("2", a.category, "A")
  {
    NormalWord("A");
    EmptyIsReachable(cfg);
    t := IngestOne(cfg, View([], []), "1", "u", Line(merchant, 0, 1, false));
    assert [] + [t] == [t];
    a := IngestOne(cfg, View([t], []), "2", "u", Line("A", 0, 1, false));
    assert [t] + [a] == [t, a];
  }

  /** Two ingested rows, the second re-categorised under its own merchant. */
  lemma TwoRows(cfg: Config, merchant: string) returns (v: View, t: Txn)
    requires cfg.tb == ASCII && Normalized(ASCII, merchant) == merchant && !Contains(merchant, "A")
    ensures v == View([t, Row("2", "X", "A")], [Rule("A", "X")])
    ensures Reachable(cfg, v) && Coherent(v) && t == Row("1", t.category, merchant)
  {
    OneLetter();
    var a: Txn;
    t, a := TwoIngested(cfg, merchant);
    v := View([t, Row("2", "X", "A")], [Rule("A", "X")]);
    BlankIsNormal();
    SecondOfTwo(t, a, "A", "X");
    Recategorizes(cfg, View([t, a], []), a, "", "X", Complete, v);
    NewestWins(Rule("A", "X"), Rule("A", "X"), "A");
    OnlyRuleMisses(Rule("A", "X"), merchant);
    TwoAgree(v);
  }

  lemma SecondOfTwo(t: Txn, a: Txn, pattern: string, category: string)
    requires t.id != a.id && !Contains(t.merchant, pattern) && Plain(pattern)
    ensures Recategorized(View([t, a], []), a.id, pattern, category, Complete)
         == View([t, a.(category := category)], [Rule(pattern, category)])
  {
    LikeIsContains(t.merchant, pattern);
    FirstRule(pattern, category);
    var v' := Recategorized(View([t, a], []), a.id, pattern, category, Complete);
    assert v'.rows[0] == t && v'.rows[1] == a.(category := category);
  }

  /** The empty pattern, from a description without a kept character: every row is retagged, no rule applies. */
  lemma EmptyPatternBreaks(cfg: Config) returns (v: View, v': View)
    requires cfg.tb == ASCII
    ensures Reachable(cfg, v) && Coherent(v) && Next(cfg, v, Recategorize("1", "", "Z", Complete), v') && !Coherent(v')
  {
    OneLetter();
    BlankIsNormal();
    var t: Txn;
    v, t := TwoRows(cfg, "");
    v' := Recategorized(v, "1", "", "Z", Complete);
    Recategorizes(cfg, v, t, "", "Z", Complete, v');
    EmptyPatternDisagrees(t);
  }

  lemma TwoAgree(v: View)
    requires |v.rows| == 2 && Agrees(v.rules, v.rows[0].merchant, v.rows[0].category)
    requires Agrees(v.rules, v.rows[1].merchant, v.rows[1].category)
    ensures Coherent(v)
  {}

  lemma EmptyPatternRetags(t: Txn)
    requires t.id == "1"
    ensures var v' := Recategorized(View([t, Row("2", "X", "A")], [Rule("A", "X")]), "1", "", "Z", Complete);
            v'.rows[1] == Row("2", "Z", "A") && v'.rules == [Rule("", "Z"), Rule("A", "X")]
  {
    LikeIsContains("A", "");
    SecondRule(Rule("A", "X"), "", "Z");
  }

  lemma EmptyPatternDisagrees(t: Txn)
    requires t.id == "1"
    ensures !Coherent(Recategorized(View([t, Row("2", "X", "A")], [Rule("A", "X")]), "1", "", "Z", Complete))
  {
    OneLetter();
    EmptyPatternRetags(t);
    OlderWins(Rule("", "Z"), Rule("A", "X"), "A");
    Disagrees(Recategorized(View([t, Row("2", "X", "A")], [Rule("A", "X")]), "1", "", "Z", Complete), 1, "X");
  }

  /** The three statements of a re-categorisation are not one transaction: cut off after the first, the row
      disagrees with the old rule. */
  lemma CutAfterRowBreaks(cfg: Config) returns (v: View, v': View)
    requires cfg.tb == ASCII
    ensures Reachable(cfg, v) && Coherent(v) && Next(cfg, v, Recategorize("1", "", "Z", RowOnly), v') && !Coherent(v')
  {
    NormalWord("A");
    OneLetter();
    OneRuledRow(cfg, "A", "A", "X");
    var x := Row("1", "X", "A");
    v := View([x], [Rule("A", "X")]);
    v' := View([Row("1", "Z", "A")], [Rule("A", "X")]);
    BlankIsNormal();
    assert Recategorized(v, "1", "A", "Z", RowOnly).rows[0] == Row("1", "Z", "A");
    assert v' == Recategorized(v, "1", "A", "Z", RowOnly);
    Recategorizes(cfg, v, x, "", "Z", RowOnly, v');
    assert !Agrees(v'.rules, v'.rows[0].merchant, v'.rows[0].category);
  }

  lemma OnlyRuleMisses(r: Rule, merchant: string)
    requires !Applies(r.pattern, merchant)
    ensures FirstMatch([r], merchant) == None
  {}

  lemma OtherRowLags(t: Txn)
    requires t.id == "1"
    ensures var v' := Recategorized(View([t, Row("2", "X", "A")], [Rule("A", "X")]), "1", "A", "Z", RowAndRule);
            v'.rows[1] == Row("2", "X", "A") && v'.rules == [Rule("A", "Z")]
  {}

  /** Cut off after the second, the other rows of the merchant disagree with the new rule. */
  lemma CutAfterRuleBreaks(cfg: Config) returns (v: View, v': View)
    requires cfg.tb == ASCII
    ensures Reachable(cfg, v) && Coherent(v) && Next(cfg, v, Recategorize("1", "A", "Z", RowAndRule), v') && !Coherent(v')
  {
    NormalWord("A");
    NormalWord("B");
    NoSuchLetter("B", 'A');
    OneLetter();
    var t: Txn;
    v, t := TwoRows(cfg, "B");
    v' := Recategorized(v, "1", "A", "Z", RowAndRule);
    Recategorizes(cfg, v, t, "A", "Z", RowAndRule, v');
    OtherRowLags(t);
    NewestWins(Rule("A", "Z"), Rule("A", "X"), "A");
    Disagrees(v', 1, "Z");
  }

  // ---------- Marking twice under ties ----------

  function Side(id: string, upload: string, credit: bool, category: string): Txn {
    Txn(id, upload, 0, 5, credit, category, "")
  }

  /** Two equal debits and one credit: the debit scanned first gets the credit. */
  lemma TiePairs(a: Txn, b: Txn, z: Txn)
    requires a == Side(a.id, "u", false, a.category) && b == Side(b.id, "u", false, b.category)
    requires z == Side(z.id, "v", true, z.category)
    ensures Pairs([a, b, z]) == {Edge(0, 2)}
  {
    var txns, m := [a, b, z], {Edge(0, 2)};
    assert Before(txns, Edge(0, 2), Edge(1, 2)) && Blocked(txns, m, Edge(1, 2));
    assert !Blocked(txns, m, Edge(0, 2));
    forall e ensures Admissible(txns, e) <==> e == Edge(0, 2) || e == Edge(1, 2) {}
    StableIsUnique(txns, m, Pairs(txns));
  }

  lemma TieWinner(a: Txn, b: Txn, z: Txn)
    requires a == Side(a.id, "u", false, a.category) && b == Side(b.id, "u", false, b.category)
    requires z == Side(z.id, "v", true, z.category)
    requires a.id != b.id && a.id != z.id && b.id != z.id
    ensures Marking.MatchedId([a, b, z], a.id) && Marking.MatchedId([a, b, z], z.id) && !Marking.MatchedId([a, b, z], b.id)
  {
    var txns := [a, b, z];
    TiePairs(a, b, z);
    assert Edge(0, 2) in Pairs(txns) && Marking.Matched(txns, 0) && Marking.Matched(txns, 2);
    assert txns[0].id == a.id && txns[2].id == z.id;
  }

  lemma {:induction false} AllEligible(rows: seq<Txn>)
    ensures Marking.Eligible([], rows) == rows
    decreases |rows|
  {
    if rows != [] {
      AllEligible(rows[..|rows| - 1]);
      assert rows == rows[..|rows| - 1] + [rows[|rows| - 1]];
    }
  }

  function Tag(t: Txn): Txn {
    t.(category := TRANSFERS)
  }

  lemma TieMarked(a: Txn, b: Txn, z: Txn)
    requires a == Side(a.id, "u", false, a.category) && b == Side(b.id, "u", false, b.category)
    requires z == Side(z.id, "v", true, z.category)
    requires a.id != b.id && a.id != z.id && b.id != z.id
    ensures Marking.Marked([], [a, b, z], [Tag(a), b, Tag(z)])
  {
    TieWinner(a, b, z);
    AllEligible([a, b, z]);
  }

  lemma MarksTie(cfg: Config, a: Txn, b: Txn, z: Txn)
    requires a == Side(a.id, "u", false, a.category) && b == Side(b.id, "u", false, b.category)
    requires z == Side(z.id, "v", true, z.category)
    requires a.id != b.id && a.id != z.id && b.id != z.id
    ensures Next(cfg, View([a, b, z], []), MarkTransfers, View([Tag(a), b, Tag(z)], []))
  {
    TieMarked(a, b, z);
    assert NormalizedRules(cfg.tb, []) == [];
  }

  lemma NetOfThree(a: Txn, b: Txn, z: Txn)
    requires a == Side(a.id, "u", false, a.category) && b == Side(b.id, "u", false, b.category)
    requires z == Side(z.id, "v", true, z.category)
    ensures Totals.Net([a, b, z]) == (if z.category == TRANSFERS then 0 else 5)
                                   - (if a.category == TRANSFERS then 0 else 5) - (if b.category == TRANSFERS then 0 else 5)
  {
    FlowNext([a, b], z);
    FlowNext([a], b);
    FlowNext([], a);
    assert [a, b] + [z] == [a, b, z] && [a] + [b] == [a, b] && [] + [a] == [a];
  }

  lemma FlowNext(rows: seq<Txn>, t: Txn)
    ensures Totals.Net(rows + [t]) == Totals.Net(rows)
              + if t.category == TRANSFERS then 0 else if t.credit then t.cents else 0 - t.cents
  {
    assert (rows + [t])[..|rows|] == rows;
  }

  /** Two equal debits of one statement and one credit of another, without a letter or digit in their
      descriptions. */
  const X := Side("x", "u", false, UNCATEGORIZED)
  const Y := Side("y", "u", false, UNCATEGORIZED)
  const Z := Side("z", "v", true, INCOME)

  lemma TwoDebits(cfg: Config)
    requires cfg.tb == ASCII
    ensures Reachable(cfg, View([X, Y], []))
  {
    BlankIsNormal();
    EmptyIsReachable(cfg);
    var x := IngestOne(cfg, View([], []), "x", "u", Line("", 0, 5, false));
    assert [] + [x] == [x] && x == X;
    var y := IngestOne(cfg, View([x], []), "y", "u", Line("", 0, 5, false));
    assert [x] + [y] == [x, y] && y == Y;
  }

  lemma ThreeRows(cfg: Config)
    requires cfg.tb == ASCII
    ensures Reachable(cfg, View([X, Y, Z], []))
  {
    BlankIsNormal();
    TwoDebits(cfg);
    var z := IngestOne(cfg, View([X, Y], []), "z", "v", Line("", 0, 5, true));
    assert [X, Y] + [z] == [X, Y, z] && z == Z;
  }

  lemma SwapFirstTwo(cfg: Config, a: Txn, b: Txn, z: Txn)
    ensures Next(cfg, View([a, b, z], []), Reorder, View([b, a, z], []))
  {
    assert [a, b, z] == [a] + [b] + [z] && [b, a, z] == [b] + [a] + [z];
  }

  /** From an empty account: the first marking tags X and Z. The next scan returns Y first, and the second
      marking tags Y as well, which has no partner left: each scan pairs Z with one debit. Net goes from -5
      over -5 to 0. */
  lemma MarkingTwiceTagsAStray(cfg: Config)
    requires cfg.tb == ASCII
    ensures Reachable(cfg, View([X, Y, Z], []))
    ensures Next(cfg, View([X, Y, Z], []), MarkTransfers, View([Tag(X), Y, Tag(Z)], []))
    ensures Next(cfg, View([Tag(X), Y, Tag(Z)], []), Reorder, View([Y, Tag(X), Tag(Z)], []))
    ensures Next(cfg, View([Y, Tag(X), Tag(Z)], []), MarkTransfers, View([Tag(Y), Tag(X), Tag(Z)], []))
    ensures Pairs([X, Y, Z]) == {Edge(0, 2)} && Pairs([Y, Tag(X), Tag(Z)]) == {Edge(0, 2)}
    ensures Totals.Net([X, Y, Z]) == -5 && Totals.Net([Tag(X), Y, Tag(Z)]) == -5
    ensures Totals.Net([Tag(Y), Tag(X), Tag(Z)]) == 0
  {
    ThreeRows(cfg);
    MarksTie(cfg, X, Y, Z);
    SwapFirstTwo(cfg, Tag(X), Y, Tag(Z));
    assert Tag(Tag(Z)) == Tag(Z);
    MarksTie(cfg, Y, Tag(X), Tag(Z));
    TiePairs(X, Y, Z);
    TiePairs(Y, Tag(X), Tag(Z));
    NetOfThree(X, Y, Z);
    NetOfThree(Tag(X), Y, Tag(Z));
    NetOfThree(Tag(Y), Tag(X), Tag(Z));
  }
}
