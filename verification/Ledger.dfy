/** The ledger as a materialised view of the user's rules: every row that some rule matches carries the
    category of the newest matching rule. Which steps keep that true, exactly. */
module Ledger {
  import opened Text
  import opened Like
  import opened Options
  import opened Sequences
  import opened Engine
  import opened Matching
  import Marking
  import ScanOrder

  const INCOME := "Income"

  /** One user's part of the database: ledger rows, and rules newest first. */
  datatype View = View(rows: seq<Txn>, rules: seq<Rule>)

  /** A parsed statement line. */
  datatype Line = Line(description: string, date: int, cents: int, credit: bool)

  // ---------- Statements on values ----------

  function Retag(rows: seq<Txn>, pattern: string, category: string): (r: seq<Txn>)
    ensures |r| == |rows|
  {
    seq(|rows|, i requires 0 <= i < |rows| =>
      if Retagged(pattern, rows[i].merchant) then rows[i].(category := category) else rows[i])
  }

  /** Position of the rule with this pattern, or the number of rules. */
  function Place(rules: seq<Rule>, pattern: string): (k: nat)
    ensures k <= |rules| && (k < |rules| ==> rules[k].pattern == pattern)
    ensures forall i :: 0 <= i < k ==> rules[i].pattern != pattern
  {
    if rules == [] || rules[0].pattern == pattern then 0 else 1 + Place(rules[1..], pattern)
  }

  /** A new pattern becomes the newest rule; a known one changes category but keeps its age. */
  function Upsert(rules: seq<Rule>, pattern: string, category: string): seq<Rule> {
    var k := Place(rules, pattern);
    if k < |rules| then rules[k := Rule(pattern, category)] else [Rule(pattern, category)] + rules
  }

  /** The rules newer than the one for this pattern once it is upserted. */
  function Newer(rules: seq<Rule>, pattern: string): seq<Rule> {
    var k := Place(rules, pattern);
    if k < |rules| then rules[..k] else []
  }

  /** The pattern the handler stores: the normalised request, or the merchant if that is empty. */
  function ResolvePattern(tb: Tables, requested: string, merchant: string): string {
    var p := Normalized(tb, requested);
    if p == "" then merchant else p
  }

  ghost predicate HasRow(rows: seq<Txn>, id: string) {
    exists t :: t in rows && t.id == id
  }

  /** How many of the three statements of a re-categorisation took effect before the handler returned. */
  datatype Progress = Nothing | RowOnly | RowAndRule | Complete

  function Recategorized(v: View, id: string, pattern: string, category: string, done: Progress): View {
    var rows := Marking.SetCategory(v.rows, [id], category);
    match done
    case Nothing => v
    case RowOnly => v.(rows := rows)
    case RowAndRule => View(rows, Upsert(v.rules, pattern, category))
    case Complete => View(Retag(rows, pattern, category), Upsert(v.rules, pattern, category))
  }

  // ---------- The claim ----------

  /** The row agrees with the newest rule that matches its merchant, if there is one. */
  ghost predicate Agrees(rules: seq<Rule>, merchant: string, category: string) {
    FirstMatch(rules, merchant).Some? ==> FirstMatch(rules, merchant).value == category
  }

  ghost predicate Coherent(v: View) {
    forall i :: 0 <= i < |v.rows| ==> Agrees(v.rules, v.rows[i].merchant, v.rows[i].category)
  }

  ghost predicate DistinctPatterns(rules: seq<Rule>) {
    forall i, j :: 0 <= i < j < |rules| ==> rules[i].pattern != rules[j].pattern
  }

  /** What the tables themselves guarantee: unique ids and patterns, and normalised merchants and patterns. */
  ghost predicate WellFormed(tb: Tables, v: View) {
    && Marking.DistinctIds(v.rows) && DistinctPatterns(v.rules)
    && (forall i :: 0 <= i < |v.rows| ==> Normalized(tb, v.rows[i].merchant) == v.rows[i].merchant)
    && (forall i :: 0 <= i < |v.rules| ==> Normalized(tb, v.rules[i].pattern) == v.rules[i].pattern)
  }

  lemma StoredRulesUnchanged(tb: Tables, v: View)
    requires WellFormed(tb, v)
    ensures NormalizedRules(tb, v.rules) == v.rules
  {}

  // ---------- First match and upsert ----------

  /** The rules of other patterns, in order. */
  function Without(rules: seq<Rule>, pattern: string): seq<Rule> {
    if rules == [] then []
    else (if rules[0].pattern == pattern then [] else [rules[0]]) + Without(rules[1..], pattern)
  }

  lemma {:induction false} WithoutUpdated(rules: seq<Rule>, k: nat, r: Rule)
    requires k < |rules| && rules[k].pattern == r.pattern
    ensures Without(rules[k := r], r.pattern) == Without(rules, r.pattern)
    decreases |rules|
  {
    if k == 0 {
      assert rules[k := r][1..] == rules[1..];
    } else {
      WithoutUpdated(rules[1..], k - 1, r);
      assert rules[k := r][1..] == rules[1..][k - 1 := r];
    }
  }

  /** The pattern is stored once, with the category; a known pattern keeps its place among the rules and
      a new one becomes the newest; no other rule changes or moves. */
  ghost predicate Stored(rules: seq<Rule>, pattern: string, category: string, rules': seq<Rule>) {
    var k := if Place(rules, pattern) < |rules| then Place(rules, pattern) else 0;
    && DistinctPatterns(rules')
    && k < |rules'| && rules'[k] == Rule(pattern, category)
    && Without(rules', pattern) == Without(rules, pattern)
  }

  lemma UpsertEffect(rules: seq<Rule>, pattern: string, category: string)
    requires DistinctPatterns(rules)
    ensures Stored(rules, pattern, category, Upsert(rules, pattern, category))
  {
    var k, r := Place(rules, pattern), Rule(pattern, category);
    if k < |rules| {
      WithoutUpdated(rules, k, r);
    } else {
      assert ([r] + rules)[1..] == rules;
    }
  }

  lemma {:induction false} FirstMatchOver(newer: seq<Rule>, older: seq<Rule>, merchant: string)
    ensures FirstMatch(newer + older, merchant)
         == if FirstMatch(newer, merchant).Some? then FirstMatch(newer, merchant) else FirstMatch(older, merchant)
    decreases |newer|
  {
    if newer == [] {
      assert newer + older == older;
    } else {
      assert (newer + older)[1..] == newer[1..] + older;
      FirstMatchOver(newer[1..], older, merchant);
    }
  }

  lemma FirstMatchHead(r: Rule, older: seq<Rule>, merchant: string)
    ensures FirstMatch([r] + older, merchant)
         == if Applies(r.pattern, merchant) then Some(r.category) else FirstMatch(older, merchant)
  {
    assert ([r] + older)[1..] == older;
  }

  /** The newest match after an upsert: rules newer than the upserted one still win. */
  lemma FirstMatchUpserted(rules: seq<Rule>, pattern: string, category: string, merchant: string)
    ensures FirstMatch(Upsert(rules, pattern, category), merchant)
         == if !Applies(pattern, merchant) then FirstMatch(rules, merchant)
            else if FirstMatch(Newer(rules, pattern), merchant).Some? then FirstMatch(Newer(rules, pattern), merchant)
            else Some(category)
  {
    var k, r := Place(rules, pattern), Rule(pattern, category);
    if k < |rules| {
      UpdateSplits(rules, k, r);
      FirstMatchOver(rules[..k], [rules[k]] + rules[k + 1..], merchant);
      FirstMatchOver(rules[..k], [r] + rules[k + 1..], merchant);
      FirstMatchHead(rules[k], rules[k + 1..], merchant);
      FirstMatchHead(r, rules[k + 1..], merchant);
    } else {
      FirstMatchHead(r, rules, merchant);
    }
  }

  lemma {:induction false} FirstMatchApplies(rules: seq<Rule>, merchant: string) returns (i: nat)
    requires FirstMatch(rules, merchant).Some?
    ensures i < |rules| && Applies(rules[i].pattern, merchant)
    ensures rules[i].category == FirstMatch(rules, merchant).value
    decreases |rules|
  {
    if Applies(rules[0].pattern, merchant) {
      i := 0;
    } else {
      i := FirstMatchApplies(rules[1..], merchant);
      i := i + 1;
    }
  }

  // ---------- Recategorising ----------

  ghost predicate Touched(t: Txn, id: string, pattern: string) {
    t.id == id || Retagged(pattern, t.merchant)
  }

  /** The stored rule loses to the newer ones if its pattern applies to the row, and to any if it does not.
      (It does not apply when it is empty, or when the row's merchant does not contain it.) */
  ghost predicate Outranks(rules: seq<Rule>, t: Txn, pattern: string, category: string) {
    Agrees(if Applies(pattern, t.merchant) then Newer(rules, pattern) else rules, t.merchant, category)
  }

  /** Once stored, the rule is the one that decides the row. */
  ghost predicate NewlyDecides(rules: seq<Rule>, t: Txn, pattern: string) {
    Applies(pattern, t.merchant) && FirstMatch(Newer(rules, pattern), t.merchant).None?
  }

  /** The condition on one row, according to where the re-categorisation stops. */
  ghost predicate RowAllows(rules: seq<Rule>, t: Txn, id: string, pattern: string, category: string, done: Progress) {
    match done
    case Nothing => true
    case RowOnly => t.id == id ==> Agrees(rules, t.merchant, category)
    case RowAndRule =>
      if t.id == id then Outranks(rules, t, pattern, category)
      else NewlyDecides(rules, t, pattern) ==> t.category == category
    case Complete => Touched(t, id, pattern) ==> Outranks(rules, t, pattern, category)
  }

  /** Checkable before the call. */
  ghost predicate SafeToRecategorize(v: View, id: string, pattern: string, category: string, done: Progress) {
    forall i :: 0 <= i < |v.rows| ==> RowAllows(v.rules, v.rows[i], id, pattern, category, done)
  }

  ghost predicate AgreesAt(v: View, i: nat) {
    i < |v.rows| ==> Agrees(v.rules, v.rows[i].merchant, v.rows[i].category)
  }

  lemma CutAfterRow(v: View, id: string, pattern: string, category: string, i: nat)
    requires i < |v.rows| && AgreesAt(v, i)
    ensures RowAllows(v.rules, v.rows[i], id, pattern, category, RowOnly)
       <==> AgreesAt(Recategorized(v, id, pattern, category, RowOnly), i)
  {}

  lemma CutAfterRule(v: View, id: string, pattern: string, category: string, i: nat)
    requires i < |v.rows| && AgreesAt(v, i)
    ensures RowAllows(v.rules, v.rows[i], id, pattern, category, RowAndRule)
       <==> AgreesAt(Recategorized(v, id, pattern, category, RowAndRule), i)
  {
    FirstMatchUpserted(v.rules, pattern, category, v.rows[i].merchant);
    if FirstMatch(Newer(v.rules, pattern), v.rows[i].merchant).Some? {
      NewerWins(v.rules, pattern, v.rows[i].merchant);
    }
  }

  lemma CompleteRow(v: View, id: string, pattern: string, category: string, i: nat)
    requires i < |v.rows| && Plain(pattern) && AgreesAt(v, i)
    ensures RowAllows(v.rules, v.rows[i], id, pattern, category, Complete)
       <==> AgreesAt(Recategorized(v, id, pattern, category, Complete), i)
  {
    FirstMatchUpserted(v.rules, pattern, category, v.rows[i].merchant);
    LikeIsContains(v.rows[i].merchant, pattern);
  }

  /** A match among the newer rules is the match. */
  lemma NewerWins(rules: seq<Rule>, pattern: string, merchant: string)
    requires FirstMatch(Newer(rules, pattern), merchant).Some?
    ensures FirstMatch(rules, merchant) == FirstMatch(Newer(rules, pattern), merchant)
  {
    var k := Place(rules, pattern);
    FirstMatchOver(rules[..k], rules[k..], merchant);
    assert rules == rules[..k] + rules[k..];
  }

  /** A re-categorisation that stops after any of its statements leaves the ledger coherent exactly when
      the guard for that point holds. */
  lemma RecategorizeCoherentIff(v: View, id: string, pattern: string, category: string, done: Progress)
    requires Coherent(v) && Plain(pattern)
    ensures Coherent(Recategorized(v, id, pattern, category, done)) <==> SafeToRecategorize(v, id, pattern, category, done)
  {
    var v' := Recategorized(v, id, pattern, category, done);
    forall i: nat | i < |v.rows| ensures RowAllows(v.rules, v.rows[i], id, pattern, category, done) <==> AgreesAt(v', i) {
      assert AgreesAt(v, i);
      match done
      case Nothing =>
      case RowOnly => CutAfterRow(v, id, pattern, category, i);
      case RowAndRule => CutAfterRule(v, id, pattern, category, i);
      case Complete => CompleteRow(v, id, pattern, category, i);
    }
    assert Coherent(v') <==> forall i: nat :: i < |v.rows| ==> AgreesAt(v', i);
  }

  /** After the first statement alone: exactly when the existing rules already say the new category. */
  lemma FirstStatementCoherentIff(v: View, id: string, pattern: string, category: string)
    requires Coherent(v) && Plain(pattern)
    ensures Coherent(Recategorized(v, id, pattern, category, RowOnly))
       <==> forall t :: t in v.rows && t.id == id ==> Agrees(v.rules, t.merchant, category)
  {
    RecategorizeCoherentIff(v, id, pattern, category, RowOnly);
    if SafeToRecategorize(v, id, pattern, category, RowOnly) {
      forall t | t in v.rows && t.id == id ensures Agrees(v.rules, t.merchant, category) {
        var i :| 0 <= i < |v.rows| && v.rows[i] == t;
        assert RowAllows(v.rules, v.rows[i], id, pattern, category, RowOnly);
      }
    }
  }

  /** After the first two: exactly when the row itself is claimed for no other category by a rule that
      outranks the stored one, and every other row that the stored rule now decides already has the category. */
  lemma TwoStatementsCoherentIff(v: View, id: string, pattern: string, category: string)
    requires Coherent(v) && Plain(pattern)
    ensures Coherent(Recategorized(v, id, pattern, category, RowAndRule))
       <==> forall t :: t in v.rows ==>
              if t.id == id then Outranks(v.rules, t, pattern, category)
              else NewlyDecides(v.rules, t, pattern) ==> t.category == category
  {
    RecategorizeCoherentIff(v, id, pattern, category, RowAndRule);
    if SafeToRecategorize(v, id, pattern, category, RowAndRule) {
      forall t | t in v.rows ensures RowAllows(v.rules, t, id, pattern, category, RowAndRule) {
        var i :| 0 <= i < |v.rows| && v.rows[i] == t;
        assert RowAllows(v.rules, v.rows[i], id, pattern, category, RowAndRule);
      }
    }
  }

  /** The common case: a non-empty pattern that the target's merchant contains is safe as long as no
      newer rule claims a row it matches for another category. A pattern not stored yet has no newer
      rule at all. */
  lemma ContainedPatternIsSafe(v: View, id: string, pattern: string, category: string)
    requires Plain(pattern) && pattern != ""
    requires forall i :: 0 <= i < |v.rows| && v.rows[i].id == id ==> Contains(v.rows[i].merchant, pattern)
    requires forall i, k :: 0 <= i < |v.rows| && 0 <= k < |Newer(v.rules, pattern)|
               && Applies(pattern, v.rows[i].merchant) && Applies(Newer(v.rules, pattern)[k].pattern, v.rows[i].merchant)
               ==> Newer(v.rules, pattern)[k].category == category
    ensures SafeToRecategorize(v, id, pattern, category, Complete)
  {
    forall i | 0 <= i < |v.rows| ensures RowAllows(v.rules, v.rows[i], id, pattern, category, Complete) {
      var m := v.rows[i].merchant;
      LikeIsContains(m, pattern);
      if Touched(v.rows[i], id, pattern) && FirstMatch(Newer(v.rules, pattern), m).Some? {
        var k := FirstMatchApplies(Newer(v.rules, pattern), m);
      }
    }
  }

  // ---------- Ingesting ----------

  /** An uncategorised credit is income. */
  function IngestCategory(line: Line, category: string): string {
    if line.credit && category == UNCATEGORIZED then INCOME else category
  }

  /** A row the worker may insert for a parsed line of an upload. */
  ghost predicate RowFor(cfg: Config, rules: seq<Rule>, upload: string, line: Line, t: Txn) {
    && t.upload == upload && t.date == line.date && t.cents == line.cents && t.credit == line.credit
    && t.merchant == Normalized(cfg.tb, line.description)
    && exists c :: MayReturn(cfg, NormalizedRules(cfg.tb, rules), line.description, c) && t.category == IngestCategory(line, c)
  }

  /** The inserted row in plain terms: what the line says, its normalised text, and an answer of the engine
      under the user's rules, which for a credit nothing claims is income. */
  ghost predicate RowSays(cfg: Config, rules: seq<Rule>, upload: string, line: Line, t: Txn) {
    && t.upload == upload && t.date == line.date && t.cents == line.cents && t.credit == line.credit
    && Normalizes(cfg.tb, line.description, t.merchant)
    && exists c :: Answers(cfg, NormalizedRules(cfg.tb, rules), line.description, c)
         && t.category == if line.credit && c == "Uncategorized" then "Income" else c
  }

  lemma RowSaysIff(cfg: Config, rules: seq<Rule>, upload: string, line: Line, t: Txn)
    ensures RowFor(cfg, rules, upload, line, t) <==> RowSays(cfg, rules, upload, line, t)
  {
    NormalizedIff(cfg.tb, line.description, t.merchant);
    if RowFor(cfg, rules, upload, line, t) {
      var c :| MayReturn(cfg, NormalizedRules(cfg.tb, rules), line.description, c) && t.category == IngestCategory(line, c);
      AnswersIff(cfg, NormalizedRules(cfg.tb, rules), line.description, c);
    }
    if RowSays(cfg, rules, upload, line, t) {
      var c :| Answers(cfg, NormalizedRules(cfg.tb, rules), line.description, c)
        && t.category == if line.credit && c == "Uncategorized" then "Income" else c;
      AnswersIff(cfg, NormalizedRules(cfg.tb, rules), line.description, c);
    }
  }

  ghost predicate RowsFor(cfg: Config, rules: seq<Rule>, upload: string, lines: seq<Line>, rows: seq<Txn>) {
    |rows| == |lines| && forall i :: 0 <= i < |lines| ==> RowFor(cfg, rules, upload, lines[i], rows[i])
  }

  lemma RowsSay(cfg: Config, rules: seq<Rule>, upload: string, lines: seq<Line>, rows: seq<Txn>)
    requires RowsFor(cfg, rules, upload, lines, rows)
    ensures forall i :: 0 <= i < |lines| ==> RowSays(cfg, rules, upload, lines[i], rows[i])
  {
    forall i | 0 <= i < |lines| ensures RowSays(cfg, rules, upload, lines[i], rows[i]) {
      RowSaysIff(cfg, rules, upload, lines[i], rows[i]);
    }
  }

  /** Checkable before the call: no credit line is claimed by a rule that assigns "Uncategorized". */
  ghost predicate SafeToIngest(cfg: Config, rules: seq<Rule>, lines: seq<Line>) {
    forall i :: 0 <= i < |lines| && lines[i].credit ==>
      FirstMatch(rules, Normalized(cfg.tb, lines[i].description)) != Some(UNCATEGORIZED)
  }

  lemma NothingAppliesToBlank(rules: seq<Rule>)
    ensures FirstMatch(rules, "") == None
    decreases |rules|
  {
    if rules != [] {
      NothingAppliesToBlank(rules[1..]);
      assert !Applies(rules[0].pattern, "");
    }
  }

  lemma IngestedRow(cfg: Config, v: View, upload: string, line: Line, t: Txn)
    requires WellFormed(cfg.tb, v) && RowFor(cfg, v.rules, upload, line, t)
    ensures Agrees(v.rules, t.merchant, t.category)
       <==> !(line.credit && FirstMatch(v.rules, t.merchant) == Some(UNCATEGORIZED))
    ensures FirstMatch(v.rules, t.merchant).Some? ==>
              t.category == IngestCategory(line, FirstMatch(v.rules, t.merchant).value)
  {
    StoredRulesUnchanged(cfg.tb, v);
    NothingAppliesToBlank(v.rules);
    assert UNCATEGORIZED != INCOME;
  }

  /** Ingesting keeps the ledger coherent exactly when the guard holds. */
  lemma IngestCoherentIff(cfg: Config, v: View, upload: string, lines: seq<Line>, rows: seq<Txn>)
    requires WellFormed(cfg.tb, v) && Coherent(v) && RowsFor(cfg, v.rules, upload, lines, rows)
    ensures Coherent(v.(rows := v.rows + rows)) <==> SafeToIngest(cfg, v.rules, lines)
  {
    var v' := v.(rows := v.rows + rows);
    forall i | 0 <= i < |lines|
      ensures Agrees(v.rules, rows[i].merchant, rows[i].category)
         <==> !(lines[i].credit && FirstMatch(v.rules, Normalized(cfg.tb, lines[i].description)) == Some(UNCATEGORIZED))
      ensures rows[i] == v'.rows[|v.rows| + i]
    {
      IngestedRow(cfg, v, upload, lines[i], rows[i]);
    }
    if SafeToIngest(cfg, v.rules, lines) {
      forall j | 0 <= j < |v'.rows| ensures Agrees(v'.rules, v'.rows[j].merchant, v'.rows[j].category) {
        if j >= |v.rows| {
          assert v'.rows[j] == rows[j - |v.rows|];
        }
      }
    }
  }

  // ---------- Transfer marking ----------

  /** Marking always keeps the ledger coherent: the matcher never overrides a rule. */
  lemma MarkingKeepsCoherence(v: View, rows': seq<Txn>)
    requires Marking.DistinctIds(v.rows) && Coherent(v) && Marking.Marked(v.rules, v.rows, rows')
    ensures Coherent(v.(rows := rows'))
  {
    forall i | 0 <= i < |rows'| ensures Agrees(v.rules, rows'[i].merchant, rows'[i].category) {
      if rows'[i] != v.rows[i] {
        Marking.MatchedRowIsEligible(v.rules, v.rows, v.rows[i]);
        if FirstMatch(v.rules, v.rows[i].merchant).Some? {
          var k := FirstMatchApplies(v.rules, v.rows[i].merchant);
        }
      }
    }
  }

  // ---------- Runs ----------

  /** What can happen to the ledger. The table has no order, so it may also be returned in another one. */
  datatype Step =
    | Ingest(upload: string, lines: seq<Line>, inserted: seq<Txn>)
    | MarkTransfers
    | Clear
    | Recategorize(id: string, requested: string, category: string, done: Progress)
    | Reorder

  ghost predicate Next(cfg: Config, v: View, step: Step, v': View) {
    match step
    case Ingest(upload, lines, inserted) =>
      && RowsFor(cfg, v.rules, upload, lines, inserted)
      && Marking.DistinctIds(v.rows + inserted)
      && v' == v.(rows := v.rows + inserted)
    case MarkTransfers =>
      Marking.Marked(NormalizedRules(cfg.tb, v.rules), v.rows, v'.rows) && v'.rules == v.rules
    case Clear =>
      v' == v.(rows := [])
    case Recategorize(id, requested, category, done) =>
      if HasRow(v.rows, id) then
        exists t :: t in v.rows && t.id == id
          && v' == Recategorized(v, id, ResolvePattern(cfg.tb, requested, t.merchant), category, done)
      else v' == v
    case Reorder =>
      multiset(v'.rows) == multiset(v.rows) && v'.rules == v.rules
  }

  /** The guard of a step, on the state before it. */
  ghost predicate SafeStep(cfg: Config, v: View, step: Step) {
    match step
    case Ingest(_, lines, _) => SafeToIngest(cfg, v.rules, lines)
    case Recategorize(id, requested, category, done) =>
      forall t :: t in v.rows && t.id == id ==>
        SafeToRecategorize(v, id, ResolvePattern(cfg.tb, requested, t.merchant), category, done)
    case _ => true
  }

  lemma ResolvedIsNormal(cfg: Config, v: View, requested: string, t: Txn)
    requires cfg.tb.Sane() && WellFormed(cfg.tb, v) && t in v.rows
    ensures var p := ResolvePattern(cfg.tb, requested, t.merchant); Normalized(cfg.tb, p) == p && Plain(p)
  {
    Idempotent(cfg.tb, requested);
    NormalizedIsTidy(cfg.tb, requested);
    NormalizedIsTidy(cfg.tb, t.merchant);
  }

  lemma ReorderKeeps(tb: Tables, v: View, v': View)
    requires multiset(v'.rows) == multiset(v.rows) && v'.rules == v.rules && WellFormed(tb, v)
    ensures WellFormed(tb, v') && (Coherent(v) <==> Coherent(v'))
  {
    ScanOrder.SameElements(v.rows, v'.rows);
    forall i | 0 <= i < |v'.rows| ensures v'.rows[i] in v.rows {}
    forall i | 0 <= i < |v.rows| ensures v.rows[i] in v'.rows {}
    ScanOrder.DistinctByCount(v.rows, v'.rows);
  }

  lemma IngestKeepsWellFormed(cfg: Config, v: View, upload: string, lines: seq<Line>, inserted: seq<Txn>)
    requires cfg.tb.Sane() && WellFormed(cfg.tb, v) && RowsFor(cfg, v.rules, upload, lines, inserted)
    requires Marking.DistinctIds(v.rows + inserted)
    ensures WellFormed(cfg.tb, v.(rows := v.rows + inserted))
  {
    forall i | 0 <= i < |inserted| ensures Normalized(cfg.tb, inserted[i].merchant) == inserted[i].merchant {
      assert RowFor(cfg, v.rules, upload, lines[i], inserted[i]);
      Idempotent(cfg.tb, lines[i].description);
    }
  }

  /** The rows of the one list are those of the other, categories aside. */
  ghost predicate SameRows(a: seq<Txn>, b: seq<Txn>) {
    |a| == |b| && forall i :: 0 <= i < |a| ==> b[i].id == a[i].id && b[i].merchant == a[i].merchant
  }

  lemma SameRowsKeepWellFormed(tb: Tables, v: View, v': View)
    requires WellFormed(tb, v) && SameRows(v.rows, v'.rows) && v'.rules == v.rules
    ensures WellFormed(tb, v')
  {}

  lemma UpsertKeepsWellFormed(tb: Tables, v: View, pattern: string, category: string)
    requires WellFormed(tb, v) && Normalized(tb, pattern) == pattern
    ensures WellFormed(tb, v.(rules := Upsert(v.rules, pattern, category)))
  {
    UpsertEffect(v.rules, pattern, category);
    var rules := Upsert(v.rules, pattern, category);
    forall i | 0 <= i < |rules| ensures Normalized(tb, rules[i].pattern) == rules[i].pattern {
      assert rules[i].pattern == pattern || exists j :: 0 <= j < |v.rules| && v.rules[j] == rules[i];
    }
  }

  lemma RecategorizeKeepsWellFormed(tb: Tables, v: View, id: string, pattern: string, category: string, done: Progress)
    requires WellFormed(tb, v) && Normalized(tb, pattern) == pattern
    ensures WellFormed(tb, Recategorized(v, id, pattern, category, done))
  {
    var v' := Recategorized(v, id, pattern, category, done);
    UpsertKeepsWellFormed(tb, v, pattern, category);
    SameRowsKeepWellFormed(tb, v, View(v'.rows, v.rules));
  }

  /** What a re-categorisation step does, for the row it names. */
  lemma RecategorizeStep(cfg: Config, v: View, step: Step, v': View) returns (t: Txn)
    requires cfg.tb.Sane() && WellFormed(cfg.tb, v)
    requires step.Recategorize? && HasRow(v.rows, step.id) && Next(cfg, v, step, v')
    ensures var pattern := ResolvePattern(cfg.tb, step.requested, t.merchant);
            && t in v.rows && t.id == step.id
            && v' == Recategorized(v, step.id, pattern, step.category, step.done)
            && Normalized(cfg.tb, pattern) == pattern && Plain(pattern)
    ensures forall u :: u in v.rows && u.id == step.id ==> u == t
  {
    t :| t in v.rows && t.id == step.id
      && v' == Recategorized(v, step.id, ResolvePattern(cfg.tb, step.requested, t.merchant), step.category, step.done);
    ResolvedIsNormal(cfg, v, step.requested, t);
    OneRowOfId(v.rows, t);
  }

  lemma OneRowOfId(rows: seq<Txn>, t: Txn)
    requires Marking.DistinctIds(rows) && t in rows
    ensures forall u :: u in rows && u.id == t.id ==> u == t
  {}

  lemma NextKeepsWellFormed(cfg: Config, v: View, step: Step, v': View)
    requires cfg.tb.Sane() && WellFormed(cfg.tb, v) && Next(cfg, v, step, v')
    ensures WellFormed(cfg.tb, v')
  {
    match step
    case Ingest(upload, lines, inserted) =>
      IngestKeepsWellFormed(cfg, v, upload, lines, inserted);
    case MarkTransfers =>
      SameRowsKeepWellFormed(cfg.tb, v, v');
    case Clear =>
    case Recategorize(id, requested, category, done) =>
      if HasRow(v.rows, id) {
        var t := RecategorizeStep(cfg, v, step, v');
        RecategorizeKeepsWellFormed(cfg.tb, v, id, ResolvePattern(cfg.tb, requested, t.merchant), category, done);
      }
    case Reorder =>
      ReorderKeeps(cfg.tb, v, v');
  }

  lemma RecategorizeStepCoherentIff(cfg: Config, v: View, step: Step, v': View)
    requires cfg.tb.Sane() && WellFormed(cfg.tb, v) && Coherent(v) && step.Recategorize? && Next(cfg, v, step, v')
    ensures Coherent(v') <==> SafeStep(cfg, v, step)
  {
    if HasRow(v.rows, step.id) {
      var t := RecategorizeStep(cfg, v, step, v');
      RecategorizeCoherentIff(v, step.id, ResolvePattern(cfg.tb, step.requested, t.merchant), step.category, step.done);
    }
  }

  /** One step from a coherent ledger stays coherent exactly when its guard holds. */
  lemma StepCoherentIff(cfg: Config, v: View, step: Step, v': View)
    requires cfg.tb.Sane() && WellFormed(cfg.tb, v) && Coherent(v) && Next(cfg, v, step, v')
    ensures Coherent(v') <==> SafeStep(cfg, v, step)
  {
    match step
    case Ingest(upload, lines, inserted) => IngestCoherentIff(cfg, v, upload, lines, inserted);
    case MarkTransfers =>
      StoredRulesUnchanged(cfg.tb, v);
      MarkingKeepsCoherence(v, v'.rows);
    case Clear =>
    case Recategorize(_, _, _, _) => RecategorizeStepCoherentIff(cfg, v, step, v');
    case Reorder => ReorderKeeps(cfg.tb, v, v');
  }

  lemma CoherentRow(v: View, t: Txn)
    requires Coherent(v) && t in v.rows
    ensures Agrees(v.rules, t.merchant, t.category)
  {}

  lemma IngestedAgain(cfg: Config, v: View, upload: string, lines: seq<Line>, inserted: seq<Txn>, u: Txn)
    requires WellFormed(cfg.tb, v) && RowsFor(cfg, v.rules, upload, lines, inserted)
    requires u in inserted && FirstMatch(v.rules, u.merchant).Some?
    ensures var c := FirstMatch(v.rules, u.merchant).value;
            u.category == if u.credit && c == UNCATEGORIZED then INCOME else c
  {
    var j :| 0 <= j < |inserted| && inserted[j] == u;
    IngestedRow(cfg, v, upload, lines[j], u);
  }

  /** Clearing keeps the rules, so statements uploaded again come back as they were categorised: a row
      that a rule decides gets the category rows of its merchant had before, except that a credit
      cannot come back Uncategorized. */
  lemma ClearedStatementsComeBack(cfg: Config, v: View, cleared: View, ingest: Step, v': View, t: Txn, u: Txn)
    requires cfg.tb.Sane() && WellFormed(cfg.tb, v) && Coherent(v)
    requires Next(cfg, v, Clear, cleared) && ingest.Ingest? && Next(cfg, cleared, ingest, v')
    requires t in v.rows && u in v'.rows && u.merchant == t.merchant && FirstMatch(v.rules, t.merchant).Some?
    ensures u.category == t.category <==> !(u.credit && t.category == UNCATEGORIZED)
  {
    CoherentRow(v, t);
    assert v'.rows == ingest.inserted && cleared.rules == v.rules;
    IngestedAgain(cfg, v, ingest.upload, ingest.lines, ingest.inserted, u);
  }

  ghost predicate Run(cfg: Config, views: seq<View>, steps: seq<Step>) {
    && |views| == |steps| + 1
    && views[0] == View([], [])
    && forall i :: 0 <= i < |steps| ==> Next(cfg, views[i], steps[i], views[i + 1])
  }

  lemma {:induction false} RunIsWellFormed(cfg: Config, views: seq<View>, steps: seq<Step>, n: nat)
    requires cfg.tb.Sane() && Run(cfg, views, steps) && n < |views|
    ensures WellFormed(cfg.tb, views[n])
    decreases n
  {
    if n > 0 {
      RunIsWellFormed(cfg, views, steps, n - 1);
      NextKeepsWellFormed(cfg, views[n - 1], steps[n - 1], views[n]);
    }
  }

  lemma {:induction false} SafePrefix(cfg: Config, views: seq<View>, steps: seq<Step>, n: nat)
    requires cfg.tb.Sane() && Run(cfg, views, steps) && n < |views|
    requires forall i :: 0 <= i < n ==> SafeStep(cfg, views[i], steps[i])
    ensures Coherent(views[n])
    decreases n
  {
    if n > 0 {
      SafePrefix(cfg, views, steps, n - 1);
      RunIsWellFormed(cfg, views, steps, n - 1);
      StepCoherentIff(cfg, views[n - 1], steps[n - 1], views[n]);
    }
  }

  /** Over every run from an empty account: the ledger stays a view of the rules throughout exactly when
      every step met its guard. */
  lemma CoherentThroughoutIff(cfg: Config, views: seq<View>, steps: seq<Step>)
    requires cfg.tb.Sane() && Run(cfg, views, steps)
    ensures (forall n :: 0 <= n < |views| ==> Coherent(views[n]))
       <==> (forall i :: 0 <= i < |steps| ==> SafeStep(cfg, views[i], steps[i]))
  {
    if forall n :: 0 <= n < |views| ==> Coherent(views[n]) {
      forall i | 0 <= i < |steps| ensures SafeStep(cfg, views[i], steps[i]) {
        RunIsWellFormed(cfg, views, steps, i);
        StepCoherentIff(cfg, views[i], steps[i], views[i + 1]);
      }
    }
    if forall i :: 0 <= i < |steps| ==> SafeStep(cfg, views[i], steps[i]) {
      forall n | 0 <= n < |views| ensures Coherent(views[n]) {
        SafePrefix(cfg, views, steps, n);
      }
    }
  }

  // ---------- Reachable ledgers ----------

  ghost predicate Reachable(cfg: Config, v: View) {
    exists views, steps :: Run(cfg, views, steps) && views[|steps|] == v
  }

  lemma EmptyIsReachable(cfg: Config)
    ensures Reachable(cfg, View([], []))
  {
    var steps: seq<Step> := [];
    assert Run(cfg, [View([], [])], steps) && [View([], [])][|steps|] == View([], []);
  }

  lemma Advance(cfg: Config, v: View, step: Step, v': View)
    requires Reachable(cfg, v) && Next(cfg, v, step, v')
    ensures Reachable(cfg, v')
  {
    var views, steps :| Run(cfg, views, steps) && views[|steps|] == v;
    assert Run(cfg, views + [v'], steps + [step]) && (views + [v'])[|steps + [step]|] == v';
  }
}
