/** The database operations and handlers that change one user's ledger, as the code runs them; each is
    a step of `Ledger`. */
module Account {
  import opened Text
  import opened Like
  import opened Options
  import opened Statements
  import opened Engine
  import opened Matching
  import opened Ledger
  import Marking

  lemma FreshIdsStayDistinct(rows: seq<Txn>, inserted: seq<Txn>, ids: seq<string>)
    requires Marking.DistinctIds(rows) && |inserted| == |ids|
    requires forall i :: 0 <= i < |ids| ==> !HasRow(rows, ids[i]) && inserted[i].id == ids[i]
    requires forall i, j :: 0 <= i < j < |ids| ==> ids[i] != ids[j]
    ensures Marking.DistinctIds(rows + inserted)
  {
    forall k, j | 0 <= k < |rows| && 0 <= j < |ids| ensures rows[k].id != ids[j] {
      assert rows[k] in rows;
    }
  }

  /** What the re-categorisation handler answers: 404, either of two 500s, or 200. */
  datatype Response = NotFound | SavingFailed | ApplyingFailed | Saved

  /** The statements that took effect before the handler returned. A lost reply stops it as well. */
  function Committed(first: Outcome, second: Outcome, third: Outcome): Progress {
    if first == Refused then Nothing
    else if first == Lost || second == Refused then RowOnly
    else if second == Lost || third == Refused then RowAndRule
    else Complete
  }

  /** The handler's part of the ledger, when it stops after `done`. */
  lemma HandlerStep(cfg: Config, v: View, id: string, requested: string, category: string, done: Progress, t: Txn)
    requires t in v.rows && t.id == id
    ensures Next(cfg, v, Step.Recategorize(id, requested, category, done),
                 Recategorized(v, id, ResolvePattern(cfg.tb, requested, t.merchant), category, done))
  {}

  /** The first statement finds no row, or reports an error: the handler goes no further. */
  lemma HandlerStops(cfg: Config, v: View, id: string, requested: string, category: string,
                     first: Outcome, second: Outcome, third: Outcome)
    requires !HasRow(v.rows, id) || first != Ok
    ensures Next(cfg, v, Step.Recategorize(id, requested, category, Committed(first, second, third)),
                 v.(rows := if first == Refused then v.rows else Marking.SetCategory(v.rows, [id], category)))
  {
    if t :| t in v.rows && t.id == id {
      HandlerStep(cfg, v, id, requested, category, Committed(first, second, third), t);
    } else {
      assert forall i :: 0 <= i < |v.rows| ==> v.rows[i] in v.rows;
      assert Marking.SetCategory(v.rows, [id], category) == v.rows;
    }
  }

  /** The first statement returned a merchant: the handler goes on to the other two. */
  lemma HandlerGoesOn(cfg: Config, v: View, id: string, requested: string, category: string,
                      second: Outcome, third: Outcome, t: Txn, v': View)
    requires t in v.rows && t.id == id
    requires var pattern, rows := ResolvePattern(cfg.tb, requested, t.merchant), Marking.SetCategory(v.rows, [id], category);
             && v'.rules == (if second == Refused then v.rules else Upsert(v.rules, pattern, category))
             && v'.rows == (if second != Ok || third == Refused then rows else Retag(rows, pattern, category))
    ensures Next(cfg, v, Step.Recategorize(id, requested, category, Committed(Ok, second, third)), v')
  {
    HandlerStep(cfg, v, id, requested, category, Committed(Ok, second, third), t);
  }

  lemma RowAdded(cfg: Config, rules: seq<Rule>, upload: string, lines: seq<Line>, i: nat, rows: seq<Txn>, t: Txn)
    requires i < |lines| && RowsFor(cfg, rules, upload, lines[..i], rows) && RowFor(cfg, rules, upload, lines[i], t)
    ensures RowsFor(cfg, rules, upload, lines[..i + 1], rows + [t])
  {
    forall k | 0 <= k < i + 1 ensures RowFor(cfg, rules, upload, lines[..i + 1][k], (rows + [t])[k]) {
      if k < i {
        assert RowFor(cfg, rules, upload, lines[..i][k], rows[k]);
      }
    }
  }

  class Account {
    var rows: seq<Txn>
    var rules: seq<Rule>

    ghost function View(): View
      reads this
    {
      Ledger.View.View(rows, rules)
    }

    constructor ()
      ensures View() == Ledger.View.View([], [])
    {
      rows, rules := [], [];
    }

    // ---------- Single statements ----------

    /** UPDATE one row by id, returning its merchant; None is an error, "no such row" among them. */
    method RecategorizeTransaction(id: string, category: string, o: Outcome) returns (merchant: Option<string>)
      modifies this`rows
      ensures merchant.Some? <==> o == Ok && HasRow(old(rows), id)
      ensures merchant.Some? ==> exists t :: t in old(rows) && t.id == id && t.merchant == merchant.value
      ensures rows == if o == Refused then old(rows) else Marking.SetCategory(old(rows), [id], category)
    {
      merchant := None;
      if o == Refused {
        return;
      }
      if o == Ok && exists t :: t in rows && t.id == id {
        var t :| t in rows && t.id == id;
        merchant := Some(t.merchant);
      }
      rows := Marking.SetCategory(rows, [id], category);
    }

    /** INSERT, or UPDATE on a pattern that is already stored. */
    method UpsertRule(pattern: string, category: string, o: Outcome) returns (ok: bool)
      requires DistinctPatterns(rules)
      modifies this`rules
      ensures ok <==> o == Ok
      ensures rules == if o == Refused then old(rules) else Upsert(old(rules), pattern, category)
      ensures o != Refused ==> Stored(old(rules), pattern, category, rules)
    {
      UpsertEffect(rules, pattern, category);
      if o != Refused {
        var k := Place(rules, pattern);
        if k < |rules| {
          rules := rules[k := Rule(pattern, category)];
        } else {
          rules := [Rule(pattern, category)] + rules;
        }
      }
      return o == Ok;
    }

    method RecategorizeByMerchant(pattern: string, category: string, o: Outcome) returns (ok: bool)
      modifies this`rows
      ensures ok <==> o == Ok
      ensures rows == if o == Refused then old(rows) else Retag(old(rows), pattern, category)
    {
      if o != Refused {
        rows := Retag(rows, pattern, category);
      }
      return o == Ok;
    }

    method InsertTransactions(txns: seq<Txn>)
      modifies this`rows
      ensures rows == old(rows) + txns
    {
      rows := rows + txns;
    }

    /** Deleting the user's uploads cascades to the transactions; rules remain. */
    method ClearTransactions()
      modifies this`rows
      ensures forall cfg :: Next(cfg, old(View()), Clear, View())
    {
      rows := [];
    }

    // ---------- Handlers and jobs ----------

    /** The handler's last two statements. */
    method StoreAndApply(pattern: string, category: string, second: Outcome, third: Outcome) returns (response: Response)
      requires DistinctPatterns(rules)
      modifies this
      ensures response == if second != Ok then SavingFailed else if third != Ok then ApplyingFailed else Saved
      ensures rules == if second == Refused then old(rules) else Upsert(old(rules), pattern, category)
      ensures rows == if second != Ok || third == Refused then old(rows) else Retag(old(rows), pattern, category)
    {
      var ok := UpsertRule(pattern, category, second);
      if !ok {
        return SavingFailed;
      }
      ok := RecategorizeByMerchant(pattern, category, third);
      return if ok then Saved else ApplyingFailed;
    }

    /** The handler: retag the row, store the rule, retag by merchant; the first error ends it. */
    method Recategorize(cfg: Config, id: string, requested: string, category: string,
                        first: Outcome, second: Outcome, third: Outcome) returns (response: Response)
      requires cfg.tb.Sane() && DistinctPatterns(rules)
      modifies this
      ensures response == NotFound <==> !HasRow(old(rows), id) || first != Ok
      ensures response == Saved <==> HasRow(old(rows), id) && first == Ok && second == Ok && third == Ok
      ensures response == SavingFailed <==> HasRow(old(rows), id) && first == Ok && second != Ok
      ensures Next(cfg, old(View()), Step.Recategorize(id, requested, category, Committed(first, second, third)), View())
    {
      ghost var v := View();
      var merchant := RecategorizeTransaction(id, category, first);
      if merchant.None? {
        HandlerStops(cfg, v, id, requested, category, first, second, third);
        return NotFound;
      }
      ghost var t :| t in v.rows && t.id == id && t.merchant == merchant.value;
      var pattern := Normalize(cfg.tb, requested);
      if pattern == "" {
        pattern := merchant.value;
      }
      response := StoreAndApply(pattern, category, second, third);
      HandlerGoesOn(cfg, v, id, requested, category, second, third, t, View());
    }

    /** The body of the worker's loop over the parsed lines. */
    static method RowOf(cfg: Config, rules: seq<Rule>, engineRules: seq<Rule>, upload: string, line: Line, id: string)
        returns (t: Txn)
      requires cfg.tb.Sane() && engineRules == NormalizedRules(cfg.tb, rules)
      ensures t.id == id && RowFor(cfg, rules, upload, line, t)
    {
      var category := Categorize(cfg, engineRules, line.description);
      if line.credit && category == UNCATEGORIZED {
        category := INCOME;
      }
      var merchant := Normalize(cfg.tb, line.description);
      t := Txn(id, upload, line.date, line.cents, line.credit, category, merchant);
    }

    /** The worker's insert: categorise each parsed line under the current rules and append the rows,
        with the ids the database generates. */
    method Extract(cfg: Config, upload: string, lines: seq<Line>, ids: seq<string>) returns (inserted: seq<Txn>)
      requires cfg.tb.Sane() && |ids| == |lines|
      requires Marking.DistinctIds(rows)
      requires forall i :: 0 <= i < |ids| ==> !HasRow(rows, ids[i])
      requires forall i, j :: 0 <= i < j < |ids| ==> ids[i] != ids[j]
      modifies this`rows
      ensures |inserted| == |lines|
      ensures forall i :: 0 <= i < |lines| ==> inserted[i].id == ids[i] && inserted[i].upload == upload
      ensures forall i :: 0 <= i < |lines| ==> RowSays(cfg, rules, upload, lines[i], inserted[i])
      ensures Next(cfg, old(View()), Ingest(upload, lines, inserted), View())
    {
      var engineRules := NewEngine(cfg.tb, rules);
      inserted := [];
      for i := 0 to |lines|
        invariant rows == old(rows) && |inserted| == i
        invariant RowsFor(cfg, rules, upload, lines[..i], inserted)
        invariant forall k :: 0 <= k < i ==> inserted[k].id == ids[k]
      {
        var t := RowOf(cfg, rules, engineRules, upload, lines[i], ids[i]);
        RowAdded(cfg, rules, upload, lines, i, inserted, t);
        inserted := inserted + [t];
      }
      assert lines[..|lines|] == lines;
      RowsSay(cfg, rules, upload, lines, inserted);
      FreshIdsStayDistinct(rows, inserted, ids);
      InsertTransactions(inserted);
    }

    /** `markTransfers`: normalise the rules, filter the candidates in place, match, tag. */
    method MarkTransfers(cfg: Config)
      requires cfg.tb.Sane() && Marking.DistinctIds(rows)
      modifies this`rows
      ensures Next(cfg, old(View()), Step.MarkTransfers, View())
      ensures Marking.Marks(NormalizedRules(cfg.tb, rules), old(rows), rows)
    {
      var engineRules := NewEngine(cfg.tb, rules);
      rows := Marking.MarkTransfers(engineRules, rows);
    }
  }
}
