/** `ParseCSV` after the library reader: column detection by header, one outcome per data row, and the
    proof that printed statements are read back exactly in each of the three supported layouts. */
module Csv {
  import opened Options
  import opened Sequences
  import opened WhiteSpace
  import opened Amount

  datatype Direction = Debit | Credit

  datatype ParsedTxn = ParsedTxn(date: int, description: string, amount: Decimal, direction: Direction)

  type Record = seq<string>

  datatype Error = NoDataRows | MissingColumns | NothingParsed(rejected: nat)

  datatype Result = Parsed(txns: seq<ParsedTxn>) | Failed(error: Error)

  // ---------- Columns ----------

  /** Column positions; -1 when absent. */
  datatype Columns = Columns(date: int, desc: int, amt: int, debit: int, credit: int, flag: int)

  function LowerChar(c: char): char {
    if 'A' <= c <= 'Z' then (c as int + 32) as char else c
  }

  function Lower(s: string): string {
    if s == [] then [] else [LowerChar(s[0])] + Lower(s[1..])
  }

  /** The header map: for each lower-cased, trimmed name, the last column that carries it. */
  function ColumnOf(header: Record, name: string): (i: int)
    ensures -1 <= i < |header|
  {
    if header == [] then -1
    else if Lower(Trim(header[|header| - 1])) == name then |header| - 1
    else ColumnOf(header[..|header| - 1], name)
  }

  /** The first of the names that occurs. */
  function Find(header: Record, names: seq<string>): (i: int)
    ensures -1 <= i < |header|
  {
    if names == [] then -1
    else if ColumnOf(header, names[0]) >= 0 then ColumnOf(header, names[0])
    else Find(header, names[1..])
  }

  /** The map holds exactly the names of the header, each with its last column. */
  ghost predicate Indexes(header: Record, col: map<string, int>) {
    forall name :: if name in col then ColumnOf(header, name) == col[name] >= 0 else ColumnOf(header, name) == -1
  }

  /** The header map as the loop builds it. */
  method IndexHeader(header: Record) returns (col: map<string, int>)
    ensures Indexes(header, col)
  {
    col := map[];
    for i := 0 to |header|
      invariant Indexes(header[..i], col)
    {
      assert header[..i + 1][..i] == header[..i];
      col := col[Lower(Trim(header[i])) := i];
    }
    assert header[..|header|] == header;
  }

  /** `find` on the header map. */
  method Lookup(col: map<string, int>, names: seq<string>, ghost header: Record) returns (i: int)
    requires Indexes(header, col)
    ensures i == Find(header, names)
  {
    for k := 0 to |names|
      invariant Find(header, names) == Find(header, names[k..])
    {
      if names[k] in col {
        return col[names[k]];
      }
    }
    return -1;
  }

  const DATE_NAMES := ["date", "transaction date", "posted date", "value date"]
  const DESC_NAMES := ["description", "merchant", "details", "narrative", "memo", "payee", "transaction description"]
  const AMOUNT_NAMES := ["amount", "value", "transaction amount", "billing amount", "billed amount"]
  const DEBIT_NAMES := ["debit", "debit amount", "money out", "paid out", "withdrawal"]
  const CREDIT_NAMES := ["credit", "credit amount", "money in", "paid in", "deposit"]
  const FLAG_NAMES := ["debit/credit flag", "debit / credit flag", "debit/credit", "dr/cr indicator", "dr/cr"]

  function ColumnsOf(header: Record): Columns {
    Columns(Find(header, DATE_NAMES), Find(header, DESC_NAMES), Find(header, AMOUNT_NAMES),
            Find(header, DEBIT_NAMES), Find(header, CREDIT_NAMES), Find(header, FLAG_NAMES))
  }

  predicate Usable(cols: Columns) {
    cols.date >= 0 && cols.desc >= 0 && (cols.amt >= 0 || cols.debit >= 0 || cols.credit >= 0)
  }

  // ---------- Headers in plain terms ----------

  /** The text is the name, in whatever mix of upper and lower case. */
  ghost predicate Spells(s: string, name: string) {
    |s| == |name| && forall i :: 0 <= i < |s| ==>
      if 'A' <= s[i] <= 'Z' then name[i] as int == s[i] as int + 32 else name[i] == s[i]
  }

  /** The header cell is the name, with any white space around it. */
  ghost predicate Named(cell: string, name: string) {
    exists core :: Bare(cell, IsSpace, core) && Spells(core, name)
  }

  /** The last column that carries the first of the names that any column carries; -1 if none does. */
  ghost predicate ColumnFor(header: Record, names: seq<string>, i: int) {
    if i == -1 then forall c, n :: c in header && n in names ==> !Named(c, n)
    else
      && 0 <= i < |header|
      && exists k :: 0 <= k < |names| && Named(header[i], names[k])
           && (forall j :: i < j < |header| ==> !Named(header[j], names[k]))
           && forall c, l :: c in header && 0 <= l < k ==> !Named(c, names[l])
  }

  lemma {:induction false} LowerIs(s: string)
    ensures |Lower(s)| == |s| && forall i :: 0 <= i < |s| ==> Lower(s)[i] == LowerChar(s[i])
    decreases |s|
  {
    if s != [] {
      LowerIs(s[1..]);
      forall i | 0 <= i < |s| ensures Lower(s)[i] == LowerChar(s[i]) {
        assert i > 0 ==> Lower(s)[i] == Lower(s[1..])[i - 1] && s[1..][i - 1] == s[i];
      }
    }
  }

  lemma LowerSpells(s: string, name: string)
    ensures Lower(s) == name <==> Spells(s, name)
  {
    LowerIs(s);
    forall i | 0 <= i < |s| ensures if 'A' <= s[i] <= 'Z' then Lower(s)[i] as int == s[i] as int + 32 else Lower(s)[i] == s[i] {
      assert Lower(s)[i] == LowerChar(s[i]);
    }
  }

  lemma NamedIff(cell: string, name: string)
    ensures Lower(Trim(cell)) == name <==> Named(cell, name)
  {
    TrimIs(cell);
    LowerSpells(Trim(cell), name);
    if core :| Bare(cell, IsSpace, core) && Spells(core, name) {
      TrimIff(cell, core);
    }
  }

  /** `i` is the last column with this name, or -1 if there is none. */
  ghost predicate LastNamed(header: Record, name: string, i: int) {
    if i == -1 then forall c :: c in header ==> !Named(c, name)
    else 0 <= i < |header| && Named(header[i], name) && forall j :: i < j < |header| ==> !Named(header[j], name)
  }

  lemma LastNamedNext(header: Record, c: string, name: string, i: int)
    requires if Named(c, name) then i == |header| else LastNamed(header, name, i)
    ensures LastNamed(header + [c], name, i)
  {
    var more := header + [c];
    assert forall j :: 0 <= j < |header| ==> more[j] == header[j];
    assert forall d :: d in more ==> d in header || d == c;
  }

  lemma {:induction false} ColumnOfIff(header: Record, name: string)
    ensures LastNamed(header, name, ColumnOf(header, name))
    decreases |header|
  {
    if header != [] {
      var n := |header| - 1;
      NamedIff(header[n], name);
      if !Named(header[n], name) {
        ColumnOfIff(header[..n], name);
      }
      LastNamedNext(header[..n], header[n], name, ColumnOf(header, name));
      WithoutLast(header);
    }
  }

  lemma {:induction false} FindIff(header: Record, names: seq<string>)
    ensures ColumnFor(header, names, Find(header, names))
    decreases |names|
  {
    if names != [] {
      var i := Find(header, names);
      ColumnOfIff(header, names[0]);
      if ColumnOf(header, names[0]) == -1 {
        FindIff(header, names[1..]);
        FindMore(header, names, i);
      } else {
        assert Named(header[i], names[0]);
      }
    }
  }

  lemma FindMore(header: Record, names: seq<string>, i: int)
    requires names != [] && ColumnFor(header, names[1..], i) && forall c :: c in header ==> !Named(c, names[0])
    ensures ColumnFor(header, names, i)
  {
    assert forall n :: n in names ==> n == names[0] || n in names[1..];
    if i != -1 {
      var k :| 0 <= k < |names[1..]| && Named(header[i], names[1..][k])
        && (forall j :: i < j < |header| ==> !Named(header[j], names[1..][k]))
        && forall c, l :: c in header && 0 <= l < k ==> !Named(c, names[1..][l]);
      assert names[1..][k] == names[k + 1];
      forall c, l | c in header && 0 <= l < k + 1 ensures !Named(c, names[l]) {
        assert l > 0 ==> names[l] == names[1..][l - 1];
      }
    }
  }

  /** Which columns a header names: "Money Out" is a debit column. */
  lemma HeaderColumns(header: Record)
    ensures var cols := ColumnsOf(header);
            && ColumnFor(header, ["date", "transaction date", "posted date", "value date"], cols.date)
            && ColumnFor(header, ["description", "merchant", "details", "narrative", "memo", "payee",
                                  "transaction description"], cols.desc)
            && ColumnFor(header, ["amount", "value", "transaction amount", "billing amount", "billed amount"], cols.amt)
            && ColumnFor(header, ["debit", "debit amount", "money out", "paid out", "withdrawal"], cols.debit)
            && ColumnFor(header, ["credit", "credit amount", "money in", "paid in", "deposit"], cols.credit)
            && ColumnFor(header, ["debit/credit flag", "debit / credit flag", "debit/credit", "dr/cr indicator", "dr/cr"],
                         cols.flag)
  {
    FindIff(header, DATE_NAMES);
    FindIff(header, DESC_NAMES);
    FindIff(header, AMOUNT_NAMES);
    FindIff(header, DEBIT_NAMES);
    FindIff(header, CREDIT_NAMES);
    FindIff(header, FLAG_NAMES);
  }

  // ---------- One row ----------

  datatype Outcome = Emit(txn: ParsedTxn) | Reject | ZeroSkip

  /** The trimmed cell, empty when the column is absent or the row is short. */
  function Cell(rec: Record, i: int): string {
    if 0 <= i < |rec| then Trim(rec[i]) else ""
  }

  predicate IsStar(c: char) {
    c == '*'
  }

  function TrimStars(s: string): string
    decreases |s|
  {
    if s != [] && s[0] == '*' then TrimStars(s[1..])
    else if s != [] && s[|s| - 1] == '*' then TrimStars(s[..|s| - 1])
    else s
  }

  function UpperChar(c: char): char {
    if 'a' <= c <= 'z' then (c as int - 32) as char else c
  }

  function Upper(s: string): string {
    if s == [] then [] else [UpperChar(s[0])] + Upper(s[1..])
  }

  function ParseFlag(s: string): Option<Direction> {
    var u := Upper(Trim(s));
    if u in ["D", "DR", "DBIT", "DEBIT"] then Some(Debit)
    else if u in ["C", "CR", "CRDT", "CREDIT"] then Some(Credit)
    else None
  }

  /** The cell as it stands in the record, empty when the column is absent or the row is short. */
  function Raw(rec: Record, i: int): string {
    if 0 <= i < |rec| then rec[i] else ""
  }

  lemma CellIs(rec: Record, i: int)
    ensures Bare(Raw(rec, i), IsSpace, Cell(rec, i))
  {
    TrimIs(Raw(rec, i));
  }

  /** `TrimStars` removes the asterisks at both ends. */
  lemma {:induction false} TrimStarsIs(s: string)
    ensures Bare(s, IsStar, TrimStars(s))
    decreases |s|
  {
    if s != [] && s[0] == '*' {
      TrimStarsIs(s[1..]);
      BareFirst(s, IsStar, TrimStars(s));
    } else if s != [] && s[|s| - 1] == '*' {
      TrimStarsIs(s[..|s| - 1]);
      BareLast(s, IsStar, TrimStars(s));
    } else {
      BareItself(s, IsStar);
    }
  }

  /** The description is the cell without asterisks at its ends, then without white space at its ends. */
  ghost predicate Describes(cell: string, description: string) {
    exists middle :: Bare(cell, IsStar, middle) && Bare(middle, IsSpace, description)
  }

  lemma DescribesIff(cell: string, description: string)
    ensures Trim(TrimStars(cell)) == description <==> Describes(cell, description)
  {
    TrimStarsIs(cell);
    TrimIff(TrimStars(cell), description);
    if middle :| Bare(cell, IsStar, middle) && Bare(middle, IsSpace, description) {
      BareIsUnique(cell, IsStar, TrimStars(cell), middle);
    }
  }

  // ---------- Flags in plain terms ----------

  /** The text is the upper-case word, in whatever mix of upper and lower case. */
  ghost predicate SameLetters(s: string, word: string) {
    |s| == |word| && forall i :: 0 <= i < |s| ==> s[i] == word[i] || s[i] as int == word[i] as int + 32
  }

  /** The flag cell holds one of the four words for the direction, with any white space around it. */
  ghost predicate FlagSays(cell: string, d: Direction) {
    exists core :: Bare(cell, IsSpace, core) &&
      if d == Debit then
        SameLetters(core, "D") || SameLetters(core, "DR") || SameLetters(core, "DBIT") || SameLetters(core, "DEBIT")
      else
        SameLetters(core, "C") || SameLetters(core, "CR") || SameLetters(core, "CRDT") || SameLetters(core, "CREDIT")
  }

  lemma {:induction false} UpperIs(s: string)
    ensures |Upper(s)| == |s| && forall i :: 0 <= i < |s| ==> Upper(s)[i] == UpperChar(s[i])
    decreases |s|
  {
    if s != [] {
      UpperIs(s[1..]);
      forall i | 0 <= i < |s| ensures Upper(s)[i] == UpperChar(s[i]) {
        assert i > 0 ==> Upper(s)[i] == Upper(s[1..])[i - 1] && s[1..][i - 1] == s[i];
      }
    }
  }

  lemma UpperIff(s: string, word: string)
    requires forall i :: 0 <= i < |word| ==> 'A' <= word[i] <= 'Z'
    ensures Upper(s) == word <==> SameLetters(s, word)
  {
    UpperIs(s);
    if SameLetters(s, word) {
      forall i | 0 <= i < |s| ensures Upper(s)[i] == word[i] {
        assert Upper(s)[i] == UpperChar(s[i]);
      }
    }
    if Upper(s) == word {
      forall i | 0 <= i < |s| ensures s[i] == word[i] || s[i] as int == word[i] as int + 32 {
        assert Upper(s)[i] == UpperChar(s[i]);
      }
    }
  }

  lemma FlagWordsIff(s: string)
    ensures Upper(s) in ["D", "DR", "DBIT", "DEBIT"] <==>
              SameLetters(s, "D") || SameLetters(s, "DR") || SameLetters(s, "DBIT") || SameLetters(s, "DEBIT")
    ensures Upper(s) in ["C", "CR", "CRDT", "CREDIT"] <==>
              SameLetters(s, "C") || SameLetters(s, "CR") || SameLetters(s, "CRDT") || SameLetters(s, "CREDIT")
  {
    UpperIff(s, "D");
    UpperIff(s, "DR");
    UpperIff(s, "DBIT");
    UpperIff(s, "DEBIT");
    UpperIff(s, "C");
    UpperIff(s, "CR");
    UpperIff(s, "CRDT");
    UpperIff(s, "CREDIT");
  }

  /** A flag cell decides exactly when it says so in one of the eight words. */
  lemma ParseFlagIff(cell: string, d: Direction)
    ensures ParseFlag(cell) == Some(d) <==> FlagSays(cell, d)
  {
    TrimIs(cell);
    FlagWordsIff(Trim(cell));
    if core :| Bare(cell, IsSpace, core) && FlagSays(cell, d) {
      TrimIff(cell, core);
    }
    forall core | Bare(cell, IsSpace, core) ensures core == Trim(cell) {
      TrimIff(cell, core);
    }
  }

  lemma FlagOfCell(rec: Record, i: int, d: Direction)
    ensures ParseFlag(Cell(rec, i)) == Some(d) <==> FlagSays(Raw(rec, i), d)
  {
    CellIs(rec, i);
    ParseFlagIff(Raw(rec, i), d);
    TrimIff(Raw(rec, i), Cell(rec, i));
    TrimTwice(Raw(rec, i));
  }

  /** Amount and direction of a row: a signed or flagged amount column if it is filled, else the debit
      column, else the credit column. */
  function AmountOf(cols: Columns, rec: Record): Option<(Decimal, Direction)> {
    if cols.amt >= 0 && Cell(rec, cols.amt) != "" then
      match Cleaned(Cell(rec, cols.amt))
      case None => None
      case Some(r) =>
        Some((r.0, ParseFlag(Cell(rec, cols.flag)).GetOr(if r.1 then Debit else Credit)))
    else if cols.debit >= 0 && Cell(rec, cols.debit) != "" then
      match Cleaned(Cell(rec, cols.debit))
      case None => None
      case Some(r) => Some((r.0, Debit))
    else if cols.credit >= 0 && Cell(rec, cols.credit) != "" then
      match Cleaned(Cell(rec, cols.credit))
      case None => None
      case Some(r) => Some((r.0, Credit))
    else None
  }

  function OutcomeOf(parseDate: string -> Option<int>, cols: Columns, rec: Record): Outcome {
    var desc := Trim(TrimStars(Cell(rec, cols.desc)));
    match parseDate(Cell(rec, cols.date))
    case None => Reject
    case Some(date) =>
      if desc == "" then Reject
      else
        match AmountOf(cols, rec)
        case None => Reject
        case Some(r) => if r.0.units == 0 then ZeroSkip else Emit(ParsedTxn(date, desc, r.0, r.1))
  }

  // ---------- When a row is rejected, skipped or emitted ----------

  predicate Between(s: string, i: nat, j: nat, p: char -> bool)
    requires i <= j <= |s|
  {
    forall k :: i <= k < j ==> p(s[k])
  }

  /** Asterisks, then white space from `i` to `j`, then asterisks. */
  ghost predicate StarsSpacesStars(s: string, i: nat, j: nat) {
    i <= j <= |s| && Between(s, 0, i, IsStar) && Between(s, i, j, IsSpace) && Between(s, j, |s|, IsStar)
  }

  ghost predicate BlankDescription(s: string) {
    exists i: nat, j: nat :: StarsSpacesStars(s, i, j)
  }

  predicate AllSpace(s: string) {
    Between(s, 0, |s|, IsSpace)
  }

  lemma {:induction false} TrimBlankIff(s: string)
    ensures Trim(s) == "" <==> AllSpace(s)
    decreases |s|
  {
    if s != [] && IsSpace(s[0]) {
      TrimBlankIff(s[1..]);
      assert AllSpace(s[1..]) <==> AllSpace(s) by {
        assert forall k :: 0 <= k < |s| - 1 ==> s[1..][k] == s[k + 1];
        assert forall k :: 1 <= k < |s| ==> s[k] == s[1..][k - 1];
      }
    } else if s != [] {
      TrimKeepsEnds(s);
    }
  }

  lemma BlankAfterStar(s: string)
    requires s != [] && s[0] == '*'
    ensures BlankDescription(s) <==> BlankDescription(s[1..])
  {
    assert forall k :: 0 <= k < |s| - 1 ==> s[1..][k] == s[k + 1];
    if i: nat, j: nat :| StarsSpacesStars(s, i, j) {
      assert StarsSpacesStars(s[1..], if i > 0 then i - 1 else 0, if i > 0 then j - 1 else 0);
    }
    if i: nat, j: nat :| StarsSpacesStars(s[1..], i, j) {
      assert forall k :: 1 <= k < |s| ==> s[k] == s[1..][k - 1];
      assert StarsSpacesStars(s, i + 1, j + 1);
    }
  }

  lemma BlankBeforeStar(s: string)
    requires s != [] && s[|s| - 1] == '*'
    ensures BlankDescription(s) <==> BlankDescription(s[..|s| - 1])
  {
    var n := |s| - 1;
    if i: nat, j: nat :| StarsSpacesStars(s, i, j) {
      assert StarsSpacesStars(s[..n], if j < |s| then i else n, if j < |s| then j else n);
    }
    if i: nat, j: nat :| StarsSpacesStars(s[..n], i, j) {
      assert forall k :: 0 <= k < n ==> s[k] == s[..n][k];
      assert StarsSpacesStars(s, i, j);
    }
  }

  /** Nothing is left of a description exactly when it is asterisks around white space. */
  lemma {:induction false} BlankIff(s: string)
    ensures Trim(TrimStars(s)) == "" <==> BlankDescription(s)
    decreases |s|
  {
    if s != [] && s[0] == '*' {
      BlankIff(s[1..]);
      BlankAfterStar(s);
    } else if s != [] && s[|s| - 1] == '*' {
      BlankIff(s[..|s| - 1]);
      BlankBeforeStar(s);
    } else {
      TrimBlankIff(s);
      NoStarsAtEnds(s);
    }
  }

  lemma NoStarsAtEnds(s: string)
    requires s != [] ==> s[0] != '*' && s[|s| - 1] != '*'
    ensures BlankDescription(s) <==> AllSpace(s)
  {
    if i: nat, j: nat :| StarsSpacesStars(s, i, j) {
      assert i == 0 && j == |s|;
    }
    if AllSpace(s) {
      assert StarsSpacesStars(s, 0, |s|);
    }
  }

  predicate Filled(rec: Record, i: int) {
    i >= 0 && Cell(rec, i) != ""
  }

  /** The cell the amount is taken from: the amount column if it is filled, else the debit column, else
      the credit column. */
  predicate DecidesAmount(cols: Columns, rec: Record, i: int) {
    || (i == cols.amt && Filled(rec, cols.amt))
    || (i == cols.debit && !Filled(rec, cols.amt) && Filled(rec, cols.debit))
    || (i == cols.credit && !Filled(rec, cols.amt) && !Filled(rec, cols.debit) && Filled(rec, cols.credit))
  }

  ghost predicate Unreadable(s: string) {
    !HasDigit(s) || Points(s) >= 2
  }

  /** No date, nothing but asterisks and white space as description, no filled amount cell, or one without
      a digit or with two points. */
  ghost predicate Rejected(parseDate: string -> Option<int>, cols: Columns, rec: Record) {
    || parseDate(Cell(rec, cols.date)).None?
    || BlankDescription(Cell(rec, cols.desc))
    || forall i :: DecidesAmount(cols, rec, i) ==> Unreadable(Cell(rec, i))
  }

  /** Otherwise fine, but every digit of the amount is a nought. */
  ghost predicate Skipped(parseDate: string -> Option<int>, cols: Columns, rec: Record) {
    && !Rejected(parseDate, cols, rec)
    && forall i :: DecidesAmount(cols, rec, i) ==> AllNoughts(Cell(rec, i))
  }

  /** A flag beats the sign of the amount column; the other two columns say it themselves. */
  ghost function DirectionOf(cols: Columns, rec: Record, i: int): Direction {
    if Filled(rec, cols.amt) then
      if FlagSays(Raw(rec, cols.flag), Debit) then Debit
      else if FlagSays(Raw(rec, cols.flag), Credit) then Credit
      else if '-' in Raw(rec, i) || (exists inner: string :: Bare(Raw(rec, i), IsSpace, "(" + inner + ")")) then Debit
      else Credit
    else if Filled(rec, cols.debit) then Debit
    else Credit
  }

  /** The transaction a row stands for. */
  ghost predicate Accepted(parseDate: string -> Option<int>, cols: Columns, rec: Record, t: ParsedTxn) {
    && !Rejected(parseDate, cols, rec) && !Skipped(parseDate, cols, rec)
    && parseDate(Cell(rec, cols.date)) == Some(t.date)
    && Describes(Cell(rec, cols.desc), t.description)
    && exists i :: DecidesAmount(cols, rec, i) && ParseDecimal(Kept(Cell(rec, i))) == Some(t.amount)
         && t.direction == DirectionOf(cols, rec, i)
  }

  /** The amount comes from the deciding cell, if that can be read. */
  lemma AmountComesFrom(cols: Columns, rec: Record, i: int)
    requires DecidesAmount(cols, rec, i)
    ensures AmountOf(cols, rec).None? <==> Unreadable(Cell(rec, i))
    ensures AmountOf(cols, rec).Some? ==>
              && (AmountOf(cols, rec).value.0.units == 0 <==> AllNoughts(Cell(rec, i)))
              && ParseDecimal(Kept(Cell(rec, i))) == Some(AmountOf(cols, rec).value.0)
              && AmountOf(cols, rec).value.1 == DirectionOf(cols, rec, i)
  {
    UnreadableIff(Cell(rec, i));
    if Cleaned(Cell(rec, i)).Some? {
      ZeroIff(Cell(rec, i));
      SignOfCell(rec, i);
      FlagOfCell(rec, cols.flag, Debit);
      FlagOfCell(rec, cols.flag, Credit);
    }
  }

  lemma SignOfCell(rec: Record, i: int)
    requires Cleaned(Cell(rec, i)).Some?
    ensures Cleaned(Cell(rec, i)).value.1
       <==> '-' in Raw(rec, i) || exists inner: string :: Bare(Raw(rec, i), IsSpace, "(" + inner + ")")
  {
    CleanedOfTrim(Raw(rec, i));
    NegativeIff(Raw(rec, i));
  }

  lemma NoAmount(cols: Columns, rec: Record)
    requires forall i :: !DecidesAmount(cols, rec, i)
    ensures AmountOf(cols, rec).None?
  {
    assert !DecidesAmount(cols, rec, cols.amt) && !DecidesAmount(cols, rec, cols.debit) && !DecidesAmount(cols, rec, cols.credit);
  }

  lemma OneDecides(cols: Columns, rec: Record, i: int, j: int)
    requires DecidesAmount(cols, rec, i) && DecidesAmount(cols, rec, j)
    ensures Cell(rec, i) == Cell(rec, j)
  {}

  /** The outcome of a row, by what the row holds. */
  lemma OutcomeIff(parseDate: string -> Option<int>, cols: Columns, rec: Record)
    ensures var o := OutcomeOf(parseDate, cols, rec);
            && (o.Reject? <==> Rejected(parseDate, cols, rec))
            && (o.ZeroSkip? <==> Skipped(parseDate, cols, rec))
            && (o.Emit? ==> Accepted(parseDate, cols, rec, o.txn))
  {
    BlankIff(Cell(rec, cols.desc));
    DescribesIff(Cell(rec, cols.desc), Trim(TrimStars(Cell(rec, cols.desc))));
    if i :| DecidesAmount(cols, rec, i) {
      AmountComesFrom(cols, rec, i);
      forall j | DecidesAmount(cols, rec, j) ensures Cell(rec, j) == Cell(rec, i) {
        OneDecides(cols, rec, i, j);
      }
    } else {
      NoAmount(cols, rec);
    }
  }

  // ---------- All rows ----------

  ghost function Outcomes(parseDate: string -> Option<int>, cols: Columns, recs: seq<Record>): seq<Outcome> {
    seq(|recs|, i requires 0 <= i < |recs| => OutcomeOf(parseDate, cols, recs[i]))
  }

  /** The emitted transactions, in row order. */
  ghost function Emitted(os: seq<Outcome>): seq<ParsedTxn> {
    if os == [] then []
    else Emitted(os[..|os| - 1]) + if os[|os| - 1].Emit? then [os[|os| - 1].txn] else []
  }

  ghost function CountRejects(os: seq<Outcome>): nat {
    if os == [] then 0 else CountRejects(os[..|os| - 1]) + if os[|os| - 1].Reject? then 1 else 0
  }

  ghost function RejectedRows(parseDate: string -> Option<int>, cols: Columns, recs: seq<Record>): set<nat> {
    set i: nat | i < |recs| && Rejected(parseDate, cols, recs[i])
  }

  ghost function SkippedRows(parseDate: string -> Option<int>, cols: Columns, recs: seq<Record>): set<nat> {
    set i: nat | i < |recs| && Skipped(parseDate, cols, recs[i])
  }

  lemma RowsNext(parseDate: string -> Option<int>, cols: Columns, recs: seq<Record>, rec: Record)
    ensures RejectedRows(parseDate, cols, recs + [rec])
         == RejectedRows(parseDate, cols, recs) + if Rejected(parseDate, cols, rec) then {|recs|} else {}
    ensures SkippedRows(parseDate, cols, recs + [rec])
         == SkippedRows(parseDate, cols, recs) + if Skipped(parseDate, cols, rec) then {|recs|} else {}
  {}

  lemma LastOutcome(os: seq<Outcome>, o: Outcome)
    ensures Emitted(os + [o]) == if o.Emit? then Emitted(os) + [o.txn] else Emitted(os)
    ensures CountRejects(os + [o]) == CountRejects(os) + if o.Reject? then 1 else 0
  {
    assert (os + [o])[..|os|] == os;
  }

  lemma OutcomesLast(parseDate: string -> Option<int>, cols: Columns, recs: seq<Record>, rec: Record)
    ensures var o := OutcomeOf(parseDate, cols, rec);
            && Emitted(Outcomes(parseDate, cols, recs + [rec]))
               == Emitted(Outcomes(parseDate, cols, recs)) + (if o.Emit? then [o.txn] else [])
            && CountRejects(Outcomes(parseDate, cols, recs + [rec]))
               == CountRejects(Outcomes(parseDate, cols, recs)) + if o.Reject? then 1 else 0
  {
    var os, o := Outcomes(parseDate, cols, recs), OutcomeOf(parseDate, cols, rec);
    assert Outcomes(parseDate, cols, recs + [rec]) == os + [o];
    LastOutcome(os, o);
  }

  lemma OneMoreRow(parseDate: string -> Option<int>, cols: Columns, recs: seq<Record>, rec: Record)
    ensures var o, more := OutcomeOf(parseDate, cols, rec), recs + [rec];
            && CountRejects(Outcomes(parseDate, cols, more))
               == CountRejects(Outcomes(parseDate, cols, recs)) + (if o.Reject? then 1 else 0)
            && |Emitted(Outcomes(parseDate, cols, more))|
               == |Emitted(Outcomes(parseDate, cols, recs))| + (if o.Emit? then 1 else 0)
            && |RejectedRows(parseDate, cols, more)| == |RejectedRows(parseDate, cols, recs)| + (if o.Reject? then 1 else 0)
            && |SkippedRows(parseDate, cols, more)| == |SkippedRows(parseDate, cols, recs)| + (if o.ZeroSkip? then 1 else 0)
  {
    RowsNext(parseDate, cols, recs, rec);
    OutcomesLast(parseDate, cols, recs, rec);
    OutcomeIff(parseDate, cols, rec);
  }

  ghost predicate Accounted(parseDate: string -> Option<int>, cols: Columns, recs: seq<Record>) {
    && CountRejects(Outcomes(parseDate, cols, recs)) == |RejectedRows(parseDate, cols, recs)|
    && |Emitted(Outcomes(parseDate, cols, recs))| + |RejectedRows(parseDate, cols, recs)|
         + |SkippedRows(parseDate, cols, recs)| == |recs|
  }

  lemma AccountedNext(parseDate: string -> Option<int>, cols: Columns, recs: seq<Record>, rec: Record)
    requires Accounted(parseDate, cols, recs)
    ensures Accounted(parseDate, cols, recs + [rec])
  {
    OneMoreRow(parseDate, cols, recs, rec);
  }

  /** Every data row is emitted, rejected or skipped, and exactly one of these. */
  lemma {:induction false} RowsAccountedFor(parseDate: string -> Option<int>, cols: Columns, recs: seq<Record>)
    ensures Accounted(parseDate, cols, recs)
    decreases |recs|
  {
    if recs != [] {
      var before, rec := recs[..|recs| - 1], recs[|recs| - 1];
      RowsAccountedFor(parseDate, cols, before);
      AccountedNext(parseDate, cols, before, rec);
      WithoutLast(recs);
    }
  }

  ghost function AcceptedBy(parseDate: string -> Option<int>, cols: Columns): (Record, ParsedTxn) -> bool {
    (rec, t) => Accepted(parseDate, cols, rec, t)
  }

  ghost function DroppedBy(parseDate: string -> Option<int>, cols: Columns): Record -> bool {
    rec => Rejected(parseDate, cols, rec) || Skipped(parseDate, cols, rec)
  }

  /** `at` says which accepted row each transaction comes from; every other row is rejected or skipped. */
  ghost predicate ComesFrom(parseDate: string -> Option<int>, cols: Columns, recs: seq<Record>,
                            txns: seq<ParsedTxn>, at: seq<nat>) {
    Traced(AcceptedBy(parseDate, cols), DroppedBy(parseDate, cols), recs, txns, at)
  }

  lemma ComesFromNext(parseDate: string -> Option<int>, cols: Columns, recs: seq<Record>, txns: seq<ParsedTxn>,
                      at: seq<nat>, rec: Record) returns (at': seq<nat>)
    requires ComesFrom(parseDate, cols, recs, txns, at)
    ensures var o := OutcomeOf(parseDate, cols, rec);
            ComesFrom(parseDate, cols, recs + [rec], if o.Emit? then txns + [o.txn] else txns, at')
  {
    OutcomeIff(parseDate, cols, rec);
    var o := OutcomeOf(parseDate, cols, rec);
    if o.Emit? {
      TracedResult(AcceptedBy(parseDate, cols), DroppedBy(parseDate, cols), recs, txns, at, rec, o.txn);
      at' := at + [|recs|];
    } else {
      TracedDrop(AcceptedBy(parseDate, cols), DroppedBy(parseDate, cols), recs, txns, at, rec);
      at' := at;
    }
  }

  lemma {:induction false} EmittedComesFrom(parseDate: string -> Option<int>, cols: Columns, recs: seq<Record>)
      returns (at: seq<nat>)
    ensures ComesFrom(parseDate, cols, recs, Emitted(Outcomes(parseDate, cols, recs)), at)
    decreases |recs|
  {
    if recs == [] {
      at := [];
    } else {
      var before, rec := recs[..|recs| - 1], recs[|recs| - 1];
      at := EmittedComesFrom(parseDate, cols, before);
      at := EmittedNext(parseDate, cols, before, at, rec);
      WithoutLast(recs);
    }
  }

  lemma EmittedNext(parseDate: string -> Option<int>, cols: Columns, recs: seq<Record>, at: seq<nat>, rec: Record)
      returns (at': seq<nat>)
    requires ComesFrom(parseDate, cols, recs, Emitted(Outcomes(parseDate, cols, recs)), at)
    ensures ComesFrom(parseDate, cols, recs + [rec], Emitted(Outcomes(parseDate, cols, recs + [rec])), at')
  {
    at' := ComesFromNext(parseDate, cols, recs, Emitted(Outcomes(parseDate, cols, recs)), at, rec);
    OutcomesLast(parseDate, cols, recs, rec);
    AddNothing(Emitted(Outcomes(parseDate, cols, recs)));
  }

  lemma AddNothing<T>(s: seq<T>)
    ensures s + [] == s
  {}

  /** Every emitted amount is positive and every description non-empty. */
  lemma {:induction false} EmittedAreProper(parseDate: string -> Option<int>, cols: Columns, recs: seq<Record>)
    ensures forall i :: 0 <= i < |Emitted(Outcomes(parseDate, cols, recs))| ==>
              var t := Emitted(Outcomes(parseDate, cols, recs))[i]; t.amount.units > 0 && t.description != ""
    decreases |recs|
  {
    if recs != [] {
      var n := |recs| - 1;
      EmittedAreProper(parseDate, cols, recs[..n]);
      assert Outcomes(parseDate, cols, recs)[..n] == Outcomes(parseDate, cols, recs[..n]);
    }
  }

  /** The whole parse, with no mention of the loop. */
  ghost function ParseOf(parseDate: string -> Option<int>, records: seq<Record>): Result {
    if |records| < 2 then Failed(NoDataRows)
    else
      var cols := ColumnsOf(records[0]);
      if !Usable(cols) then Failed(MissingColumns)
      else
        var os := Outcomes(parseDate, cols, records[1..]);
        if Emitted(os) == [] then Failed(NothingParsed(CountRejects(os))) else Parsed(Emitted(os))
  }

  /** What the parse of a file means, row by row: the accepted rows in order, or the error, with the number
      of rejected rows when no row was accepted. */
  ghost predicate Reads(parseDate: string -> Option<int>, records: seq<Record>, r: Result) {
    if |records| < 2 then r == Failed(NoDataRows)
    else
      var cols, recs := ColumnsOf(records[0]), records[1..];
      if cols.date < 0 || cols.desc < 0 || (cols.amt < 0 && cols.debit < 0 && cols.credit < 0)
      then r == Failed(MissingColumns)
      else
        match r
        case Parsed(txns) => txns != [] && exists at :: ComesFrom(parseDate, cols, recs, txns, at)
        case Failed(NothingParsed(n)) =>
          && n == |RejectedRows(parseDate, cols, recs)|
          && forall rec :: rec in recs ==> Rejected(parseDate, cols, rec) || Skipped(parseDate, cols, rec)
        case Failed(_) => false
  }

  lemma NoneAccepted(parseDate: string -> Option<int>, cols: Columns, recs: seq<Record>, at: seq<nat>)
    requires ComesFrom(parseDate, cols, recs, [], at)
    ensures forall rec :: rec in recs ==> Rejected(parseDate, cols, rec) || Skipped(parseDate, cols, rec)
  {
    forall rec | rec in recs ensures Rejected(parseDate, cols, rec) || Skipped(parseDate, cols, rec) {
      var i: nat :| i < |recs| && recs[i] == rec;
      assert i !in at && DroppedBy(parseDate, cols)(recs[i]);
    }
  }

  lemma ParseOfReads(parseDate: string -> Option<int>, records: seq<Record>)
    ensures Reads(parseDate, records, ParseOf(parseDate, records))
  {
    if |records| >= 2 {
      var cols, recs := ColumnsOf(records[0]), records[1..];
      var at := EmittedComesFrom(parseDate, cols, recs);
      RowsAccountedFor(parseDate, cols, recs);
      if Emitted(Outcomes(parseDate, cols, recs)) == [] {
        NoneAccepted(parseDate, cols, recs, at);
      }
    }
  }

  /** The switch over the three kinds of amount cell. */
  method ReadAmount(cols: Columns, rec: Record) returns (r: Option<(Decimal, Direction)>)
    ensures r == AmountOf(cols, rec)
  {
    if cols.amt >= 0 && Cell(rec, cols.amt) != "" {
      var v := CleanAmount(Cell(rec, cols.amt));
      if v.None? {
        return None;
      }
      var flag := ParseFlag(Cell(rec, cols.flag));
      if flag.Some? {
        return Some((v.value.0, flag.value));
      }
      return Some((v.value.0, if v.value.1 then Debit else Credit));
    } else if cols.debit >= 0 && Cell(rec, cols.debit) != "" {
      var v := CleanAmount(Cell(rec, cols.debit));
      return if v.None? then None else Some((v.value.0, Debit));
    } else if cols.credit >= 0 && Cell(rec, cols.credit) != "" {
      var v := CleanAmount(Cell(rec, cols.credit));
      return if v.None? then None else Some((v.value.0, Credit));
    }
    return None;
  }

  /** The body of the loop for one row. */
  method ReadRow(parseDate: string -> Option<int>, cols: Columns, rec: Record) returns (o: Outcome)
    ensures o == OutcomeOf(parseDate, cols, rec)
  {
    var date := parseDate(Cell(rec, cols.date));
    if date.None? {
      return Reject;
    }
    var desc := Trim(TrimStars(Cell(rec, cols.desc)));
    if desc == "" {
      return Reject;
    }
    var amount := ReadAmount(cols, rec);
    if amount.None? {
      return Reject;
    }
    if amount.value.0.units == 0 {
      return ZeroSkip;
    }
    return Emit(ParsedTxn(date.value, desc, amount.value.0, amount.value.1));
  }

  /** The loop over the data rows. */
  method ParseRows(parseDate: string -> Option<int>, cols: Columns, recs: seq<Record>)
      returns (txns: seq<ParsedTxn>, badRows: nat)
    ensures txns == Emitted(Outcomes(parseDate, cols, recs))
    ensures badRows == CountRejects(Outcomes(parseDate, cols, recs))
  {
    txns, badRows := [], 0;
    for i := 0 to |recs|
      invariant txns == Emitted(Outcomes(parseDate, cols, recs[..i]))
      invariant badRows == CountRejects(Outcomes(parseDate, cols, recs[..i]))
    {
      var o := ReadRow(parseDate, cols, recs[i]);
      OutcomesLast(parseDate, cols, recs[..i], recs[i]);
      PrefixNext(recs, i);
      match o
      case Reject => badRows := badRows + 1;
      case ZeroSkip =>
      case Emit(t) => txns := txns + [t];
    }
    WholePrefix(recs);
  }

  method ParseCSV(parseDate: string -> Option<int>, records: seq<Record>) returns (r: Result)
    ensures r == ParseOf(parseDate, records)
    ensures Reads(parseDate, records, r)
  {
    ParseOfReads(parseDate, records);
    if |records| < 2 {
      return Failed(NoDataRows);
    }
    var col := IndexHeader(records[0]);
    var date := Lookup(col, DATE_NAMES, records[0]);
    var desc := Lookup(col, DESC_NAMES, records[0]);
    var amt := Lookup(col, AMOUNT_NAMES, records[0]);
    var debit := Lookup(col, DEBIT_NAMES, records[0]);
    var credit := Lookup(col, CREDIT_NAMES, records[0]);
    var flag := Lookup(col, FLAG_NAMES, records[0]);
    var cols := Columns(date, desc, amt, debit, credit, flag);
    if !Usable(cols) {
      return Failed(MissingColumns);
    }
    var txns, badRows := ParseRows(parseDate, cols, records[1..]);
    if |txns| == 0 {
      return Failed(NothingParsed(badRows));
    }
    return Parsed(txns);
  }

  // ---------- Header detection ----------

  /** The last column whose lower-cased, trimmed header is the name; -1 exactly when there is none. */
  lemma {:induction false} ColumnOfIsLast(header: Record, name: string)
    ensures ColumnOf(header, name) >= 0 ==> Lower(Trim(header[ColumnOf(header, name)])) == name
    ensures forall i :: ColumnOf(header, name) < i < |header| ==> Lower(Trim(header[i])) != name
    decreases |header|
  {
    if header != [] && Lower(Trim(header[|header| - 1])) != name {
      ColumnOfIsLast(header[..|header| - 1], name);
      assert forall i :: 0 <= i < |header| - 1 ==> header[..|header| - 1][i] == header[i];
    }
  }

  /** Earlier names win over later ones, wherever their columns stand. */
  lemma {:induction false} FindPrefersEarlierNames(header: Record, names: seq<string>, k: nat)
    requires k < |names| && ColumnOf(header, names[k]) >= 0
    requires forall j :: 0 <= j < k ==> ColumnOf(header, names[j]) == -1
    ensures Find(header, names) == ColumnOf(header, names[k])
    decreases |names|
  {
    if k > 0 {
      FindPrefersEarlierNames(header, names[1..], k - 1);
    }
  }

  // ---------- Printed statements ----------

  /** A statement line in whole cents. */
  datatype Entry = Entry(date: int, description: string, cents: nat, direction: Direction)

  predicate Blank(rec: Record, i: int) {
    i < 0 || Cell(rec, i) == ""
  }

  /** Column `i` holds the entry's amount, printed in some style, up to white space around it. */
  ghost predicate PrintedIn(rec: Record, i: int, symbol: string, style: Style, e: Entry) {
    0 <= i < |rec| && exists core :: Bare(rec[i], IsSpace, core) && Bare(Print(symbol, style, e.cents), IsSpace, core)
  }

  /** One amount column: a direction flag decides, else the sign does. */
  ghost predicate ShowsSigned(cols: Columns, rec: Record, symbol: string, style: Style, e: Entry) {
    && PrintedIn(rec, cols.amt, symbol, style, e)
    && var other := if e.direction == Debit then Credit else Debit;
       || FlagSays(Raw(rec, cols.flag), e.direction)
       || (!FlagSays(Raw(rec, cols.flag), other) && (e.direction == Debit <==> style != Plain))
  }

  /** Separate columns, each in any style, the other one blank as far as it is looked at. */
  ghost predicate ShowsSeparate(cols: Columns, rec: Record, symbol: string, style: Style, e: Entry) {
    && Blank(rec, cols.amt)
    && (if e.direction == Debit then PrintedIn(rec, cols.debit, symbol, style, e)
        else Blank(rec, cols.debit) && PrintedIn(rec, cols.credit, symbol, style, e))
  }

  /** The record is a printed form of the entry, in one of the supported layouts. */
  ghost predicate Shows(parseDate: string -> Option<int>, cols: Columns, rec: Record, symbol: string, e: Entry) {
    && parseDate(Cell(rec, cols.date)) == Some(e.date)
    && e.description != ""
    && Describes(Cell(rec, cols.desc), e.description)
    && e.cents > 0
    && exists style :: ShowsSigned(cols, rec, symbol, style, e) || ShowsSeparate(cols, rec, symbol, style, e)
  }

  function Expected(e: Entry): ParsedTxn {
    ParsedTxn(e.date, e.description, Decimal(e.cents, 2), e.direction)
  }

  lemma PrintedCellIs(rec: Record, i: int, symbol: string, style: Style, e: Entry)
    requires PrintedIn(rec, i, symbol, style, e)
    ensures Cell(rec, i) == Trim(Print(symbol, style, e.cents))
  {
    var core :| Bare(rec[i], IsSpace, core) && Bare(Print(symbol, style, e.cents), IsSpace, core);
    TrimIff(rec[i], core);
    TrimIff(Print(symbol, style, e.cents), core);
  }

  lemma PrintedCell(rec: Record, i: int, symbol: string, style: Style, e: Entry)
    requires GoodSymbol(symbol) && PrintedIn(rec, i, symbol, style, e)
    ensures Cell(rec, i) != "" && Cleaned(Cell(rec, i)) == Some((Decimal(e.cents, 2), style != Plain))
  {
    var s := Print(symbol, style, e.cents);
    PrintedCellIs(rec, i, symbol, style, e);
    PrintedAmountsRoundTrip(symbol, style, e.cents);
    CleanedOfTrim(s);
    KeptOfPrint(symbol, style, e.cents);
    NumberHasPoint(e.cents);
    KeptOfTrim(s);
  }

  lemma ShownSigned(cols: Columns, rec: Record, symbol: string, style: Style, e: Entry)
    requires GoodSymbol(symbol) && ShowsSigned(cols, rec, symbol, style, e)
    ensures AmountOf(cols, rec) == Some((Decimal(e.cents, 2), e.direction))
  {
    PrintedCell(rec, cols.amt, symbol, style, e);
    FlagOfCell(rec, cols.flag, Debit);
    FlagOfCell(rec, cols.flag, Credit);
  }

  lemma ShownAmount(cols: Columns, rec: Record, symbol: string, style: Style, e: Entry)
    requires GoodSymbol(symbol)
    requires ShowsSigned(cols, rec, symbol, style, e) || ShowsSeparate(cols, rec, symbol, style, e)
    ensures AmountOf(cols, rec) == Some((Decimal(e.cents, 2), e.direction))
  {
    if ShowsSigned(cols, rec, symbol, style, e) {
      ShownSigned(cols, rec, symbol, style, e);
    } else if e.direction == Debit {
      PrintedCell(rec, cols.debit, symbol, style, e);
    } else {
      PrintedCell(rec, cols.credit, symbol, style, e);
    }
  }

  lemma ShownRow(parseDate: string -> Option<int>, cols: Columns, rec: Record, symbol: string, e: Entry)
    requires GoodSymbol(symbol) && Shows(parseDate, cols, rec, symbol, e)
    ensures OutcomeOf(parseDate, cols, rec) == Emit(Expected(e))
  {
    var style :| ShowsSigned(cols, rec, symbol, style, e) || ShowsSeparate(cols, rec, symbol, style, e);
    DescribesIff(Cell(rec, cols.desc), e.description);
    ShownAmount(cols, rec, symbol, style, e);
  }

  lemma {:induction false} EmittedAll(os: seq<Outcome>, ts: seq<ParsedTxn>)
    requires |os| == |ts| && forall i :: 0 <= i < |os| ==> os[i] == Emit(ts[i])
    ensures Emitted(os) == ts
    decreases |os|
  {
    if os != [] {
      EmittedAll(os[..|os| - 1], ts[..|ts| - 1]);
    }
  }

  /** A statement whose records print a list of entries, under any header with usable columns, is read
      back as exactly those entries, in order. */
  lemma StatementsRoundTrip(parseDate: string -> Option<int>, records: seq<Record>, symbol: string, es: seq<Entry>)
    requires GoodSymbol(symbol) && es != [] && |records| == |es| + 1 && Usable(ColumnsOf(records[0]))
    requires forall i :: 0 <= i < |es| ==> Shows(parseDate, ColumnsOf(records[0]), records[i + 1], symbol, es[i])
    ensures ParseOf(parseDate, records) == Parsed(seq(|es|, i requires 0 <= i < |es| => Expected(es[i])))
  {
    var cols := ColumnsOf(records[0]);
    var ts := seq(|es|, i requires 0 <= i < |es| => Expected(es[i]));
    var os := Outcomes(parseDate, cols, records[1..]);
    forall i | 0 <= i < |os| ensures os[i] == Emit(ts[i]) {
      assert records[1..][i] == records[i + 1];
      ShownRow(parseDate, cols, records[i + 1], symbol, es[i]);
    }
    EmittedAll(os, ts);
  }
}
