/** Text normalisation of `engine.go`: `Normalize` is "upper-case, split into maximal runs of kept
    characters, join with single spaces", for any case and letter tables. */
module Text {
  import opened WhiteSpace

  /** The Unicode tables the code consults: simple upper-casing and "letter or digit". */
  datatype Tables = Tables(upper: char -> char, alnum: char -> bool) {

    predicate Kept(c: char) {
      alnum(c) || c == '&' || c == '.' || c == '/'
    }

    /** What the code needs of the tables: upper-casing is idempotent and leaves the separators
        alone, and white space and the LIKE metacharacters are neither letters nor digits. */
    ghost predicate Sane() {
      && (forall c: char :: upper(upper(c)) == upper(c))
      && upper(' ') == ' ' && upper('&') == '&' && upper('.') == '.' && upper('/') == '/'
      && (forall c: char :: alnum(c) ==> !IsSpace(c))
      && !alnum('%') && !alnum('_') && !alnum('\\')
    }
  }

  /** The ASCII rows of the tables. */
  const ASCII := Tables(
    (c: char) => if 'a' <= c <= 'z' then (c as int - 32) as char else c,
    (c: char) => 'a' <= c <= 'z' || 'A' <= c <= 'Z' || '0' <= c <= '9')

  lemma AsciiIsSane()
    ensures ASCII.Sane()
  {}

  function ToUpper(tb: Tables, s: string): (r: string)
    ensures |r| == |s|
  {
    seq(|s|, i requires 0 <= i < |s| => tb.upper(s[i]))
  }

  // ---------- Maximal runs ----------

  ghost predicate AllKept(keep: char -> bool, s: string) {
    forall i :: 0 <= i < |s| ==> keep(s[i])
  }

  ghost predicate NoneKept(keep: char -> bool, s: string) {
    forall i :: 0 <= i < |s| ==> !keep(s[i])
  }

  ghost predicate Words(keep: char -> bool, ws: seq<string>) {
    forall i :: 0 <= i < |ws| ==> ws[i] != [] && AllKept(keep, ws[i])
  }

  /** A left-to-right scan: the runs already closed, and the run still open at the end. */
  datatype Scan = Scan(closed: seq<string>, open: string) {
    function Close(): seq<string> {
      if open == [] then closed else closed + [open]
    }
  }

  function ScanOf(keep: char -> bool, s: string): Scan
    decreases |s|
  {
    if s == [] then Scan([], [])
    else
      var before := ScanOf(keep, s[..|s| - 1]);
      var c := s[|s| - 1];
      if keep(c) then before.(open := before.open + [c]) else Scan(before.Close(), [])
  }

  /** The maximal runs of characters satisfying `keep`, left to right. */
  function Runs(keep: char -> bool, s: string): seq<string> {
    ScanOf(keep, s).Close()
  }

  /** seps[0] ws[0] seps[1] ws[1] ... ws[n-1] seps[n] */
  ghost function Interleave(seps: seq<string>, ws: seq<string>): string
    requires |seps| == |ws| + 1
    decreases |ws|
  {
    if ws == [] then seps[0]
    else Interleave(seps[..|ws|], ws[..|ws| - 1]) + ws[|ws| - 1] + seps[|ws|]
  }

  /** `s` is cut into words `ws` by `seps`: words are non-empty and kept, separators are not kept,
      and every separator between two words is non-empty, so no word can be extended. */
  ghost predicate CutsInto(keep: char -> bool, s: string, seps: seq<string>, ws: seq<string>) {
    && |seps| == |ws| + 1
    && s == Interleave(seps, ws)
    && Words(keep, ws)
    && (forall i :: 0 <= i < |seps| ==> NoneKept(keep, seps[i]))
    && (forall i :: 0 < i < |ws| ==> seps[i] != [])
  }

  lemma {:induction false} ScanSeparator(keep: char -> bool, s: string, sep: string)
    requires NoneKept(keep, sep)
    ensures ScanOf(keep, s + sep) == if sep == [] then ScanOf(keep, s) else Scan(Runs(keep, s), [])
    decreases |sep|
  {
    if sep == [] {
      assert s + sep == s;
    } else {
      var t := sep[..|sep| - 1];
      assert (s + sep)[..|s + sep| - 1] == s + t;
      ScanSeparator(keep, s, t);
    }
  }

  lemma {:induction false} ScanWord(keep: char -> bool, s: string, w: string)
    requires AllKept(keep, w)
    ensures ScanOf(keep, s + w) == ScanOf(keep, s).(open := ScanOf(keep, s).open + w)
    decreases |w|
  {
    if w == [] {
      assert s + w == s;
    } else {
      var v := w[..|w| - 1];
      assert (s + w)[..|s + w| - 1] == s + v;
      ScanWord(keep, s, v);
      assert v + [w[|w| - 1]] == w;
    }
  }

  /** What the scan of a cut string is, according to whether the last word touches the end. */
  ghost function ScanOfCut(seps: seq<string>, ws: seq<string>): Scan
    requires |seps| == |ws| + 1
  {
    if ws != [] && seps[|ws|] == [] then Scan(ws[..|ws| - 1], ws[|ws| - 1]) else Scan(ws, [])
  }

  lemma ScanWordAndSeparator(keep: char -> bool, s: string, closed: seq<string>, w: string, sep: string)
    requires ScanOf(keep, s) == Scan(closed, [])
    requires w != [] && AllKept(keep, w) && NoneKept(keep, sep)
    ensures ScanOf(keep, s + w + sep) == if sep == [] then Scan(closed, w) else Scan(closed + [w], [])
  {
    ScanWord(keep, s, w);
    assert [] + w == w;
    ScanSeparator(keep, s + w, sep);
  }

  lemma CutInit(keep: char -> bool, s: string, seps: seq<string>, ws: seq<string>)
    requires CutsInto(keep, s, seps, ws) && ws != []
    ensures CutsInto(keep, Interleave(seps[..|ws|], ws[..|ws| - 1]), seps[..|ws|], ws[..|ws| - 1])
  {}

  lemma {:induction false} ScanIsUnique(keep: char -> bool, s: string, seps: seq<string>, ws: seq<string>)
    requires CutsInto(keep, s, seps, ws)
    ensures ScanOf(keep, s) == ScanOfCut(seps, ws)
    decreases |ws|
  {
    var n := |ws|;
    if n == 0 {
      assert s == [] + seps[0];
      ScanSeparator(keep, [], seps[0]);
    } else {
      CutInit(keep, s, seps, ws);
      var t := Interleave(seps[..n], ws[..n - 1]);
      ScanIsUnique(keep, t, seps[..n], ws[..n - 1]);
      assert n > 1 ==> seps[n - 1] != [];
      assert ws[n - 1] != [];
      ScanWordAndSeparator(keep, t, ws[..n - 1], ws[n - 1], seps[n]);
      assert ws[..n - 1] + [ws[n - 1]] == ws;
    }
  }

  /** `Runs` is the only way to cut a string into words. */
  lemma RunsAreUnique(keep: char -> bool, s: string, seps: seq<string>, ws: seq<string>)
    requires CutsInto(keep, s, seps, ws)
    ensures Runs(keep, s) == ws
  {
    ScanIsUnique(keep, s, seps, ws);
    if ws != [] {
      assert ws[|ws| - 1] != [] && ws[..|ws| - 1] + [ws[|ws| - 1]] == ws;
    }
  }

  lemma CutMoreSeparator(keep: char -> bool, s: string, seps: seq<string>, ws: seq<string>, c: char)
    requires CutsInto(keep, s, seps, ws) && !keep(c)
    ensures CutsInto(keep, s + [c], seps[|ws| := seps[|ws|] + [c]], ws)
  {
    var seps' := seps[|ws| := seps[|ws|] + [c]];
    assert ws != [] ==> seps'[..|ws|] == seps[..|ws|];
  }

  lemma CutMoreWord(keep: char -> bool, s: string, seps: seq<string>, ws: seq<string>, c: char)
    requires CutsInto(keep, s, seps, ws) && keep(c) && ws != [] && seps[|ws|] == []
    ensures CutsInto(keep, s + [c], seps, ws[..|ws| - 1] + [ws[|ws| - 1] + [c]])
  {
    var ws' := ws[..|ws| - 1] + [ws[|ws| - 1] + [c]];
    assert ws'[..|ws| - 1] == ws[..|ws| - 1];
    assert Interleave(seps, ws') == Interleave(seps, ws) + [c];
  }

  lemma CutNewWord(keep: char -> bool, s: string, seps: seq<string>, ws: seq<string>, c: char)
    requires CutsInto(keep, s, seps, ws) && keep(c) && (ws == [] || seps[|ws|] != [])
    ensures CutsInto(keep, s + [c], seps + [[]], ws + [[c]])
  {
    assert (seps + [[]])[..|ws| + 1] == seps && (ws + [[c]])[..|ws|] == ws;
    assert Interleave(seps + [[]], ws + [[c]]) == Interleave(seps, ws) + [c];
  }

  lemma RunsStep(keep: char -> bool, s: string, c: char)
    ensures var ws := Runs(keep, s);
            Runs(keep, s + [c]) ==
              if !keep(c) then ws
              else if ScanOf(keep, s).open == [] then ws + [[c]]
              else ws[..|ws| - 1] + [ws[|ws| - 1] + [c]]
  {
    assert (s + [c])[..|s + [c]| - 1] == s;
    var sc := ScanOf(keep, s);
    if keep(c) {
      if sc.open == [] {
        assert [] + [c] == [c];
      } else {
        assert sc.Close()[..|sc.closed|] == sc.closed;
      }
    }
  }

  lemma CutNext(keep: char -> bool, s: string, seps: seq<string>, c: char) returns (seps': seq<string>)
    requires CutsInto(keep, s, seps, Runs(keep, s))
    ensures CutsInto(keep, s + [c], seps', Runs(keep, s + [c]))
  {
    var ws := Runs(keep, s);
    ScanIsUnique(keep, s, seps, ws);
    RunsStep(keep, s, c);
    if !keep(c) {
      CutMoreSeparator(keep, s, seps, ws, c);
      seps' := seps[|ws| := seps[|ws|] + [c]];
    } else if ws != [] && seps[|ws|] == [] {
      assert ws[|ws| - 1] != [];
      CutMoreWord(keep, s, seps, ws, c);
      seps' := seps;
    } else {
      CutNewWord(keep, s, seps, ws, c);
      seps' := seps + [[]];
    }
  }

  /** Every string can be cut, and `Runs` finds the cut. */
  lemma {:induction false} RunsCut(keep: char -> bool, s: string) returns (seps: seq<string>)
    ensures CutsInto(keep, s, seps, Runs(keep, s))
    decreases |s|
  {
    if s == [] {
      return [[]];
    }
    seps := RunsCut(keep, s[..|s| - 1]);
    seps := CutNext(keep, s[..|s| - 1], seps, s[|s| - 1]);
    assert s == s[..|s| - 1] + [s[|s| - 1]];
  }

  // ---------- Joining and normalising ----------

  /** The words separated by single spaces. */
  function Join(ws: seq<string>): string {
    if |ws| == 0 then []
    else if |ws| == 1 then ws[0]
    else Join(ws[..|ws| - 1]) + " " + ws[|ws| - 1]
  }

  lemma ScanWordAfterWord(keep: char -> bool, s: string, w: string)
    requires !keep(' ') && AllKept(keep, w)
    ensures ScanOf(keep, s + " " + w) == Scan(Runs(keep, s), w)
  {
    ScanSeparator(keep, s, " ");
    ScanWord(keep, s + " ", w);
    assert [] + w == w;
  }

  lemma {:induction false} ScanOfJoin(keep: char -> bool, ws: seq<string>)
    requires !keep(' ') && Words(keep, ws) && ws != []
    ensures ScanOf(keep, Join(ws)) == Scan(ws[..|ws| - 1], ws[|ws| - 1])
    decreases |ws|
  {
    var n := |ws| - 1;
    if n == 0 {
      assert [] + ws[0] == ws[0];
      ScanWord(keep, [], ws[0]);
    } else {
      ScanOfJoin(keep, ws[..n]);
      assert ws[..n] == ws[..n][..n - 1] + [ws[n - 1]] && ws[n - 1] != [];
      ScanWordAfterWord(keep, Join(ws[..n]), ws[n]);
    }
  }

  /** Splitting undoes joining whenever the space itself is a separator. */
  lemma RunsOfJoin(keep: char -> bool, ws: seq<string>)
    requires !keep(' ') && Words(keep, ws)
    ensures Runs(keep, Join(ws)) == ws
  {
    if ws != [] {
      ScanOfJoin(keep, ws);
      assert ws[..|ws| - 1] + [ws[|ws| - 1]] == ws;
    }
  }

  function KeptBy(tb: Tables): char -> bool {
    c => tb.Kept(c)
  }

  function NonSpace(): char -> bool {
    c => !IsSpace(c)
  }

  /** The words of a raw text: the maximal runs of kept characters of its upper-casing. */
  function WordsOf(tb: Tables, s: string): seq<string> {
    Runs(KeptBy(tb), ToUpper(tb, s))
  }

  function Normalized(tb: Tables, s: string): string {
    Join(WordsOf(tb, s))
  }

  /** `strings.Fields`. */
  function Fields(s: string): seq<string> {
    Runs(NonSpace(), s)
  }

  /** Runs of an upper-cased text are words of kept, upper-case characters. */
  lemma {:induction false} ScanIsUpper(tb: Tables, s: string)
    requires tb.Sane() && (forall i :: 0 <= i < |s| ==> tb.upper(s[i]) == s[i])
    ensures var sc := ScanOf(KeptBy(tb), s);
            Words((c: char) => tb.Kept(c) && tb.upper(c) == c, sc.closed)
            && AllKept((c: char) => tb.Kept(c) && tb.upper(c) == c, sc.open)
    decreases |s|
  {
    if s != [] {
      ScanIsUpper(tb, s[..|s| - 1]);
    }
  }

  lemma WordsOfAreUpper(tb: Tables, s: string)
    requires tb.Sane()
    ensures forall i :: 0 <= i < |WordsOf(tb, s)| ==> WordsOf(tb, s)[i] != []
    ensures forall i, k :: 0 <= i < |WordsOf(tb, s)| && 0 <= k < |WordsOf(tb, s)[i]| ==>
              var c := WordsOf(tb, s)[i][k]; tb.Kept(c) && tb.upper(c) == c
  {
    ScanIsUpper(tb, ToUpper(tb, s));
  }

  /** A property of every word character and of the space holds throughout the joined text. */
  lemma {:induction false} JoinSatisfies(p: char -> bool, ws: seq<string>)
    requires p(' ') && forall i, k :: 0 <= i < |ws| && 0 <= k < |ws[i]| ==> p(ws[i][k])
    ensures AllKept(p, Join(ws))
    decreases |ws|
  {
    if |ws| > 1 {
      JoinSatisfies(p, ws[..|ws| - 1]);
      assert AllKept(p, ws[|ws| - 1]);
    }
  }

  /** `Normalize` is idempotent, so re-normalising a stored rule pattern changes nothing. */
  lemma Idempotent(tb: Tables, s: string)
    requires tb.Sane()
    ensures Normalized(tb, Normalized(tb, s)) == Normalized(tb, s)
  {
    var ws := WordsOf(tb, s);
    WordsOfAreUpper(tb, s);
    JoinSatisfies((c: char) => tb.upper(c) == c, ws);
    assert ToUpper(tb, Join(ws)) == Join(ws);
    RunsOfJoin(KeptBy(tb), ws);
  }

  /** The fields of a normalised text are its words, and they rejoin to the text itself. */
  lemma FieldsRejoin(tb: Tables, s: string)
    requires tb.Sane()
    ensures Fields(Normalized(tb, s)) == WordsOf(tb, s)
    ensures Join(Fields(Normalized(tb, s))) == Normalized(tb, s)
  {
    WordsOfAreUpper(tb, s);
    RunsOfJoin(NonSpace(), WordsOf(tb, s));
  }

  /** No space at either end and never two in a row. */
  ghost predicate Tidy(s: string) {
    && (s != [] ==> s[0] != ' ' && s[|s| - 1] != ' ')
    && forall i :: 0 <= i < |s| - 1 ==> s[i] != ' ' || s[i + 1] != ' '
  }

  lemma TidyAppend(j: string, w: string)
    requires Tidy(j) && j != [] && w != [] && AllKept(NonSpace(), w)
    ensures Tidy(j + " " + w)
  {
    var r := j + " " + w;
    forall i | 0 <= i < |r| - 1 ensures r[i] != ' ' || r[i + 1] != ' ' {
      if i < |j| - 1 {
        assert r[i] == j[i] && r[i + 1] == j[i + 1];
      } else {
        assert i == |j| - 1 ==> r[i] == j[i];
        assert i >= |j| ==> r[i + 1] == w[i - |j|];
      }
    }
    assert r[|r| - 1] == w[|w| - 1] && r[0] == j[0];
  }

  lemma {:induction false} JoinIsTidy(ws: seq<string>)
    requires Words(NonSpace(), ws)
    ensures Tidy(Join(ws)) && (ws != [] ==> Join(ws) != [])
    decreases |ws|
  {
    if |ws| > 1 {
      JoinIsTidy(ws[..|ws| - 1]);
      TidyAppend(Join(ws[..|ws| - 1]), ws[|ws| - 1]);
    }
  }

  /** A joined text starts and ends in a word. */
  lemma {:induction false} JoinEnds(ws: seq<string>)
    requires Words(NonSpace(), ws) && ws != []
    ensures Join(ws) != [] && !IsSpace(Join(ws)[0]) && !IsSpace(Join(ws)[|Join(ws)| - 1])
    decreases |ws|
  {
    assert ws[|ws| - 1] != [];
    if |ws| > 1 {
      JoinEnds(ws[..|ws| - 1]);
    }
  }

  /** No LIKE metacharacter occurs. */
  ghost predicate Plain(s: string) {
    forall i :: 0 <= i < |s| ==> s[i] != '%' && s[i] != '_' && s[i] != '\\'
  }

  /** A normalised text has no stray space and no LIKE metacharacter. */
  lemma NormalizedIsTidy(tb: Tables, s: string)
    requires tb.Sane()
    ensures Tidy(Normalized(tb, s)) && Plain(Normalized(tb, s))
  {
    var ws := WordsOf(tb, s);
    WordsOfAreUpper(tb, s);
    JoinIsTidy(ws);
    var plain := (c: char) => c != '%' && c != '_' && c != '\\';
    JoinSatisfies(plain, ws);
    assert forall i :: 0 <= i < |Join(ws)| ==> plain(Join(ws)[i]);
  }

  // ---------- The builder loop ----------

  /** What the builder holds after a prefix: the words so far, and a space once a word is closed. */
  ghost function Built(sc: Scan): string {
    Join(sc.Close()) + if sc.open == [] && sc.closed != [] then " " else ""
  }

  lemma BuiltKeeps(sc: Scan, c: char)
    ensures Built(sc.(open := sc.open + [c])) == Built(sc) + [c]
  {
    var sc' := sc.(open := sc.open + [c]);
    assert sc'.Close()[..|sc.closed|] == sc.closed;
    if sc.open != [] {
      assert sc.Close()[..|sc.closed|] == sc.closed;
    }
  }

  lemma BuiltNext(keep: char -> bool, up: string, i: nat)
    requires i < |up|
    ensures var sc, sc' := ScanOf(keep, up[..i]), ScanOf(keep, up[..i + 1]);
            && (sc'.open == [] <==> !keep(up[i]))
            && Built(sc') == Built(sc) + (if keep(up[i]) then [up[i]] else if sc.open == [] then "" else " ")
  {
    assert up[..i + 1][..i] == up[..i];
    BuiltKeeps(ScanOf(keep, up[..i]), up[i]);
  }

  lemma TrimBuilt(tb: Tables, s: string, b: string)
    requires tb.Sane() && b == Built(ScanOf(KeptBy(tb), ToUpper(tb, s)))
    ensures Trim(b) == Normalized(tb, s)
  {
    WordsOfAreUpper(tb, s);
    assert b == Join(WordsOf(tb, s)) || (WordsOf(tb, s) != [] && b == Join(WordsOf(tb, s)) + " ");
    TrimJoin(WordsOf(tb, s), b);
  }

  // ---------- In plain terms ----------

  /** `r` is the words with one space between any two, and none elsewhere. */
  ghost predicate SpacedBy(seps: seq<string>, ws: seq<string>, r: string) {
    && |seps| == |ws| + 1 && r == Interleave(seps, ws)
    && forall i :: 0 <= i < |seps| ==> seps[i] == if 0 < i < |ws| then " " else ""
  }

  /** `up` is `s` upper-cased character by character. */
  ghost predicate UpperOf(tb: Tables, s: string, up: string) {
    |up| == |s| && forall i :: 0 <= i < |s| ==> up[i] == tb.upper(s[i])
  }

  /** The words are the maximal runs of letters, digits, ampersands, points and slashes. */
  ghost predicate CutsIntoWords(tb: Tables, s: string, seps: seq<string>, ws: seq<string>) {
    CutsInto((c: char) => tb.alnum(c) || c == '&' || c == '.' || c == '/', s, seps, ws)
  }

  ghost predicate CutsIntoFields(s: string, seps: seq<string>, ws: seq<string>) {
    CutsInto((c: char) => !IsSpace(c), s, seps, ws)
  }

  /** Cut into words after upper-casing, and put together with single spaces. */
  ghost predicate Normalizes(tb: Tables, s: string, r: string) {
    exists up, seps, ws, spaces :: UpperOf(tb, s, up) && CutsIntoWords(tb, up, seps, ws) && SpacedBy(spaces, ws, r)
  }

  lemma {:induction false} JoinIsSpaced(ws: seq<string>) returns (seps: seq<string>)
    ensures SpacedBy(seps, ws, Join(ws))
    decreases |ws|
  {
    var n := |ws| - 1;
    if ws == [] {
      seps := [""];
    } else if n == 0 {
      seps := ["", ""];
      assert Interleave([""], []) == "";
      assert seps[..1] == [""] && ws[..0] == [];
      assert "" + ws[0] + "" == ws[0];
    } else {
      var before := JoinIsSpaced(ws[..n]);
      seps := before[n := " "] + [""];
      SpacedMore(before, ws, Join(ws[..n]));
    }
  }

  lemma SpacedMore(seps: seq<string>, ws: seq<string>, r: string)
    requires |ws| > 1 && SpacedBy(seps, ws[..|ws| - 1], r)
    ensures SpacedBy(seps[|ws| - 1 := " "] + [""], ws, r + " " + ws[|ws| - 1])
  {
    var n := |ws| - 1;
    var s := seps[n := " "];
    assert (s + [""])[..|ws|] == s;
    LastSeparator(seps, ws[..n], " ");
    assert r + " " + ws[n] + "" == r + " " + ws[n];
  }

  lemma LastSeparator(seps: seq<string>, ws: seq<string>, sep: string)
    requires |seps| == |ws| + 1 && seps[|ws|] == ""
    ensures Interleave(seps[|ws| := sep], ws) == Interleave(seps, ws) + sep
  {
    if ws == [] {
      assert [""][0 := sep] == [sep];
    } else {
      assert seps[|ws| := sep][..|ws|] == seps[..|ws|];
    }
  }

  lemma SpacedIsUnique(ws: seq<string>, a: seq<string>, b: seq<string>, r: string, r': string)
    requires SpacedBy(a, ws, r) && SpacedBy(b, ws, r')
    ensures r == r'
  {
    assert a == b;
  }

  lemma UpperIsUnique(tb: Tables, s: string, up: string)
    ensures UpperOf(tb, s, up) <==> up == ToUpper(tb, s)
  {}

  lemma CutsAlike(f: char -> bool, g: char -> bool, s: string, seps: seq<string>, ws: seq<string>)
    requires forall c :: f(c) == g(c)
    ensures CutsInto(f, s, seps, ws) <==> CutsInto(g, s, seps, ws)
  {}

  lemma WordsIff(tb: Tables, s: string, seps: seq<string>, ws: seq<string>)
    ensures CutsIntoWords(tb, s, seps, ws) <==> CutsInto(KeptBy(tb), s, seps, ws)
  {
    CutsAlike((c: char) => tb.alnum(c) || c == '&' || c == '.' || c == '/', KeptBy(tb), s, seps, ws);
  }

  lemma NormalizedIs(tb: Tables, s: string)
    ensures Normalizes(tb, s, Normalized(tb, s))
  {
    var up, ws := ToUpper(tb, s), WordsOf(tb, s);
    UpperIsUnique(tb, s, up);
    var seps := RunsCut(KeptBy(tb), up);
    WordsIff(tb, up, seps, ws);
    var spaces := JoinIsSpaced(ws);
  }

  /** `Normalize` does just that. */
  lemma NormalizedIff(tb: Tables, s: string, r: string)
    ensures Normalized(tb, s) == r <==> Normalizes(tb, s, r)
  {
    NormalizedIs(tb, s);
    if Normalizes(tb, s, r) {
      var up, seps, ws, spaces :| UpperOf(tb, s, up) && CutsIntoWords(tb, up, seps, ws) && SpacedBy(spaces, ws, r);
      UpperIsUnique(tb, s, up);
      WordsIff(tb, up, seps, ws);
      RunsAreUnique(KeptBy(tb), up, seps, ws);
      var a := JoinIsSpaced(ws);
      SpacedIsUnique(ws, spaces, a, r, Join(ws));
    }
  }

  /** The fields of a text are what is left when it is cut at white space. */
  lemma FieldsIff(s: string, ws: seq<string>)
    ensures Fields(s) == ws <==> exists seps :: CutsIntoFields(s, seps, ws)
  {
    if Fields(s) == ws {
      var seps := RunsCut(NonSpace(), s);
      CutsAlike((c: char) => !IsSpace(c), NonSpace(), s, seps, ws);
      assert CutsIntoFields(s, seps, ws);
    }
    if seps :| CutsIntoFields(s, seps, ws) {
      CutsAlike((c: char) => !IsSpace(c), NonSpace(), s, seps, ws);
      RunsAreUnique(NonSpace(), s, seps, ws);
    }
  }

  /** A word of upper-case letters, digits, ampersands, points and slashes stays as it is: "AT&T", "7/11". */
  lemma WordStays(tb: Tables, w: string)
    requires tb.Sane() && w != ""
    requires forall i :: 0 <= i < |w| ==>
               tb.upper(w[i]) == w[i] && (tb.alnum(w[i]) || w[i] == '&' || w[i] == '.' || w[i] == '/')
    ensures Normalized(tb, w) == w
  {
    assert ToUpper(tb, w) == w;
    RunsOfJoin(KeptBy(tb), [w]);
  }

  // ---------- The loop ----------

  method Normalize(tb: Tables, s: string) returns (r: string)
    requires tb.Sane()
    ensures r == Normalized(tb, s)
    ensures Normalizes(tb, s, r)
  {
    NormalizedIff(tb, s, Normalized(tb, s));
    var up := ToUpper(tb, s);
    var b, lastSpace := "", true;
    for i := 0 to |up|
      invariant lastSpace == (ScanOf(KeptBy(tb), up[..i]).open == [])
      invariant b == Built(ScanOf(KeptBy(tb), up[..i]))
    {
      BuiltNext(KeptBy(tb), up, i);
      if tb.Kept(up[i]) {
        b := b + [up[i]];
        lastSpace := false;
      } else if !lastSpace {
        b := b + " ";
        lastSpace := true;
      }
    }
    assert up[..|up|] == up;
    TrimBuilt(tb, s, b);
    return Trim(b);
  }

  lemma TrimJoin(ws: seq<string>, b: string)
    requires Words(NonSpace(), ws)
    requires b == Join(ws) || (ws != [] && b == Join(ws) + " ")
    ensures Trim(b) == Join(ws)
  {
    JoinIsTidy(ws);
    var j := Join(ws);
    if ws != [] {
      JoinEnds(ws);
      TrimKeepsEnds(j);
      assert b != j ==> b[..|b| - 1] == j && b[0] == j[0];
    }
  }
}
