/** The categorisation engine: user rules first, then keywords, then fuzzy keywords. The keyword
    table is a Go map, so both keyword passes visit it in an arbitrary order. */
module Engine {
  import opened Text
  import opened WhiteSpace
  import opened Choice
  import opened Like
  import opened Options
  import Levenshtein

  const UNCATEGORIZED := "Uncategorized"

  /** The case tables, the UTF-8 encoding of a character, and the built-in keyword table. */
  datatype Config = Config(tb: Tables, utf8: char -> Levenshtein.Word, keywords: map<string, string>)

  function Bytes(cfg: Config, s: string): Levenshtein.Word {
    if s == [] then [] else cfg.utf8(s[0]) + Bytes(cfg, s[1..])
  }

  // ---------- User rules ----------

  /** The category of the first rule that applies. The list is newest first. */
  function FirstMatch(rules: seq<Rule>, merchant: string): Option<string> {
    if rules == [] then None
    else if Applies(rules[0].pattern, merchant) then Some(rules[0].category)
    else FirstMatch(rules[1..], merchant)
  }

  function NormalizedRules(tb: Tables, rules: seq<Rule>): seq<Rule> {
    seq(|rules|, i requires 0 <= i < |rules| => Rule(Normalized(tb, rules[i].pattern), rules[i].category))
  }

  method NewEngine(tb: Tables, userRules: seq<Rule>) returns (rules: seq<Rule>)
    requires tb.Sane()
    ensures rules == NormalizedRules(tb, userRules)
    ensures |rules| == |userRules|
    ensures forall i :: 0 <= i < |rules| ==>
              rules[i].pattern == Normalized(tb, userRules[i].pattern) && rules[i].category == userRules[i].category
  {
    rules := [];
    for i := 0 to |userRules|
      invariant rules == NormalizedRules(tb, userRules)[..i]
    {
      var p := Normalize(tb, userRules[i].pattern);
      rules := rules + [Rule(p, userRules[i].category)];
    }
  }

  // ---------- Keywords ----------

  predicate KeywordHit(cfg: Config, norm: string, kw: string) {
    if |Bytes(cfg, kw)| <= 3 then kw in Fields(norm) else Contains(norm, kw)
  }

  /** Some token of the text is close to the first word of the keyword. */
  predicate FuzzyKeyword(cfg: Config, norm: string, kw: string) {
    && Fields(kw) != []
    && exists tok :: tok in Fields(norm) && Levenshtein.FuzzyHit(Bytes(cfg, tok), Bytes(cfg, Fields(kw)[0]))
  }

  function ExactTier(cfg: Config, norm: string): string -> bool {
    kw => KeywordHit(cfg, norm, kw)
  }

  function FuzzyTier(cfg: Config, norm: string): string -> bool {
    kw => FuzzyKeyword(cfg, norm, kw)
  }

  ghost function Hits(keywords: map<string, string>, hit: string -> bool): set<string> {
    set kw | kw in keywords && hit(kw)
  }

  /** The first keyword, in the given visiting order, that satisfies `hit`. */
  function FirstHit(keywords: map<string, string>, order: seq<string>, hit: string -> bool): Option<string>
    requires forall kw :: kw in order ==> kw in keywords
  {
    if order == [] then None
    else if hit(order[0]) then Some(keywords[order[0]])
    else FirstHit(keywords, order[1..], hit)
  }

  /** `order` visits every key once. */
  ghost predicate Visits(keywords: map<string, string>, order: seq<string>) {
    && (forall kw :: kw in order <==> kw in keywords)
    && forall i, j :: 0 <= i < j < |order| ==> order[i] != order[j]
  }

  /** `Categorize`, given the orders in which its two passes visit the keyword table. */
  function CategorizeIn(cfg: Config, rules: seq<Rule>, description: string,
                              first: seq<string>, second: seq<string>): string
    requires Visits(cfg.keywords, first) && Visits(cfg.keywords, second)
  {
    var norm := Normalized(cfg.tb, description);
    if norm == "" then UNCATEGORIZED
    else match FirstMatch(rules, norm)
      case Some(category) => category
      case None =>
        match FirstHit(cfg.keywords, first, ExactTier(cfg, norm))
        case Some(category) => category
        case None =>
          match FirstHit(cfg.keywords, second, FuzzyTier(cfg, norm))
          case Some(category) => category
          case None => UNCATEGORIZED
  }

  /** An order a map range may take: any key, then any other, and so on. */
  method VisitingOrder(keywords: map<string, string>) returns (order: seq<string>)
    ensures Visits(keywords, order)
  {
    order := [];
    var left := keywords.Keys;
    while left != {}
      invariant left <= keywords.Keys
      invariant forall kw :: kw in order <==> kw in keywords && kw !in left
      invariant forall i, j :: 0 <= i < j < |order| ==> order[i] != order[j]
      decreases left
    {
      var kw := AnyOf(left);
      order, left := order + [kw], left - {kw};
    }
  }

  method Categorize(cfg: Config, rules: seq<Rule>, description: string) returns (category: string)
    ensures MayReturn(cfg, rules, description, category)
    ensures Answers(cfg, rules, description, category)
  {
    var first := VisitingOrder(cfg.keywords);
    var second := VisitingOrder(cfg.keywords);
    EveryOrderAllowed(cfg, rules, description, first, second);
    category := CategorizeIn(cfg, rules, description, first, second);
    AnswersIff(cfg, rules, description, category);
  }

  // ---------- In plain terms ----------

  ghost predicate FirstClaim(rules: seq<Rule>, norm: string, i: int) {
    0 <= i < |rules| && RuleClaims(rules[i], norm) && forall j :: 0 <= j < i ==> !RuleClaims(rules[j], norm)
  }

  /** A keyword of at most three bytes is a word of the text; a longer one occurs in it. */
  ghost predicate KeywordClaims(cfg: Config, norm: string, kw: string) {
    if |Bytes(cfg, kw)| <= 3 then kw in Fields(norm) else Occurs(norm, kw)
  }

  /** Some word of the text resembles the first word of the keyword. */
  ghost predicate KeywordResembles(cfg: Config, norm: string, kw: string) {
    && Fields(kw) != []
    && exists tok :: tok in Fields(norm) && Levenshtein.Resembles(Bytes(cfg, tok), Bytes(cfg, Fields(kw)[0]))
  }

  /** The first rule in the list that claims the text decides. Else a keyword that claims it, if any does.
      Else a keyword that resembles one of its words, if any does. Else, and for a blank text, it is
      uncategorised. */
  ghost predicate Answers(cfg: Config, rules: seq<Rule>, description: string, category: string) {
    var norm := Normalized(cfg.tb, description);
    if norm == "" then category == "Uncategorized"
    else if exists i :: 0 <= i < |rules| && RuleClaims(rules[i], norm) then
      exists i :: FirstClaim(rules, norm, i) && category == rules[i].category
    else if exists kw :: kw in cfg.keywords && KeywordClaims(cfg, norm, kw) then
      exists kw :: kw in cfg.keywords && KeywordClaims(cfg, norm, kw) && category == cfg.keywords[kw]
    else if exists kw :: kw in cfg.keywords && KeywordResembles(cfg, norm, kw) then
      exists kw :: kw in cfg.keywords && KeywordResembles(cfg, norm, kw) && category == cfg.keywords[kw]
    else category == "Uncategorized"
  }

  /** The first rule that claims the text, or none. */
  lemma {:induction false} FirstMatchIff(rules: seq<Rule>, norm: string)
    ensures FirstMatch(rules, norm).None? <==> forall i :: 0 <= i < |rules| ==> !RuleClaims(rules[i], norm)
    ensures FirstMatch(rules, norm).Some? ==>
              exists i :: FirstClaim(rules, norm, i) && rules[i].category == FirstMatch(rules, norm).value
    decreases |rules|
  {
    if rules != [] {
      OccursIff(norm, rules[0].pattern);
      if !RuleClaims(rules[0], norm) {
        FirstMatchIff(rules[1..], norm);
        assert forall i :: 0 <= i < |rules| - 1 ==> rules[1..][i] == rules[i + 1];
        if FirstMatch(rules, norm).Some? {
          var i :| FirstClaim(rules[1..], norm, i) && rules[1..][i].category == FirstMatch(rules, norm).value;
          FirstClaimShifts(rules, norm, i);
        } else {
          assert forall i :: 1 <= i < |rules| ==> rules[i] == rules[1..][i - 1];
        }
      }
    }
  }

  lemma FirstClaimShifts(rules: seq<Rule>, norm: string, i: nat)
    requires rules != [] && !RuleClaims(rules[0], norm) && FirstClaim(rules[1..], norm, i)
    ensures FirstClaim(rules, norm, i + 1) && rules[1..][i] == rules[i + 1]
  {
    forall j | 0 < j < i + 1 ensures !RuleClaims(rules[j], norm) {
      assert rules[j] == rules[1..][j - 1];
    }
  }

  /** Only one rule is the first to claim the text. */
  lemma FirstClaimIsUnique(rules: seq<Rule>, norm: string, category: string)
    requires FirstMatch(rules, norm).Some?
    ensures FirstMatch(rules, norm).value == category
       <==> exists i :: FirstClaim(rules, norm, i) && category == rules[i].category
  {
    FirstMatchIff(rules, norm);
    var k :| FirstClaim(rules, norm, k) && rules[k].category == FirstMatch(rules, norm).value;
    if i :| FirstClaim(rules, norm, i) && category == rules[i].category {
      assert i == k;
    }
  }

  lemma KeywordClaimsIff(cfg: Config, norm: string, kw: string)
    ensures KeywordHit(cfg, norm, kw) <==> KeywordClaims(cfg, norm, kw)
    ensures FuzzyKeyword(cfg, norm, kw) <==> KeywordResembles(cfg, norm, kw)
  {
    OccursIff(norm, kw);
    if Fields(kw) != [] {
      forall tok | tok in Fields(norm)
        ensures Levenshtein.FuzzyHit(Bytes(cfg, tok), Bytes(cfg, Fields(kw)[0]))
           <==> Levenshtein.Resembles(Bytes(cfg, tok), Bytes(cfg, Fields(kw)[0]))
      {
        Levenshtein.FuzzyHitIff(Bytes(cfg, tok), Bytes(cfg, Fields(kw)[0]));
      }
    }
  }

  lemma TiersIff(cfg: Config, norm: string)
    ensures Hits(cfg.keywords, ExactTier(cfg, norm)) == set kw | kw in cfg.keywords && KeywordClaims(cfg, norm, kw)
    ensures Hits(cfg.keywords, FuzzyTier(cfg, norm)) == set kw | kw in cfg.keywords && KeywordResembles(cfg, norm, kw)
  {
    forall kw ensures KeywordHit(cfg, norm, kw) <==> KeywordClaims(cfg, norm, kw)
      ensures FuzzyKeyword(cfg, norm, kw) <==> KeywordResembles(cfg, norm, kw)
    {
      KeywordClaimsIff(cfg, norm, kw);
    }
  }

  /** The allowed answers, in substrings, edit scripts and literal lengths. */
  lemma AnswersIff(cfg: Config, rules: seq<Rule>, description: string, category: string)
    ensures MayReturn(cfg, rules, description, category) <==> Answers(cfg, rules, description, category)
  {
    var norm := Normalized(cfg.tb, description);
    if norm != "" {
      FirstMatchIff(rules, norm);
      if FirstMatch(rules, norm).Some? {
        FirstClaimIsUnique(rules, norm, category);
      } else {
        DecidingIff(cfg, norm, category);
      }
    }
  }

  lemma DecidingIff(cfg: Config, norm: string, category: string)
    ensures (if Deciding(cfg, norm) == {} then category == UNCATEGORIZED
             else exists kw :: kw in Deciding(cfg, norm) && cfg.keywords[kw] == category)
       <==> (if exists kw :: kw in cfg.keywords && KeywordClaims(cfg, norm, kw) then
               exists kw :: kw in cfg.keywords && KeywordClaims(cfg, norm, kw) && category == cfg.keywords[kw]
             else if exists kw :: kw in cfg.keywords && KeywordResembles(cfg, norm, kw) then
               exists kw :: kw in cfg.keywords && KeywordResembles(cfg, norm, kw) && category == cfg.keywords[kw]
             else category == "Uncategorized")
  {
    TiersIff(cfg, norm);
    var exact := Hits(cfg.keywords, ExactTier(cfg, norm));
    var fuzzy := Hits(cfg.keywords, FuzzyTier(cfg, norm));
    assert exact != {} <==> exists kw :: kw in cfg.keywords && KeywordClaims(cfg, norm, kw) by {
      if kw :| kw in cfg.keywords && KeywordClaims(cfg, norm, kw) {
        assert kw in exact;
      }
    }
    assert fuzzy != {} <==> exists kw :: kw in cfg.keywords && KeywordResembles(cfg, norm, kw) by {
      if kw :| kw in cfg.keywords && KeywordResembles(cfg, norm, kw) {
        assert kw in fuzzy;
      }
    }
  }

  /** A text that no rule and no keyword claims, and whose words all have fewer than five bytes, is
      uncategorised: "WEST" is not taken for a misspelt "BEST". */
  lemma ShortWordsAreUncategorized(cfg: Config, rules: seq<Rule>, description: string, category: string)
    requires var norm := Normalized(cfg.tb, description);
             && (forall i :: 0 <= i < |rules| ==> !RuleClaims(rules[i], norm))
             && (forall kw :: kw in cfg.keywords ==> !KeywordClaims(cfg, norm, kw))
             && (forall tok :: tok in Fields(norm) ==> |Bytes(cfg, tok)| < 5)
             && MayReturn(cfg, rules, description, category)
    ensures category == "Uncategorized"
  {
    AnswersIff(cfg, rules, description, category);
  }

  // ---------- Every order, every answer ----------

  /** The keywords that may decide a text no user rule matches: those of the first tier that hits. */
  ghost function Deciding(cfg: Config, norm: string): set<string> {
    var exact := Hits(cfg.keywords, ExactTier(cfg, norm));
    if exact != {} then exact else Hits(cfg.keywords, FuzzyTier(cfg, norm))
  }

  /** The categories `Categorize` may return, with no mention of visiting orders. */
  ghost predicate MayReturn(cfg: Config, rules: seq<Rule>, description: string, category: string) {
    var norm := Normalized(cfg.tb, description);
    if norm == "" then category == UNCATEGORIZED
    else match FirstMatch(rules, norm)
      case Some(c) => category == c
      case None =>
        if Deciding(cfg, norm) == {} then category == UNCATEGORIZED
        else exists kw :: kw in Deciding(cfg, norm) && cfg.keywords[kw] == category
  }

  lemma {:induction false} FirstHitFinds(keywords: map<string, string>, order: seq<string>, hit: string -> bool)
    requires forall kw :: kw in order ==> kw in keywords
    ensures match FirstHit(keywords, order, hit)
            case None => forall kw :: kw in order ==> !hit(kw)
            case Some(c) => exists kw :: kw in order && kw in Hits(keywords, hit) && keywords[kw] == c
    decreases |order|
  {
    if order != [] {
      if hit(order[0]) {
        assert order[0] in order;
      } else {
        FirstHitFinds(keywords, order[1..], hit);
        assert forall kw :: kw in order[1..] ==> kw in order;
      }
    }
  }

  /** One whole pass: nothing found exactly when nothing hits, and what is found hits. */
  lemma PassFinds(keywords: map<string, string>, order: seq<string>, hit: string -> bool)
    requires Visits(keywords, order)
    ensures FirstHit(keywords, order, hit).None? <==> Hits(keywords, hit) == {}
    ensures FirstHit(keywords, order, hit).Some? ==>
              exists kw :: kw in Hits(keywords, hit) && keywords[kw] == FirstHit(keywords, order, hit).value
  {
    FirstHitFinds(keywords, order, hit);
  }

  lemma {:induction false} ListOf(s: set<string>) returns (order: seq<string>)
    ensures forall x :: x in order <==> x in s
    ensures forall i, j :: 0 <= i < j < |order| ==> order[i] != order[j]
    decreases s
  {
    if s == {} {
      order := [];
    } else {
      var x :| x in s;
      var rest := ListOf(s - {x});
      order := [x] + rest;
    }
  }

  /** The keys of a map can be visited in an order that starts with a given key. */
  lemma OrderStartingWith(keywords: map<string, string>, kw: string) returns (order: seq<string>)
    requires kw in keywords
    ensures Visits(keywords, order) && order[0] == kw
  {
    var rest := ListOf(keywords.Keys - {kw});
    order := [kw] + rest;
  }

  lemma SomeOrder(keywords: map<string, string>) returns (order: seq<string>)
    ensures Visits(keywords, order)
  {
    order := ListOf(keywords.Keys);
  }

  /** Whatever the orders, the answer is one of those allowed. */
  lemma EveryOrderAllowed(cfg: Config, rules: seq<Rule>, description: string, first: seq<string>, second: seq<string>)
    requires Visits(cfg.keywords, first) && Visits(cfg.keywords, second)
    ensures MayReturn(cfg, rules, description, CategorizeIn(cfg, rules, description, first, second))
  {
    var norm := Normalized(cfg.tb, description);
    PassFinds(cfg.keywords, first, ExactTier(cfg, norm));
    PassFinds(cfg.keywords, second, FuzzyTier(cfg, norm));
  }

  /** Every allowed answer is returned under some orders. */
  lemma EveryAllowedReached(cfg: Config, rules: seq<Rule>, description: string, category: string)
      returns (order: seq<string>)
    requires MayReturn(cfg, rules, description, category)
    ensures Visits(cfg.keywords, order)
    ensures CategorizeIn(cfg, rules, description, order, order) == category
  {
    var norm := Normalized(cfg.tb, description);
    var ds := Deciding(cfg, norm);
    if norm != "" && FirstMatch(rules, norm).None? && ds != {} {
      var kw :| kw in ds && cfg.keywords[kw] == category;
      order := OrderStartingWith(cfg.keywords, kw);
    } else {
      order := SomeOrder(cfg.keywords);
    }
    PassFinds(cfg.keywords, order, ExactTier(cfg, norm));
    PassFinds(cfg.keywords, order, FuzzyTier(cfg, norm));
  }

  /** Whatever the visiting orders of the two passes, the answer is the same. */
  ghost predicate OrderIrrelevant(cfg: Config, rules: seq<Rule>, description: string) {
    forall f, s, f', s' ::
      Visits(cfg.keywords, f) && Visits(cfg.keywords, s) && Visits(cfg.keywords, f') && Visits(cfg.keywords, s') ==>
        CategorizeIn(cfg, rules, description, f, s) == CategorizeIn(cfg, rules, description, f', s')
  }

  lemma OneAnswerForAllOrders(cfg: Config, rules: seq<Rule>, description: string)
    requires forall c, d :: MayReturn(cfg, rules, description, c) && MayReturn(cfg, rules, description, d) ==> c == d
    ensures OrderIrrelevant(cfg, rules, description)
  {
    forall f, s | Visits(cfg.keywords, f) && Visits(cfg.keywords, s)
      ensures MayReturn(cfg, rules, description, CategorizeIn(cfg, rules, description, f, s))
    {
      EveryOrderAllowed(cfg, rules, description, f, s);
    }
  }

  lemma TwoAnswersFromTwoOrders(cfg: Config, rules: seq<Rule>, description: string, c: string, d: string)
    requires MayReturn(cfg, rules, description, c) && MayReturn(cfg, rules, description, d) && c != d
    ensures !OrderIrrelevant(cfg, rules, description)
  {
    var o := EveryAllowedReached(cfg, rules, description, c);
    var o' := EveryAllowedReached(cfg, rules, description, d);
    assert CategorizeIn(cfg, rules, description, o, o) != CategorizeIn(cfg, rules, description, o', o');
  }

  /** The answer does not depend on map order exactly when the text is blank, or a user rule decides, or
      all keywords of the deciding tier carry the same category. */
  lemma OrderIrrelevantIff(cfg: Config, rules: seq<Rule>, description: string)
    ensures OrderIrrelevant(cfg, rules, description)
       <==> var norm := Normalized(cfg.tb, description);
            norm == "" || FirstMatch(rules, norm).Some?
            || forall k, l :: k in Deciding(cfg, norm) && l in Deciding(cfg, norm) ==> cfg.keywords[k] == cfg.keywords[l]
  {
    var norm := Normalized(cfg.tb, description);
    if norm != "" && FirstMatch(rules, norm).None? {
      forall k | k in Deciding(cfg, norm) ensures MayReturn(cfg, rules, description, cfg.keywords[k]) {}
      if k, l :| k in Deciding(cfg, norm) && l in Deciding(cfg, norm) && cfg.keywords[k] != cfg.keywords[l] {
        TwoAnswersFromTwoOrders(cfg, rules, description, cfg.keywords[k], cfg.keywords[l]);
        return;
      }
    }
    OneAnswerForAllOrders(cfg, rules, description);
  }

  // ---------- Short keywords ----------

  lemma {:induction false} BytesConcat(cfg: Config, s: string, t: string)
    ensures Bytes(cfg, s + t) == Bytes(cfg, s) + Bytes(cfg, t)
    decreases |s|
  {
    if s == [] {
      assert s + t == t;
    } else {
      BytesConcat(cfg, s[1..], t);
      assert (s + t)[1..] == s[1..] + t;
    }
  }

  /** A word of a cut text has no more bytes than the text. */
  lemma {:induction false} WordIsNoLonger(cfg: Config, seps: seq<string>, ws: seq<string>, i: nat)
    requires |seps| == |ws| + 1 && i < |ws|
    ensures |Bytes(cfg, ws[i])| <= |Bytes(cfg, Interleave(seps, ws))|
    decreases |ws|
  {
    var n := |ws| - 1;
    var before := Interleave(seps[..|ws|], ws[..n]);
    BytesConcat(cfg, before + ws[n], seps[|ws|]);
    BytesConcat(cfg, before, ws[n]);
    if i < n {
      WordIsNoLonger(cfg, seps[..|ws|], ws[..n], i);
    }
  }

  /** The fuzzy tier needs a first word of at least five bytes. */
  lemma ShortKeywordIsNeverFuzzy(cfg: Config, norm: string, kw: string)
    requires |Bytes(cfg, kw)| <= 3
    ensures !FuzzyKeyword(cfg, norm, kw)
  {
    if Fields(kw) != [] {
      var seps := RunsCut(NonSpace(), kw);
      WordIsNoLonger(cfg, seps, Fields(kw), 0);
    }
  }

  /** A keyword of at most three bytes that holds a space, such as "BP ", is dead in both tiers. */
  lemma SpacedShortKeywordIsDead(cfg: Config, norm: string, kw: string)
    requires |Bytes(cfg, kw)| <= 3 && ' ' in kw
    ensures !KeywordHit(cfg, norm, kw) && !FuzzyKeyword(cfg, norm, kw)
  {
    FieldsHaveNoSpace(norm);
    ShortKeywordIsNeverFuzzy(cfg, norm, kw);
  }

  /** One of the two tiers lets the keyword decide the text. */
  ghost predicate HitsText(cfg: Config, kw: string, s: string) {
    KeywordHit(cfg, Normalized(cfg.tb, s), kw) || FuzzyKeyword(cfg, Normalized(cfg.tb, s), kw)
  }

  /** A keyword of at most three bytes hits some text exactly when it is one non-empty word of kept,
      upper-case characters. */
  lemma ShortKeywordLivesIff(cfg: Config, kw: string)
    requires cfg.tb.Sane() && |Bytes(cfg, kw)| <= 3
    ensures (exists s :: HitsText(cfg, kw, s))
       <==> kw != "" && forall i :: 0 <= i < |kw| ==> cfg.tb.Kept(kw[i]) && cfg.tb.upper(kw[i]) == kw[i]
  {
    if s :| HitsText(cfg, kw, s) {
      ShortKeywordIsNeverFuzzy(cfg, Normalized(cfg.tb, s), kw);
      FieldsRejoin(cfg.tb, s);
      WordsOfAreUpper(cfg.tb, s);
      var i :| 0 <= i < |WordsOf(cfg.tb, s)| && WordsOf(cfg.tb, s)[i] == kw;
    }
    if kw != "" && forall i :: 0 <= i < |kw| ==> cfg.tb.Kept(kw[i]) && cfg.tb.upper(kw[i]) == kw[i] {
      assert ToUpper(cfg.tb, kw) == kw && Join([kw]) == kw;
      RunsOfJoin(KeptBy(cfg.tb), [kw]);
      FieldsRejoin(cfg.tb, kw);
      assert HitsText(cfg, kw, kw);
    }
  }

  lemma {:induction false} ScanHasNoSpace(s: string)
    ensures Words(NonSpace(), ScanOf(NonSpace(), s).closed) && AllKept(NonSpace(), ScanOf(NonSpace(), s).open)
    decreases |s|
  {
    if s != [] {
      ScanHasNoSpace(s[..|s| - 1]);
    }
  }

  lemma FieldsHaveNoSpace(s: string)
    ensures forall w :: w in Fields(s) ==> ' ' !in w
  {
    ScanHasNoSpace(s);
    assert Words(NonSpace(), Fields(s));
  }

  lemma UberEatsIsNormal()
    ensures Normalized(ASCII, "UBER EATS") == "UBER EATS"
  {
    var ws := ["UBER", "EATS"];
    assert ws[..1] == ["UBER"];
    assert Join(ws) == "UBER EATS";
    assert ToUpper(ASCII, "UBER EATS") == "UBER EATS";
    RunsOfJoin(KeptBy(ASCII), ws);
  }

  /** Any table with these two rows, as the built-in one, is not order-independent: "UBER EATS" comes back
      as either category, according to the visiting order. */
  lemma UberEatsIsAmbiguous(cfg: Config) returns (o: seq<string>, o': seq<string>)
    requires cfg.tb == ASCII && AsciiIsOneByte(cfg)
    requires "UBER" in cfg.keywords && cfg.keywords["UBER"] == "Transport"
    requires "UBER EATS" in cfg.keywords && cfg.keywords["UBER EATS"] == "Dining"
    ensures Visits(cfg.keywords, o) && CategorizeIn(cfg, [], "UBER EATS", o, o) == "Transport"
    ensures Visits(cfg.keywords, o') && CategorizeIn(cfg, [], "UBER EATS", o', o') == "Dining"
  {
    UberEatsIsNormal();
    UberHits(cfg);
    o := EveryAllowedReached(cfg, [], "UBER EATS", "Transport");
    o' := EveryAllowedReached(cfg, [], "UBER EATS", "Dining");
  }

  lemma UberHits(cfg: Config)
    requires AsciiIsOneByte(cfg) && "UBER" in cfg.keywords && "UBER EATS" in cfg.keywords
    ensures "UBER" in Deciding(cfg, "UBER EATS") && "UBER EATS" in Deciding(cfg, "UBER EATS")
  {
    var norm := "UBER EATS";
    BytesOfAscii(cfg, "UBER");
    BytesOfAscii(cfg, norm);
    assert "UBER" <= norm;
    assert KeywordHit(cfg, norm, "UBER") && KeywordHit(cfg, norm, norm);
    assert "UBER" in Hits(cfg.keywords, ExactTier(cfg, norm)) && norm in Hits(cfg.keywords, ExactTier(cfg, norm));
  }

  ghost predicate AsciiIsOneByte(cfg: Config) {
    forall c: char :: c <= '~' ==> |cfg.utf8(c)| == 1
  }

  lemma {:induction false} BytesOfAscii(cfg: Config, s: string)
    requires AsciiIsOneByte(cfg) && forall i :: 0 <= i < |s| ==> s[i] <= '~'
    ensures |Bytes(cfg, s)| == |s|
    decreases |s|
  {
    if s != [] {
      BytesOfAscii(cfg, s[1..]);
    }
  }
}
