/** Substring search as the rule engine does it, and the SQL LIKE matcher that retagging uses,
    with all three metacharacters (section 9.7.1 of the PostgreSQL manual). */
module Like {
  import opened Text

  /** `strings.Contains`. */
  predicate Contains(s: string, p: string)
    decreases |s|
  {
    p <= s || (s != [] && Contains(s[1..], p))
  }

  /** `p` occurs in `s` at position `i`. */
  ghost predicate OccursAt(s: string, p: string, i: nat) {
    i + |p| <= |s| && s[i..i + |p|] == p
  }

  lemma OccursShift(s: string, p: string, i: nat)
    requires s != []
    ensures OccursAt(s[1..], p, i) <==> OccursAt(s, p, i + 1)
  {
    if i + 1 + |p| <= |s| {
      assert s[1..][i..i + |p|] == s[i + 1..i + 1 + |p|];
    }
  }

  lemma {:induction false} ContainsMeansOccurs(s: string, p: string)
    ensures Contains(s, p) <==> exists i: nat :: OccursAt(s, p, i)
    decreases |s|
  {
    if p <= s {
      assert OccursAt(s, p, 0);
    } else {
      assert !OccursAt(s, p, 0);
      if s != [] {
        ContainsMeansOccurs(s[1..], p);
        if Contains(s[1..], p) {
          var i: nat :| OccursAt(s[1..], p, i);
          OccursShift(s, p, i);
        } else if i: nat :| OccursAt(s, p, i) {
          OccursShift(s, p, i - 1);
        }
      }
    }
  }

  ghost predicate Occurs(s: string, p: string) {
    exists before: string, after: string :: before + p + after == s
  }

  lemma OccursIff(s: string, p: string)
    ensures Contains(s, p) <==> Occurs(s, p)
  {
    ContainsMeansOccurs(s, p);
    if i: nat :| OccursAt(s, p, i) {
      assert s[..i] + p + s[i + |p|..] == s;
    }
    if before: string, after: string :| before + p + after == s {
      assert OccursAt(s, p, |before|);
    }
  }

  /** `s LIKE p`: `%` matches any text, `_` any character, `\` quotes the next character.
      (A pattern that ends in a lone `\` is an error in the database; here it matches nothing.) */
  predicate LikeMatch(s: string, p: string)
    decreases |p| + |s|
  {
    if p == [] then s == []
    else if p[0] == '%' then LikeMatch(s, p[1..]) || (s != [] && LikeMatch(s[1..], p))
    else if s == [] then false
    else if p[0] == '_' then LikeMatch(s[1..], p[1..])
    else if p[0] == '\\' then |p| > 1 && p[1] == s[0] && LikeMatch(s[1..], p[2..])
    else p[0] == s[0] && LikeMatch(s[1..], p[1..])
  }

  lemma {:induction false} PercentMatchesAll(s: string)
    ensures LikeMatch(s, "%")
    decreases |s|
  {
    if s != [] {
      PercentMatchesAll(s[1..]);
    }
  }

  lemma {:induction false} PlainPrefix(s: string, p: string)
    requires Plain(p)
    ensures LikeMatch(s, p + "%") <==> p <= s
    decreases |p|
  {
    var q := p + "%";
    if p == [] {
      assert q == "%";
      PercentMatchesAll(s);
    } else {
      assert q[0] == p[0] && q[1..] == p[1..] + "%";
      if s != [] {
        PlainPrefix(s[1..], p[1..]);
        assert p <= s <==> p[0] == s[0] && p[1..] <= s[1..];
      }
    }
  }

  /** `merchant LIKE '%' || p || '%'` is substring search when `p` has no metacharacter. */
  lemma {:induction false} LikeIsContains(s: string, p: string)
    requires Plain(p)
    ensures LikeMatch(s, "%" + p + "%") <==> Contains(s, p)
    decreases |s|
  {
    var q := "%" + p + "%";
    assert q[0] == '%' && q[1..] == p + "%";
    PlainPrefix(s, p);
    if s != [] {
      LikeIsContains(s[1..], p);
    }
  }

  /** The text with every character quoted. */
  function Quoted(p: string): string {
    if p == [] then [] else ['\\', p[0]] + Quoted(p[1..])
  }

  /** A quoted text matches itself alone, metacharacters or not. */
  lemma {:induction false} QuotedMatchesItself(s: string, p: string)
    ensures LikeMatch(s, Quoted(p)) <==> s == p
    decreases |p|
  {
    if p != [] {
      var q := Quoted(p);
      assert q[2..] == Quoted(p[1..]);
      if s != [] {
        QuotedMatchesItself(s[1..], p[1..]);
        assert s == p <==> s[0] == p[0] && s[1..] == p[1..];
      }
    }
  }

  /** `%` stands for any text, `_` for any one character. */
  lemma {:induction false} PercentIff(s: string, q: string)
    ensures LikeMatch(s, "%" + q) <==> exists k :: 0 <= k <= |s| && LikeMatch(s[k..], q)
    decreases |s|
  {
    var p := "%" + q;
    assert p[0] == '%' && p[1..] == q && s[0..] == s;
    if s != [] {
      PercentIff(s[1..], q);
      if k :| 0 <= k <= |s[1..]| && LikeMatch(s[1..][k..], q) {
        assert s[1..][k..] == s[k + 1..];
      }
      if k :| 0 < k <= |s| && LikeMatch(s[k..], q) {
        assert s[1..][k - 1..] == s[k..];
      }
    }
  }

  // ---------- Rules ----------

  datatype Rule = Rule(pattern: string, category: string)

  /** When the engine lets a rule decide a merchant. */
  predicate Applies(pattern: string, merchant: string) {
    pattern != "" && Contains(merchant, pattern)
  }

  /** The rule has a pattern, and that occurs in the text. */
  ghost predicate RuleClaims(r: Rule, s: string) {
    r.pattern != "" && Occurs(s, r.pattern)
  }

  lemma ClaimsIff(r: Rule, s: string)
    ensures Applies(r.pattern, s) <==> RuleClaims(r, s)
  {
    OccursIff(s, r.pattern);
  }

  /** Which rows a retagging statement updates. */
  predicate Retagged(pattern: string, merchant: string) {
    LikeMatch(merchant, "%" + pattern + "%")
  }

  /** Retagging agrees with the engine on every merchant exactly when the pattern is not empty. */
  lemma RetagAgreesIff(pattern: string)
    requires Plain(pattern)
    ensures (forall m :: Retagged(pattern, m) <==> Applies(pattern, m)) <==> pattern != ""
  {
    forall m ensures Retagged(pattern, m) <==> Contains(m, pattern) {
      LikeIsContains(m, pattern);
    }
    assert Contains("", "");
  }

  /** A metacharacter would break the agreement, so normalising the pattern matters. */
  lemma MetacharactersDisagree()
    ensures Retagged("A_B", "AXB") && !Applies("A_B", "AXB")
  {
    var m := "AXB";
    assert "%" + "A_B" + "%" == "%A_B%";
    assert "%A_B%"[1..] == "A_B%" && "A_B%"[1..] == "_B%" && "_B%"[1..] == "B%" && "B%"[1..] == "%";
    assert m[1..] == "XB" && "XB"[1..] == "B" && "B"[1..] == "";
    PercentMatchesAll("");
    assert LikeMatch("B", "B%") && LikeMatch("XB", "_B%") && LikeMatch(m, "A_B%");
    assert !Contains("B", "A_B") && !Contains("XB", "A_B");
  }
}
