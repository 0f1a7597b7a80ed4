/** Small types shared by the model's modules. */

module Options {

  datatype Option<+T> = None | Some(value: T) {
    function GetOr(default: T): T {
      if None? then default else value
    }
  }
}

module Digits {

  predicate IsDigit(c: char) {
    '0' <= c <= '9'
  }

  function DigitValue(c: char): (d: nat)
    requires IsDigit(c)
    ensures d < 10
  {
    c as int - '0' as int
  }

  function DigitChar(d: nat): (c: char)
    requires d < 10
    ensures IsDigit(c) && DigitValue(c) == d
  {
    ('0' as int + d) as char
  }

  /** The digits in order. */
  lemma DigitIs(d: nat)
    requires d < 10
    ensures DigitChar(d) == "0123456789"[d] && DigitValue("0123456789"[d]) == d
  {}
}

module Statements {

  /** How a statement ended: whether it took effect, and whether the caller was told so. */
  datatype Outcome = Ok | Lost | Refused
}

module Bytes {

  type Byte = b: int | 0 <= b < 256
}

module Sequences {

  lemma WithoutLast<T>(s: seq<T>)
    requires s != []
    ensures s[..|s| - 1] + [s[|s| - 1]] == s
  {}

  lemma PrefixNext<T>(s: seq<T>, i: nat)
    requires i < |s|
    ensures s[..i + 1] == s[..i] + [s[i]]
  {}

  lemma UpdateSplits<T>(s: seq<T>, k: nat, x: T)
    requires k < |s|
    ensures s == s[..k] + ([s[k]] + s[k + 1..])
    ensures s[k := x] == s[..k] + ([x] + s[k + 1..])
  {}

  lemma WholePrefix<T>(s: seq<T>)
    ensures s[..|s|] == s
  {}

  /** `at` says which row each result comes from, in order; every other row is dropped. */
  ghost predicate Traced<R, T>(gives: (R, T) -> bool, drops: R -> bool, rows: seq<R>, results: seq<T>, at: seq<nat>) {
    && |at| == |results|
    && (forall k :: 0 <= k < |at| ==> at[k] < |rows| && gives(rows[at[k]], results[k]))
    && (forall k, l :: 0 <= k < l < |at| ==> at[k] < at[l])
    && forall i: nat :: i < |rows| && i !in at ==> drops(rows[i])
  }

  lemma TracedResult<R, T>(gives: (R, T) -> bool, drops: R -> bool, rows: seq<R>, results: seq<T>, at: seq<nat>, row: R, t: T)
    requires Traced(gives, drops, rows, results, at) && gives(row, t)
    ensures Traced(gives, drops, rows + [row], results + [t], at + [|rows|])
  {
    assert forall i: nat :: i in at + [|rows|] <==> i in at || i == |rows|;
  }

  lemma TracedDrop<R, T>(gives: (R, T) -> bool, drops: R -> bool, rows: seq<R>, results: seq<T>, at: seq<nat>, row: R)
    requires Traced(gives, drops, rows, results, at) && drops(row)
    ensures Traced(gives, drops, rows + [row], results, at)
  {}
}

module Choice {

  /** Any element, as a range over a map yields its keys. */
  method AnyOf<T>(s: set<T>) returns (x: T)
    requires s != {}
    ensures x in s
  {
    x :| x in s;
  }
}

/** The white space of the Go library: what `unicode.IsSpace` accepts. */
module WhiteSpace {

  predicate IsSpace(c: char) {
    || '\t' <= c <= '\r' || c == ' ' || c == '\U{0085}' || c == '\U{00A0}' || c == '\U{1680}'
    || '\U{2000}' <= c <= '\U{200A}' || c == '\U{2028}' || c == '\U{2029}' || c == '\U{202F}'
    || c == '\U{205F}' || c == '\U{3000}'
  }

  /** `strings.TrimSpace`. */
  function Trim(s: string): string
    decreases |s|
  {
    if s != [] && IsSpace(s[0]) then Trim(s[1..])
    else if s != [] && IsSpace(s[|s| - 1]) then Trim(s[..|s| - 1])
    else s
  }

  lemma {:induction false} TrimKeepsEnds(s: string)
    requires s != []
    ensures !IsSpace(s[0]) ==> Trim(s) != [] && Trim(s)[0] == s[0]
    ensures !IsSpace(s[|s| - 1]) ==> Trim(s) != [] && Trim(s)[|Trim(s)| - 1] == s[|s| - 1]
    ensures !IsSpace(s[0]) && !IsSpace(s[|s| - 1]) ==> Trim(s) == s
    decreases |s|
  {
    if IsSpace(s[0]) {
      if |s| > 1 {
        TrimKeepsEnds(s[1..]);
      }
    } else if IsSpace(s[|s| - 1]) {
      if |s| > 1 {
        TrimKeepsEnds(s[..|s| - 1]);
      }
    }
  }

  /** The white space characters by code point. */
  lemma SpaceIs(c: char)
    ensures IsSpace(c) <==>
              c as int in {9, 10, 11, 12, 13, 32, 0x85, 0xA0, 0x1680, 0x2028, 0x2029, 0x202F, 0x205F, 0x3000}
              || 0x2000 <= c as int <= 0x200A
  {}

  ghost predicate AllOf(s: string, p: char -> bool) {
    forall i :: 0 <= i < |s| ==> p(s[i])
  }

  /** `r` is `s` without the characters of one kind at its ends. */
  ghost predicate Bare(s: string, p: char -> bool, r: string) {
    && (r != "" ==> !p(r[0]) && !p(r[|r| - 1]))
    && exists a: string, b: string :: Cut(s, p, a, r, b)
  }

  ghost predicate Cut(s: string, p: char -> bool, a: string, r: string, b: string) {
    s == a + r + b && AllOf(a, p) && AllOf(b, p)
  }

  lemma Regroup(a: string, c: string, r: string, d: string, b: string)
    ensures (a + c) + r + (d + b) == a + (c + r + d) + b
  {}

  lemma BareWrapped(s: string, p: char -> bool, r: string, a: string, b: string)
    requires Bare(s, p, r) && AllOf(a, p) && AllOf(b, p)
    ensures Bare(a + s + b, p, r)
  {
    var c, d :| Cut(s, p, c, r, d);
    Regroup(a, c, r, d, b);
    assert Cut(a + s + b, p, a + c, r, d + b);
  }

  lemma BareIsUnique(s: string, p: char -> bool, r: string, r': string)
    requires Bare(s, p, r) && Bare(s, p, r')
    ensures r == r'
  {
    var a, b :| Cut(s, p, a, r, b);
    var a', b' :| Cut(s, p, a', r', b');
    BareStarts(s, p, a, r, b, a', r', b');
    BareStarts(s, p, a', r', b', a, r, b);
    if r != "" && r' != "" {
      assert |a| == |a'| && |b| == |b'|;
      assert r == s[|a|..|s| - |b|] && r' == s[|a'|..|s| - |b'|];
    }
  }

  /** The ends of what is left cannot lie in what the other cut takes away. */
  lemma BareStarts(s: string, p: char -> bool, a: string, r: string, b: string, a': string, r': string, b': string)
    requires Cut(s, p, a, r, b) && (r != "" ==> !p(r[0]) && !p(r[|r| - 1]))
    requires Cut(s, p, a', r', b')
    ensures r != "" ==> r' != "" && |a'| <= |a| && |b'| <= |b|
  {
    if r != "" {
      var i, j := |a|, |a| + |r| - 1;
      assert s[i] == r[0] && s[j] == r[|r| - 1];
      assert forall k :: 0 <= k < |a'| ==> s[k] == a'[k];
      assert forall k :: |s| - |b'| <= k < |s| ==> s[k] == b'[k - (|s| - |b'|)];
    }
  }

  lemma BareFirst(s: string, p: char -> bool, r: string)
    requires s != [] && p(s[0]) && Bare(s[1..], p, r)
    ensures Bare(s, p, r)
  {
    BareWrapped(s[1..], p, r, [s[0]], []);
    assert [s[0]] + s[1..] + [] == s;
  }

  lemma BareLast(s: string, p: char -> bool, r: string)
    requires s != [] && p(s[|s| - 1]) && Bare(s[..|s| - 1], p, r)
    ensures Bare(s, p, r)
  {
    BareWrapped(s[..|s| - 1], p, r, [], [s[|s| - 1]]);
    assert [] + s[..|s| - 1] + [s[|s| - 1]] == s;
  }

  lemma BareItself(s: string, p: char -> bool)
    requires s != "" ==> !p(s[0]) && !p(s[|s| - 1])
    ensures Bare(s, p, s)
  {
    assert Cut(s, p, [], s, []);
  }

  /** `Trim` removes the white space at both ends. */
  lemma {:induction false} TrimIs(s: string)
    ensures Bare(s, IsSpace, Trim(s))
    decreases |s|
  {
    if s != [] && IsSpace(s[0]) {
      TrimIs(s[1..]);
      BareFirst(s, IsSpace, Trim(s));
    } else if s != [] && IsSpace(s[|s| - 1]) {
      TrimIs(s[..|s| - 1]);
      BareLast(s, IsSpace, Trim(s));
    } else {
      BareItself(s, IsSpace);
    }
  }

  lemma TrimIff(s: string, r: string)
    ensures Trim(s) == r <==> Bare(s, IsSpace, r)
  {
    TrimIs(s);
    if Bare(s, IsSpace, r) {
      BareIsUnique(s, IsSpace, r, Trim(s));
    }
  }
}
