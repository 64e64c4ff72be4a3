/** The string operations the dashboard's SQL relies on: `ILIKE` with the
    `%`, `_` and `\` metacharacters, `int::text`, and the ordering of text
    values under ORDER BY. */
module Text {

  /** ILIKE folds case before matching; only ASCII letters are folded here. */
  function LowerChar(c: char): char {
    if 'A' <= c <= 'Z' then (c as int + 32) as char else c
  }

  function Lower(s: string): (r: string)
    ensures |r| == |s|
    ensures forall i :: 0 <= i < |s| ==> r[i] == LowerChar(s[i])
  {
    seq(|s|, i requires 0 <= i < |s| => LowerChar(s[i]))
  }

  lemma LowerConcat(a: string, b: string)
    ensures Lower(a + b) == Lower(a) + Lower(b)
  {
  }

  /** A query string none of whose characters means anything special in a
      LIKE pattern. */
  predicate IsWildcardFree(q: string) {
    forall i :: 0 <= i < |q| ==> q[i] != '%' && q[i] != '_' && q[i] != '\\'
  }

  /** `s LIKE p` in PostgreSQL: `%` matches any run of characters, `_` any one
      character, `\` makes the next character literal, and every other
      character matches itself; the whole of `s` must be matched. PostgreSQL
      rejects a pattern that ends in a lone `\`; the search patterns of this
      model end in `%` and never reach that case, which is taken as no match. */
  predicate Like(s: string, p: string)
    decreases |s| + |p|
  {
    if p == [] then s == []
    else if p[0] == '%' then Like(s, p[1..]) || (s != [] && Like(s[1..], p))
    else if p[0] == '_' then s != [] && Like(s[1..], p[1..])
    else if p[0] == '\\' then |p| >= 2 && s != [] && s[0] == p[1] && Like(s[1..], p[2..])
    else s != [] && s[0] == p[0] && Like(s[1..], p[1..])
  }

  /** `s ILIKE p` */
  predicate ILike(s: string, p: string) {
    Like(Lower(s), Lower(p))
  }

  /** The pattern the data layer binds for a search text: the text is spliced
      between two `%` without escaping. */
  function SearchPattern(query: string): string {
    "%" + query + "%"
  }

  /** `t` occurs in `s` starting at position `i`. */
  predicate OccursAt(s: string, t: string, i: int) {
    0 <= i <= |s| - |t| && s[i..i + |t|] == t
  }

  /** `t` occurs in `s` as a contiguous substring. */
  predicate Contains(s: string, t: string) {
    exists i | 0 <= i <= |s| - |t| :: OccursAt(s, t, i)
  }

  /** Case-insensitive containment: what a search for a plain text promises. */
  predicate ContainsIgnoringCase(s: string, t: string) {
    Contains(Lower(s), Lower(t))
  }

  lemma {:induction false} LikeAnyTail(s: string)
    ensures Like(s, "%")
  {
    if s != [] {
      LikeAnyTail(s[1..]);
    }
  }

  /** A literal text followed by `%` matches exactly the strings it prefixes. */
  lemma {:induction false} LikeLiteralPrefix(s: string, t: string)
    requires IsWildcardFree(t)
    ensures Like(s, t + "%") <==> t <= s
  {
    if t == [] {
      assert t + "%" == "%";
      LikeAnyTail(s);
    } else {
      assert (t + "%")[1..] == t[1..] + "%";
      assert t[0] != '%' && t[0] != '_' && t[0] != '\\';
      if s != [] {
        assert IsWildcardFree(t[1..]) by {
          forall i | 0 <= i < |t[1..]| ensures t[1..][i] != '%' && t[1..][i] != '_' && t[1..][i] != '\\' {
            assert t[1..][i] == t[i + 1];
          }
        }
        LikeLiteralPrefix(s[1..], t[1..]);
        assert t <= s <==> s[0] == t[0] && t[1..] <= s[1..];
      }
    }
  }

  lemma PrefixIsOccurrenceAtZero(s: string, t: string)
    ensures OccursAt(s, t, 0) <==> t <= s
  {
    if |t| <= |s| {
      assert s[0..|t|] == s[..|t|];
    }
  }

  lemma ContainsStep(s: string, t: string)
    ensures Contains(s, t) <==> t <= s || (s != [] && Contains(s[1..], t))
  {
    if t <= s {
      assert OccursAt(s, t, 0);
    }
    if s != [] && Contains(s[1..], t) {
      var i :| OccursAt(s[1..], t, i);
      assert OccursAt(s[1..], t, i);
      assert s[1..][i..i + |t|] == s[i + 1..i + 1 + |t|];
      assert OccursAt(s, t, i + 1);
    }
    if Contains(s, t) && !(t <= s) {
      var i :| OccursAt(s, t, i);
      assert OccursAt(s, t, i);
      PrefixIsOccurrenceAtZero(s, t);
      assert s[1..][i - 1..i - 1 + |t|] == s[i..i + |t|];
      assert OccursAt(s[1..], t, i - 1);
    }
  }

  /** For a query without metacharacters, `%q%` matches exactly the strings
      containing `q`. */
  lemma {:induction false} LikeSearchPattern(s: string, t: string)
    requires IsWildcardFree(t)
    ensures Like(s, SearchPattern(t)) <==> Contains(s, t)
  {
    var p := SearchPattern(t);
    assert p[0] == '%';
    assert p[1..] == t + "%";
    LikeLiteralPrefix(s, t);
    ContainsStep(s, t);
    if s != [] {
      LikeSearchPattern(s[1..], t);
    }
  }

  lemma LowerKeepsWildcardFree(q: string)
    requires IsWildcardFree(q)
    ensures IsWildcardFree(Lower(q))
  {
  }

  /** The search contract: for a plain query, `ILIKE '%q%'` holds exactly when
      the field contains the query, ignoring ASCII case. */
  lemma SearchMatchesSubstring(s: string, q: string)
    requires IsWildcardFree(q)
    ensures ILike(s, SearchPattern(q)) <==> ContainsIgnoringCase(s, q)
  {
    LowerConcat("%", q);
    LowerConcat("%" + q, "%");
    assert Lower(SearchPattern(q)) == SearchPattern(Lower(q));
    LowerKeepsWildcardFree(q);
    LikeSearchPattern(Lower(s), Lower(q));
  }

  lemma {:induction false} LikeLeadingPercent(s: string, p: string)
    requires Like(s, p)
    ensures Like(s, "%" + p)
  {
    assert ("%" + p)[1..] == p;
  }

  /** The query text is not escaped: a query of `%` matches every value. */
  lemma PercentQueryMatchesEverything(s: string)
    ensures ILike(s, SearchPattern("%"))
  {
    assert Lower(SearchPattern("%")) == "%%%";
    LikeAnyTail(Lower(s));
    LikeLeadingPercent(Lower(s), "%");
    assert "%" + "%" == "%%";
    LikeLeadingPercent(Lower(s), "%%");
    assert "%" + "%%" == "%%%";
  }

  /** The query text is not escaped: a query of `_` matches every value of at
      least one character, and only those. */
  lemma UnderscoreQueryMatchesAnyNonEmpty(s: string)
    ensures ILike(s, SearchPattern("_")) <==> s != []
  {
    var t := Lower(s);
    assert Lower(SearchPattern("_")) == "%_%";
    assert "%_%"[1..] == "_%";
    assert "_%"[1..] == "%";
    if t != [] {
      LikeAnyTail(t[1..]);
      assert Like(t, "_%");
    } else {
      assert !Like(t, "_%");
    }
  }

  /** The query text is not escaped: a query of `_` matches a value that does
      not contain the character `_`. */
  lemma UnderscoreQueryIsAWildcard()
    ensures ILike("ab", SearchPattern("_")) && !Contains("ab", "_")
  {
    assert Lower("ab") == "ab";
    assert Lower(SearchPattern("_")) == "%_%";
    assert "%_%"[1..] == "_%";
    assert "_%"[1..] == "%";
    LikeAnyTail("b");
    assert Like("ab", "_%");
    assert !Contains("ab", "_") by {
      forall i | 0 <= i <= 1 ensures !OccursAt("ab", "_", i) {
        assert "ab"[i..i + 1][0] == "ab"[i];
      }
    }
  }

  // ---- int::text ----

  function DigitChar(d: nat): char
    requires d < 10
  {
    ('0' as int + d) as char
  }

  predicate IsDigit(c: char) {
    '0' <= c <= '9'
  }

  /** The decimal numeral of `n`, without leading zeros. */
  function Digits(n: nat): (r: string)
    ensures |r| >= 1
    ensures forall k :: 0 <= k < |r| ==> IsDigit(r[k])
    ensures n >= 10 ==> r[0] != '0'
    decreases n
  {
    if n < 10 then [DigitChar(n)] else Digits(n / 10) + [DigitChar(n % 10)]
  }

  /** `i::text` for an integer column: the decimal numeral with a leading
      minus sign when negative. */
  function IntText(i: int): string {
    if i < 0 then "-" + Digits(-i) else Digits(i)
  }

  /** The value of a string of decimal digits. */
  function DigitsValue(s: string): int {
    if s == [] then 0 else DigitsValue(s[..|s| - 1]) * 10 + (s[|s| - 1] as int - '0' as int)
  }

  /** Reading an integer's text back, the inverse of IntText. */
  function ParseInt(s: string): int {
    if |s| > 0 && s[0] == '-' then -DigitsValue(s[1..]) else DigitsValue(s)
  }

  lemma {:induction false} DigitsValueOfDigits(n: nat)
    ensures DigitsValue(Digits(n)) == n
    decreases n
  {
    if n >= 10 {
      var d := Digits(n);
      assert d[..|d| - 1] == Digits(n / 10);
      DigitsValueOfDigits(n / 10);
    }
  }

  /** `amount::text` reads back to the amount: the text is the numeral of the
      cents value itself. */
  lemma IntTextRoundTrip(i: int)
    ensures ParseInt(IntText(i)) == i
  {
    if i < 0 {
      assert ("-" + Digits(-i))[1..] == Digits(-i);
      DigitsValueOfDigits(-i);
    } else {
      DigitsValueOfDigits(i);
    }
  }

  // ---- ORDER BY on text ----

  /** Code-point lexicographic order on text (the "C" collation). */
  predicate StrLe(a: string, b: string) {
    a == [] || (b != [] && (a[0] < b[0] || (a[0] == b[0] && StrLe(a[1..], b[1..]))))
  }

  lemma {:induction false} StrLeTotal(a: string, b: string)
    ensures StrLe(a, b) || StrLe(b, a)
  {
    if a != [] && b != [] && a[0] == b[0] {
      StrLeTotal(a[1..], b[1..]);
    }
  }

  lemma {:induction false} StrLeTransitive(a: string, b: string, c: string)
    requires StrLe(a, b) && StrLe(b, c)
    ensures StrLe(a, c)
  {
    if a != [] && a[0] == b[0] && b[0] == c[0] {
      StrLeTransitive(a[1..], b[1..], c[1..]);
    }
  }

  lemma {:induction false} StrLeAntisymmetric(a: string, b: string)
    requires StrLe(a, b) && StrLe(b, a)
    ensures a == b
  {
    if a != [] {
      StrLeAntisymmetric(a[1..], b[1..]);
      assert a == [a[0]] + a[1..];
      assert b == [b[0]] + b[1..];
    }
  }
}
