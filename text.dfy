/**
 * String operations the core relies on: Python's str() of an int, ASCII
 * lower-casing, Python's ordering of str (used by sorted()), str.replace,
 * str.join, and the SQL ILIKE operator the queries use for text filters.
 */
module Text {

  predicate IsDigit(c: char)
  {
    '0' <= c <= '9'
  }

  /** The decimal digit for 0 <= d < 10. */
  function DigitChar(d: int): (c: char)
    requires 0 <= d < 10
    ensures IsDigit(c)
  {
    (48 + d) as char
  }

  /** Python's str(n) for n >= 0: the decimal digits, most significant first, no leading zero. */
  function NatToString(n: nat): (s: string)
    ensures |s| >= 1
    ensures forall i :: 0 <= i < |s| ==> IsDigit(s[i])
    decreases n
  {
    if n < 10 then [DigitChar(n)] else NatToString(n / 10) + [DigitChar(n % 10)]
  }

  /** Python's str(n) for any int: a minus sign for negative numbers, then the digits. */
  function IntToString(n: int): (s: string)
    ensures |s| >= 1
    ensures forall i :: 0 <= i < |s| ==> IsDigit(s[i]) || (i == 0 && s[i] == '-')
    ensures n < 0 <==> s[0] == '-'
  {
    if n < 0 then "-" + NatToString(-n) else NatToString(n)
  }

  lemma {:induction false} NatToStringInjective(a: nat, b: nat)
    requires NatToString(a) == NatToString(b)
    ensures a == b
    decreases a
  {
    var sa, sb := NatToString(a), NatToString(b);
    if a < 10 && b < 10 {
      assert sa[0] == DigitChar(a) && sb[0] == DigitChar(b);
    } else if a >= 10 && b >= 10 {
      assert sa[|sa| - 1] == DigitChar(a % 10);
      assert sb[|sb| - 1] == DigitChar(b % 10);
      assert NatToString(a / 10) == sa[..|sa| - 1];
      assert NatToString(b / 10) == sb[..|sb| - 1];
      NatToStringInjective(a / 10, b / 10);
    }
  }

  /** Distinct ids render to distinct strings, so keys built from them never collide. */
  lemma {:induction false} IntToStringInjective(a: int, b: int)
    requires IntToString(a) == IntToString(b)
    ensures a == b
  {
    if a < 0 && b < 0 {
      assert NatToString(-a) == IntToString(a)[1..];
      assert NatToString(-b) == IntToString(b)[1..];
      NatToStringInjective(-a, -b);
    } else if a >= 0 && b >= 0 {
      NatToStringInjective(a, b);
    }
  }

  /** A rendered int holds no ':' and no glob metacharacter. */
  lemma IntToStringPlain(n: int, i: int)
    requires 0 <= i < |IntToString(n)|
    ensures IntToString(n)[i] != ':' && IntToString(n)[i] != '*'
  {
  }

  // ----- Case -----

  /** ASCII lower-casing of one character. */
  function Lower(c: char): char
  {
    if 'A' <= c <= 'Z' then (c as int + 32) as char else c
  }

  /** str.lower(), restricted to ASCII letters. */
  function LowerStr(s: string): (r: string)
    ensures |r| == |s|
    ensures forall i :: 0 <= i < |s| ==> r[i] == Lower(s[i])
  {
    seq(|s|, i requires 0 <= i < |s| => Lower(s[i]))
  }

  // ----- Python's ordering of str -----

  /** Python's a < b on str: lexicographic by code point, a proper prefix first. */
  predicate Less(a: string, b: string)
    decreases |a|
  {
    b != [] && (a == [] || a[0] < b[0] || (a[0] == b[0] && Less(a[1..], b[1..])))
  }

  lemma {:induction false} LessIrreflexive(a: string)
    ensures !Less(a, a)
    decreases |a|
  {
    if a != [] {
      LessIrreflexive(a[1..]);
    }
  }

  lemma {:induction false} LessTransitive(a: string, b: string, c: string)
    requires Less(a, b) && Less(b, c)
    ensures Less(a, c)
    decreases |a|
  {
    if a != [] && a[0] == b[0] && b[0] == c[0] {
      LessTransitive(a[1..], b[1..], c[1..]);
    }
  }

  lemma {:induction false} LessTotal(a: string, b: string)
    requires a != b
    ensures Less(a, b) || Less(b, a)
    decreases |a|
  {
    if a != [] && b != [] && a[0] == b[0] {
      assert a == [a[0]] + a[1..] && b == [b[0]] + b[1..];
      LessTotal(a[1..], b[1..]);
    }
  }

  lemma LessAsymmetric(a: string, b: string)
    requires Less(a, b)
    ensures !Less(b, a)
  {
    if Less(b, a) {
      LessTransitive(a, b, a);
      LessIrreflexive(a);
    }
  }

  // ----- str.replace and str.join -----

  /** s.replace(c, r) for a one-character c: every occurrence, left to right. */
  function ReplaceChar(s: string, c: char, r: string): string
  {
    if s == [] then [] else (if s[0] == c then r else [s[0]]) + ReplaceChar(s[1..], c, r)
  }

  /** sep.join(parts). */
  function Join(sep: string, parts: seq<string>): string
  {
    if parts == [] then "" else if |parts| == 1 then parts[0] else parts[0] + sep + Join(sep, parts[1..])
  }

  // ----- SQL ILIKE -----

  /**
   * PostgreSQL's `s ILIKE p`: '%' matches any run of characters, '_' any one
   * character, '\' makes the next pattern character literal; other characters
   * match after lower-casing.
   */
  predicate Like(p: string, s: string)
    decreases |p| + |s|
  {
    if p == [] then s == []
    else if p[0] == '%' then Like(p[1..], s) || (s != [] && Like(p, s[1..]))
    else if p[0] == '_' then s != [] && Like(p[1..], s[1..])
    else if p[0] == '\\' && |p| >= 2 then s != [] && Lower(p[1]) == Lower(s[0]) && Like(p[2..], s[1..])
    else s != [] && Lower(p[0]) == Lower(s[0]) && Like(p[1..], s[1..])
  }

  /** The text has none of ILIKE's metacharacters. */
  predicate NoWildcards(t: string)
  {
    forall i :: 0 <= i < |t| ==> t[i] != '%' && t[i] != '_' && t[i] != '\\'
  }

  predicate EqualsIgnoringCase(a: string, b: string)
  {
    |a| == |b| && forall i :: 0 <= i < |a| ==> Lower(a[i]) == Lower(b[i])
  }

  /** t occurs in s at position i, ignoring ASCII case. */
  predicate OccursAt(t: string, s: string, i: int)
  {
    0 <= i <= |s| - |t| && EqualsIgnoringCase(s[i..i + |t|], t)
  }

  /** Case-insensitive substring search: the reference meaning of `ILIKE '%t%'`. */
  predicate ContainsIgnoringCase(s: string, t: string)
  {
    exists i :: 0 <= i <= |s| - |t| && OccursAt(t, s, i)
  }

  lemma {:induction false} LikeAnything(s: string)
    ensures Like("%", s)
    decreases |s|
  {
    if s != [] {
      LikeAnything(s[1..]);
    }
  }

  lemma {:induction false} LikeLiteralPrefix(t: string, r: string, s: string)
    requires NoWildcards(t)
    ensures Like(t + r, s) <==> |t| <= |s| && EqualsIgnoringCase(s[..|t|], t) && Like(r, s[|t|..])
    decreases |t|
  {
    if t == [] {
      assert t + r == r && s[|t|..] == s;
    } else {
      var p := t + r;
      assert p[0] == t[0] && p[1..] == t[1..] + r;
      if s != [] {
        LikeLiteralPrefix(t[1..], r, s[1..]);
        if |t| <= |s| {
          assert s[1..][|t| - 1..] == s[|t|..];
          var a, b := s[..|t|], s[1..][..|t| - 1];
          assert a == [s[0]] + b;
          if Lower(t[0]) == Lower(s[0]) && EqualsIgnoringCase(b, t[1..]) {
            forall i | 0 <= i < |t| ensures Lower(a[i]) == Lower(t[i]) {
              if i > 0 {
                assert a[i] == b[i - 1] && t[i] == t[1..][i - 1];
              }
            }
          }
          if EqualsIgnoringCase(a, t) {
            assert Lower(t[0]) == Lower(s[0]);
            forall i | 0 <= i < |t| - 1 ensures Lower(b[i]) == Lower(t[1..][i]) {
              assert b[i] == a[i + 1];
            }
          }
        }
      }
    }
  }

  lemma {:induction false} LikeLeadingPercent(q: string, s: string)
    ensures Like("%" + q, s) <==> exists i :: 0 <= i <= |s| && Like(q, s[i..])
    decreases |s|
  {
    var p := "%" + q;
    assert p[0] == '%' && p[1..] == q;
    assert s[0..] == s;
    if s != [] {
      LikeLeadingPercent(q, s[1..]);
      if Like(p, s[1..]) {
        var j :| 0 <= j <= |s[1..]| && Like(q, s[1..][j..]);
        assert s[1..][j..] == s[j + 1..];
      }
      if exists i :: 0 <= i <= |s| && Like(q, s[i..]) {
        var i :| 0 <= i <= |s| && Like(q, s[i..]);
        if i > 0 {
          assert s[1..][i - 1..] == s[i..];
        }
      }
    }
  }

  /**
   * With no metacharacters in t, `s ILIKE '%' || t || '%'` is exactly a
   * case-insensitive substring test (both directions).
   */
  lemma IlikeIsSubstringSearch(t: string, s: string)
    requires NoWildcards(t)
    ensures Like("%" + t + "%", s) <==> ContainsIgnoringCase(s, t)
  {
    var q := t + "%";
    assert "%" + t + "%" == "%" + q;
    LikeLeadingPercent(q, s);
    if Like("%" + q, s) {
      var i :| 0 <= i <= |s| && Like(q, s[i..]);
      LikeLiteralPrefix(t, "%", s[i..]);
      assert s[i..][..|t|] == s[i..i + |t|];
      assert OccursAt(t, s, i);
    }
    if ContainsIgnoringCase(s, t) {
      var i :| 0 <= i <= |s| - |t| && OccursAt(t, s, i);
      LikeLiteralPrefix(t, "%", s[i..]);
      LikeAnything(s[i..][|t|..]);
      assert s[i..][..|t|] == s[i..i + |t|];
      assert Like(q, s[i..]);
    }
  }
}
