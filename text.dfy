/** Python string operations the modelled code relies on: `startswith`,
    `endswith`, the `in` substring test, `strip()`, `str(int)` and `int(str)`,
    `split(' ')` and `fnmatch` patterns made of literals and `*`. */
module Text {
  import opened Streams

  predicate StartsWith(s: string, prefix: string)
  {
    |prefix| <= |s| && s[..|prefix|] == prefix
  }

  predicate EndsWith(s: string, suffix: string)
  {
    |suffix| <= |s| && s[|s| - |suffix|..] == suffix
  }

  /** `t` occurs in `s` starting at index `i`. */
  predicate OccursAt(s: string, t: string, i: int)
  {
    0 <= i && i + |t| <= |s| && s[i..i + |t|] == t
  }

  /** Python's `t in s` on strings. */
  predicate Contains(s: string, t: string)
    decreases |s|
  {
    StartsWith(s, t) || (s != [] && Contains(s[1..], t))
  }

  lemma {:induction false} ContainsIff(s: string, t: string)
    ensures Contains(s, t) <==> exists i :: OccursAt(s, t, i)
  {
    if s == [] {
      if t == [] {
        assert OccursAt(s, t, 0);
      }
    } else {
      ContainsIff(s[1..], t);
      if StartsWith(s, t) {
        assert OccursAt(s, t, 0);
      }
      if exists i :: OccursAt(s[1..], t, i) {
        var i :| OccursAt(s[1..], t, i);
        assert s[i + 1..i + 1 + |t|] == s[1..][i..i + |t|];
        assert OccursAt(s, t, i + 1);
      }
      if exists i :: OccursAt(s, t, i) {
        var i :| OccursAt(s, t, i);
        if i > 0 {
          assert s[1..][i - 1..i - 1 + |t|] == s[i..i + |t|];
          assert OccursAt(s[1..], t, i - 1);
        } else {
          assert StartsWith(s, t);
        }
      }
    }
  }

  /** Python's `str.isspace()` for one character. */
  predicate IsSpace(c: char)
  {
    ('\U{9}' <= c <= '\U{d}') || ('\U{1c}' <= c <= ' ') || c == '\U{85}' || c == '\U{a0}'
    || c == '\U{1680}' || ('\U{2000}' <= c <= '\U{200a}') || c == '\U{2028}' || c == '\U{2029}'
    || c == '\U{202f}' || c == '\U{205f}' || c == '\U{3000}'
  }

  predicate AllSpace(s: string)
  {
    forall i :: 0 <= i < |s| ==> IsSpace(s[i])
  }

  function StripStart(s: string): string
  {
    if s != [] && IsSpace(s[0]) then StripStart(s[1..]) else s
  }

  function StripEnd(s: string): string
  {
    if s != [] && IsSpace(s[|s| - 1]) then StripEnd(s[..|s| - 1]) else s
  }

  /** Python's `s.strip()`. */
  function Strip(s: string): string
  {
    StripEnd(StripStart(s))
  }

  /** `r` is `s` with a run of whitespace removed at each end. */
  predicate TrimmedOf(r: string, s: string)
  {
    exists i, j :: 0 <= i <= j <= |s| && r == s[i..j] && AllSpace(s[..i]) && AllSpace(s[j..])
  }

  lemma {:induction false} StripStartFacts(s: string)
    ensures StripStart(s) == [] || !IsSpace(StripStart(s)[0])
    ensures |StripStart(s)| <= |s|
    ensures StripStart(s) == s[|s| - |StripStart(s)|..]
    ensures AllSpace(s[..|s| - |StripStart(s)|])
  {
    if s != [] && IsSpace(s[0]) {
      StripStartFacts(s[1..]);
      var k := |s| - |StripStart(s)|;
      assert s[1..][..k - 1] == s[1..k];
    }
  }

  lemma {:induction false} StripEndFacts(s: string)
    ensures StripEnd(s) == [] || !IsSpace(StripEnd(s)[|StripEnd(s)| - 1])
    ensures |StripEnd(s)| <= |s|
    ensures StripEnd(s) == s[..|StripEnd(s)|]
    ensures AllSpace(s[|StripEnd(s)|..])
    ensures s != [] && !IsSpace(s[0]) ==> StripEnd(s) != [] && StripEnd(s)[0] == s[0]
  {
    if s != [] && IsSpace(s[|s| - 1]) {
      var t := s[..|s| - 1];
      assert StripEnd(s) == StripEnd(t);
      StripEndFacts(t);
      var k := |StripEnd(t)|;
      assert t[..k] == s[..k];
      assert t[k..] + [s[|s| - 1]] == s[k..];
      if |s| > 1 {
        assert t[0] == s[0];
      }
    }
  }

  /** `strip()` removes exactly the leading and trailing whitespace: the
      result is a slice of the input with only whitespace cut away, it
      neither starts nor ends with whitespace, and it is empty exactly when
      the input is all whitespace. */
  lemma StripCharacterised(s: string)
    ensures TrimmedOf(Strip(s), s)
    ensures Strip(s) == [] || (!IsSpace(Strip(s)[0]) && !IsSpace(Strip(s)[|Strip(s)| - 1]))
    ensures Strip(s) == [] <==> AllSpace(s)
  {
    var a := StripStart(s);
    StripStartFacts(s);
    StripEndFacts(a);
    var i := |s| - |a|;
    var j := i + |StripEnd(a)|;
    assert s[i..j] == a[..|StripEnd(a)|];
    assert s[j..] == a[|StripEnd(a)|..];
    assert TrimmedOf(Strip(s), s);
    if Strip(s) == [] {
      assert s[..i] == s;
    }
  }

  /** `strip()` is idempotent. */
  lemma StripIdempotent(s: string)
    ensures Strip(Strip(s)) == Strip(s)
  {
    StripCharacterised(s);
    var r := Strip(s);
    assert StripStart(r) == r;
    assert StripEnd(r) == r;
  }

  predicate IsDigit(c: char)
  {
    '0' <= c <= '9'
  }

  predicate AllDigits(s: string)
  {
    forall i :: 0 <= i < |s| ==> IsDigit(s[i])
  }

  function DigitChar(d: nat): (c: char)
    requires d < 10
    ensures IsDigit(c)
  {
    (('0' as int) + d) as char
  }

  function DigitValue(c: char): (d: nat)
    requires IsDigit(c)
    ensures d < 10 && DigitChar(d) == c
  {
    (c as int) - ('0' as int)
  }

  /** `str(n)` for a natural number: its decimal digits, most significant
      first, without leading zeros. */
  function NatDigits(n: nat): (r: string)
    ensures |r| >= 1 && AllDigits(r)
    decreases n
  {
    if n < 10 then [DigitChar(n)] else NatDigits(n / 10) + [DigitChar(n % 10)]
  }

  /** Python's `str(n)` for an `int`. */
  function Decimal(n: int): string
  {
    if n < 0 then "-" + NatDigits(-n) else NatDigits(n)
  }

  /** The number a string of decimal digits denotes. */
  function DigitsValue(s: string): nat
    requires AllDigits(s)
  {
    if s == [] then 0 else DigitsValue(s[..|s| - 1]) * 10 + DigitValue(s[|s| - 1])
  }

  /** An optional sign followed by ASCII digits, read as a number. */
  function ParseLiteral(s: string): Option<int>
  {
    if s != [] && (s[0] == '-' || s[0] == '+') then
      if |s| > 1 && AllDigits(s[1..]) then
        var v: int := DigitsValue(s[1..]);
        Some(if s[0] == '-' then -v else v)
      else None
    else if s != [] && AllDigits(s) then Some(DigitsValue(s))
    else None
  }

  /** Python's `int(s)`: surrounding `str.isspace` whitespace is ignored,
      then an optional sign and ASCII digits; `None` stands for the
      ValueError it raises otherwise. */
  function ParseInt(s: string): Option<int>
  {
    ParseLiteral(Strip(s))
  }

  lemma ParseIntTwelve()
    ensures ParseInt("12") == Some(12)
  {
    StripUnchanged("12");
    assert "12"[..1] == "1";
    assert DigitsValue("1") == 1 by { assert "1"[..0] == ""; }
  }

  /** Whitespace around a number is ignored. */
  lemma ParseIntSpaced()
    ensures ParseInt(" 3") == Some(3)
  {
    var a := " 3";
    assert StripStart(a) == StripStart(a[1..]) == "3";
    assert StripEnd("3") == "3";
    assert DigitsValue("3") == 3 by { assert "3"[..0] == ""; }
  }

  /** A sign and a trailing newline are accepted; whitespace inside the
      digits is not. */
  lemma ParseIntExamples()
    ensures ParseInt("-12\n") == Some(-12)
    ensures ParseInt("1 2") == None
  {
    var b := "-12\n";
    assert StripStart(b) == b;
    assert b[..|b| - 1] == "-12";
    assert StripEnd("-12") == "-12";
    assert "-12"[1..] == "12";
    assert "12"[..1] == "1";
    assert DigitsValue("1") == 1 by { assert "1"[..0] == ""; }
    var c := "1 2";
    assert Strip(c) == c;
    assert !IsDigit(c[1]);
  }

  lemma {:induction false} NatDigitsValue(n: nat)
    ensures DigitsValue(NatDigits(n)) == n
    decreases n
  {
    if n >= 10 {
      NatDigitsValue(n / 10);
      var r := NatDigits(n);
      assert r[..|r| - 1] == NatDigits(n / 10);
    }
  }

  /** A string whose first and last characters are not whitespace is
      its own strip. */
  lemma StripUnchanged(s: string)
    requires s != [] && !IsSpace(s[0]) && !IsSpace(s[|s| - 1])
    ensures Strip(s) == s
  {
  }

  /** `int(str(n)) == n`. */
  lemma DecimalRoundTrip(n: int)
    ensures ParseInt(Decimal(n)) == Some(n)
  {
    var s := Decimal(n);
    if n < 0 {
      var d := NatDigits(-n);
      NatDigitsValue(-n);
      assert s == "-" + d;
      assert s[0] == '-' && s[1..] == d && |s| > 1;
      assert IsDigit(s[|s| - 1]) by { assert s[|s| - 1] == d[|d| - 1]; }
      StripUnchanged(s);
      assert DigitsValue(s[1..]) == -n;
    } else {
      NatDigitsValue(n);
      assert IsDigit(s[0]);
      StripUnchanged(s);
      assert ParseLiteral(s) == Some(DigitsValue(s));
    }
  }

  /** Python's `s.split(sep)` for a one-character separator: empty pieces
      are kept, so there is always at least one piece. */
  function SplitOn(s: string, sep: char): (r: seq<string>)
    ensures |r| >= 1
  {
    if s == [] then [""]
    else
      var rest := SplitOn(s[1..], sep);
      if s[0] == sep then [""] + rest else [[s[0]] + rest[0]] + rest[1..]
  }

  /** Python's `sep.join(pieces)`. */
  function JoinWith(pieces: seq<string>, sep: char): string
  {
    if pieces == [] then ""
    else if |pieces| == 1 then pieces[0]
    else pieces[0] + [sep] + JoinWith(pieces[1..], sep)
  }

  /** Splitting loses nothing: joining the pieces back gives the input,
      and no piece contains the separator. */
  lemma {:induction false} SplitJoin(s: string, sep: char)
    ensures JoinWith(SplitOn(s, sep), sep) == s
    ensures forall p :: p in SplitOn(s, sep) ==> sep !in p
  {
    if s != [] {
      var rest := SplitOn(s[1..], sep);
      SplitJoin(s[1..], sep);
      if s[0] == sep {
        assert SplitOn(s, sep) == [""] + rest;
        assert ([""] + rest)[1..] == rest;
      } else {
        var r := SplitOn(s, sep);
        assert r == [[s[0]] + rest[0]] + rest[1..];
        if |rest| > 1 {
          assert rest == [rest[0]] + rest[1..];
          assert JoinWith(rest, sep) == rest[0] + [sep] + JoinWith(rest[1..], sep);
          assert r[1..] == rest[1..];
        }
        forall p | p in r ensures sep !in p {
          if p != r[0] {
            assert p in rest;
          } else {
            assert rest[0] in rest;
          }
        }
      }
    }
  }

  /** A string without the separator is a single piece. */
  lemma {:induction false} SplitOnNoSep(s: string, sep: char)
    requires sep !in s
    ensures SplitOn(s, sep) == [s]
  {
    if s != [] {
      SplitOnNoSep(s[1..], sep);
      assert [s[0]] + s[1..] == s;
    }
  }

  /** Splitting at the first separator: the piece before it, then the
      pieces of the rest. */
  lemma {:induction false} SplitOnFirst(a: string, sep: char, b: string)
    requires sep !in a
    ensures SplitOn(a + [sep] + b, sep) == [a] + SplitOn(b, sep)
  {
    if a == [] {
      assert (a + [sep] + b)[1..] == b;
    } else {
      assert (a + [sep] + b)[1..] == a[1..] + [sep] + b;
      SplitOnFirst(a[1..], sep, b);
      assert [a[0]] + a[1..] == a;
    }
  }

  /** `fnmatch.fnmatchcase(s, pat)` for patterns whose only wildcard is `*`
      (any run of characters); every other character matches itself. */
  predicate GlobMatch(s: string, pat: string)
    decreases |s| + |pat|
  {
    if pat == [] then s == []
    else if pat[0] == '*' then GlobMatch(s, pat[1..]) || (s != [] && GlobMatch(s[1..], pat))
    else s != [] && s[0] == pat[0] && GlobMatch(s[1..], pat[1..])
  }

  lemma {:induction false} GlobLiteral(s: string, lit: string)
    requires '*' !in lit
    ensures GlobMatch(s, lit) <==> s == lit
    decreases |lit|
  {
    if lit != [] {
      if s != [] {
        GlobLiteral(s[1..], lit[1..]);
        if s[0] == lit[0] && s[1..] == lit[1..] {
          assert s == [s[0]] + s[1..] && lit == [lit[0]] + lit[1..];
        }
      }
    }
  }

  lemma {:induction false} GlobStarSuffix(s: string, suffix: string)
    requires '*' !in suffix
    ensures GlobMatch(s, "*" + suffix) <==> EndsWith(s, suffix)
    decreases |s|
  {
    assert ("*" + suffix)[1..] == suffix;
    GlobLiteral(s, suffix);
    if s != [] {
      GlobStarSuffix(s[1..], suffix);
      if |s| > |suffix| {
        assert s[|s| - |suffix|..] == s[1..][|s| - 1 - |suffix|..];
      }
    }
  }

  /** A pattern `prefix*suffix` without other wildcards matches exactly the
      strings that start with `prefix`, end with `suffix` and are long enough
      to hold both. */
  lemma {:induction false} GlobPrefixStarSuffix(s: string, prefix: string, suffix: string)
    requires '*' !in prefix && '*' !in suffix
    ensures GlobMatch(s, prefix + "*" + suffix)
        <==> |prefix| + |suffix| <= |s| && StartsWith(s, prefix) && EndsWith(s, suffix)
    decreases |prefix|
  {
    if prefix == [] {
      assert prefix + "*" + suffix == "*" + suffix;
      GlobStarSuffix(s, suffix);
    } else {
      var pat := prefix + "*" + suffix;
      assert pat[0] == prefix[0] && pat[1..] == prefix[1..] + "*" + suffix;
      if s != [] {
        GlobPrefixStarSuffix(s[1..], prefix[1..], suffix);
        if s[0] == prefix[0] {
          assert StartsWith(s, prefix) <==> StartsWith(s[1..], prefix[1..]);
          if |suffix| <= |s| - 1 {
            assert s[|s| - |suffix|..] == s[1..][|s| - 1 - |suffix|..];
          }
        }
      }
    }
  }

  /** Python's `a < b` on strings: lexicographic order of code points. */
  predicate LexLess(a: string, b: string)
  {
    b != [] && (a == [] || a[0] < b[0] || (a[0] == b[0] && LexLess(a[1..], b[1..])))
  }

  lemma {:induction false} LexLessIrreflexive(a: string)
    ensures !LexLess(a, a)
  {
    if a != [] {
      LexLessIrreflexive(a[1..]);
    }
  }

  lemma {:induction false} LexLessTransitive(a: string, b: string, c: string)
    requires LexLess(a, b) && LexLess(b, c)
    ensures LexLess(a, c)
  {
    if a != [] && a[0] == b[0] && b[0] == c[0] {
      LexLessTransitive(a[1..], b[1..], c[1..]);
    }
  }

  /** Any two distinct strings are ordered one way or the other. */
  lemma {:induction false} LexLessTotal(a: string, b: string)
    ensures a == b || LexLess(a, b) || LexLess(b, a)
  {
    if a != [] && b != [] && a[0] == b[0] {
      LexLessTotal(a[1..], b[1..]);
      if a[1..] == b[1..] {
        assert a == [a[0]] + a[1..] && b == [b[0]] + b[1..];
      }
    }
  }
}
