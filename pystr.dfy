/**
 * The Python `str` operations the loader relies on, with their real semantics:
 * `lstrip`/`rstrip` remove a *set* of characters, `split` on one separator
 * character, `sep.join`, `str.replace` (and `re.sub` with a literal pattern,
 * which behaves the same), and `str()` of a non-negative int.
 */
module PyStr {

  /** s.lstrip(chars): removes leading characters as long as they belong to `chars`. */
  function LStrip(s: string, chars: string): string
  {
    if |s| > 0 && s[0] in chars then LStrip(s[1..], chars) else s
  }

  /** lstrip removes the longest prefix made only of characters drawn from `chars`, and nothing else. */
  lemma {:induction false} LStripSpec(s: string, chars: string)
    ensures var r := LStrip(s, chars);
      && |r| <= |s| && r == s[|s| - |r|..]
      && (r == [] || r[0] !in chars)
      && forall i :: 0 <= i < |s| - |r| ==> s[i] in chars
  {
    if |s| > 0 && s[0] in chars {
      LStripSpec(s[1..], chars);
    }
  }

  /** s.rstrip(chars): removes trailing characters as long as they belong to `chars`. */
  function RStrip(s: string, chars: string): string
  {
    if |s| > 0 && s[|s| - 1] in chars then RStrip(s[..|s| - 1], chars) else s
  }

  /** rstrip removes the longest suffix made only of characters drawn from `chars`, and nothing else. */
  lemma {:induction false} RStripSpec(s: string, chars: string)
    ensures var r := RStrip(s, chars);
      && |r| <= |s| && r == s[..|r|]
      && (r == [] || r[|r| - 1] !in chars)
      && forall i :: |r| <= i < |s| ==> s[i] in chars
  {
    if |s| > 0 && s[|s| - 1] in chars {
      RStripSpec(s[..|s| - 1], chars);
    }
  }

  /** Number of occurrences of `c` in `s`. */
  function Count(s: string, c: char): nat
  {
    if |s| == 0 then 0 else (if s[0] == c then 1 else 0) + Count(s[1..], c)
  }

  /** s.split(sep) for a one-character separator: always at least one piece, none holding `sep`. */
  function Split(s: string, sep: char): (r: seq<string>)
    ensures |r| == Count(s, sep) + 1
  {
    if |s| == 0 then [""]
    else
      var rest := Split(s[1..], sep);
      if s[0] == sep then [""] + rest
      else [[s[0]] + rest[0]] + rest[1..]
  }

  /** No piece of a split holds the separator. */
  lemma {:induction false} SplitPiecesLackSep(s: string, sep: char)
    ensures forall i :: 0 <= i < |Split(s, sep)| ==> sep !in Split(s, sep)[i]
  {
    if |s| > 0 {
      SplitPiecesLackSep(s[1..], sep);
    }
  }

  /** sep.join(xs) */
  function Join(xs: seq<string>, sep: string): string
  {
    if |xs| == 0 then ""
    else if |xs| == 1 then xs[0]
    else xs[0] + sep + Join(xs[1..], sep)
  }

  lemma JoinCons(x: string, ys: seq<string>, sep: string)
    ensures Join([x] + ys, sep) == if |ys| == 0 then x else x + sep + Join(ys, sep)
  {
    assert ([x] + ys)[1..] == ys;
  }

  /** Joining the pieces of a split with the same separator gives back the original text. */
  lemma {:induction false} JoinSplit(s: string, sep: char)
    ensures Join(Split(s, sep), [sep]) == s
  {
    if |s| > 0 {
      var rest := Split(s[1..], sep);
      JoinSplit(s[1..], sep);
      if s[0] == sep {
        JoinCons("", rest, [sep]);
      } else {
        JoinCons([s[0]] + rest[0], rest[1..], [sep]);
        JoinCons(rest[0], rest[1..], [sep]);
        assert rest == [rest[0]] + rest[1..];
      }
      assert s == [s[0]] + s[1..];
    }
  }

  lemma {:induction false} SplitWithoutSep(a: string, sep: char)
    requires sep !in a
    ensures Split(a, sep) == [a]
  {
    if |a| > 0 {
      SplitWithoutSep(a[1..], sep);
      assert a == [a[0]] + a[1..];
    }
  }

  lemma {:induction false} SplitAtSep(a: string, sep: char, t: string)
    requires sep !in a
    ensures Split(a + [sep] + t, sep) == [a] + Split(t, sep)
  {
    if |a| == 0 {
      assert a + [sep] + t == [sep] + t;
      assert ([sep] + t)[1..] == t;
    } else {
      SplitAtSep(a[1..], sep, t);
      assert (a + [sep] + t)[1..] == a[1..] + [sep] + t;
      assert [a[0]] + a[1..] == a;
    }
  }

  /** Splitting a join recovers the parts when no part holds the separator. */
  lemma {:induction false} SplitJoin(xs: seq<string>, sep: char)
    requires |xs| > 0
    requires forall i :: 0 <= i < |xs| ==> sep !in xs[i]
    ensures Split(Join(xs, [sep]), sep) == xs
  {
    if |xs| == 1 {
      SplitWithoutSep(xs[0], sep);
    } else {
      SplitJoin(xs[1..], sep);
      SplitAtSep(xs[0], sep, Join(xs[1..], [sep]));
      assert xs == [xs[0]] + xs[1..];
    }
  }

  /**
   * s.replace(pat, rep): every non-overlapping occurrence of `pat`, scanning
   * left to right, is replaced; an empty `pat` inserts `rep` around every character.
   */
  function ReplaceAll(s: string, pat: string, rep: string): string
    decreases |s|
  {
    if |pat| == 0 then
      if |s| == 0 then rep else rep + [s[0]] + ReplaceAll(s[1..], pat, rep)
    else if |s| < |pat| then s
    else if s[..|pat|] == pat then rep + ReplaceAll(s[|pat|..], pat, rep)
    else [s[0]] + ReplaceAll(s[1..], pat, rep)
  }

  /** Text that cannot start an occurrence of `pat` anywhere is copied unchanged. */
  lemma {:induction false} ReplaceSkips(a: string, x: string, pat: string, rep: string)
    requires |pat| > 0 && pat[0] !in a
    ensures ReplaceAll(a + x, pat, rep) == a + ReplaceAll(x, pat, rep)
  {
    if |a| > 0 {
      var s := a + x;
      assert s[0] == a[0] != pat[0];
      assert s[1..] == a[1..] + x;
      ReplaceSkips(a[1..], x, pat, rep);
      assert a == [a[0]] + a[1..];
      if |s| < |pat| {
        assert ReplaceAll(x, pat, rep) == x;
        assert ReplaceAll(s, pat, rep) == s;
      } else {
        assert s[..|pat|][0] == s[0];
        assert ReplaceAll(s, pat, rep) == [s[0]] + ReplaceAll(s[1..], pat, rep);
        assert ReplaceAll(s, pat, rep) == [a[0]] + (a[1..] + ReplaceAll(x, pat, rep));
      }
    } else {
      assert a + x == x;
    }
  }

  /** An occurrence at the front is replaced and scanning resumes after it. */
  lemma ReplaceAtFront(pat: string, x: string, rep: string)
    requires |pat| > 0
    ensures ReplaceAll(pat + x, pat, rep) == rep + ReplaceAll(x, pat, rep)
  {
    assert (pat + x)[..|pat|] == pat;
    assert (pat + x)[|pat|..] == x;
  }

  /** A template holding exactly one occurrence, with no other place an occurrence could start. */
  lemma ReplaceTemplate(a: string, pat: string, b: string, rep: string)
    requires |pat| > 0 && pat[0] !in a && pat[0] !in b
    ensures ReplaceAll(a + pat + b, pat, rep) == a + rep + b
  {
    assert a + pat + b == a + (pat + b);
    ReplaceSkips(a, pat + b, pat, rep);
    ReplaceAtFront(pat, b, rep);
    ReplaceSkips(b, [], pat, rep);
    assert b + [] == b;
  }

  predicate IsDigit(c: char) {
    '0' <= c <= '9'
  }

  /** str(n) for a non-negative int: its decimal digits, most significant first. */
  function Decimal(n: nat): (r: string)
    ensures |r| > 0
    ensures forall i :: 0 <= i < |r| ==> IsDigit(r[i])
  {
    var d := ('0' as int + n % 10) as char;
    if n < 10 then [d] else Decimal(n / 10) + [d]
  }

  /** int(s) for a string of decimal digits. */
  function DecimalValue(s: string): nat
  {
    if |s| == 0 then 0
    else
      var c := s[|s| - 1];
      10 * DecimalValue(s[..|s| - 1]) + (if IsDigit(c) then c as int - '0' as int else 0)
  }

  /** int(str(n)) == n: so two different years never print the same. */
  lemma {:induction false} DecimalRoundTrip(n: nat)
    ensures DecimalValue(Decimal(n)) == n
  {
    var r := Decimal(n);
    if n >= 10 {
      DecimalRoundTrip(n / 10);
      assert r[..|r| - 1] == Decimal(n / 10);
    }
  }
}
