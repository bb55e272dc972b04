/**
 * The string operations the desktop-entry record relies on: Rust's `str::trim`,
 * `str::to_lowercase` and the regular-expression rewrite `\s+` -> `-`.
 */
module Text {

  /**
   * The Unicode White_Space property. Rust's `char::is_whitespace` (used by
   * `str::trim`) and the class `\s` of the `regex` crate in Unicode mode
   * (used for the file name) both stand for exactly this set.
   */
  predicate IsWhitespace(c: char) {
    var n := c as int;
    (0x09 <= n <= 0x0D) || n == 0x20 || n == 0x85 || n == 0xA0 || n == 0x1680
    || (0x2000 <= n <= 0x200A) || n == 0x2028 || n == 0x2029 || n == 0x202F
    || n == 0x205F || n == 0x3000
  }

  predicate AllWhitespace(s: string) {
    forall i :: 0 <= i < |s| ==> IsWhitespace(s[i])
  }

  predicate NoWhitespace(s: string) {
    forall i :: 0 <= i < |s| ==> !IsWhitespace(s[i])
  }

  /** Neither end of `s` is whitespace. */
  predicate IsTrimmed(s: string) {
    s == [] || (!IsWhitespace(s[0]) && !IsWhitespace(s[|s| - 1]))
  }

  /** `s` without its leading whitespace (TrimStartSpec states what it is). */
  function TrimStart(s: string): (r: string)
    ensures |r| <= |s|
  {
    if s != [] && IsWhitespace(s[0]) then TrimStart(s[1..]) else s
  }

  /** `s` without its trailing whitespace (TrimEndSpec states what it is). */
  function TrimEnd(s: string): (r: string)
    ensures |r| <= |s|
  {
    if s != [] && IsWhitespace(s[|s| - 1]) then TrimEnd(s[..|s| - 1]) else s
  }

  /** Rust's `str::trim`: both ends stripped of whitespace (TrimSpec states what it is). */
  function Trim(s: string): (r: string)
    ensures |r| <= |s|
  {
    TrimEnd(TrimStart(s))
  }

  /** TrimStart leaves a suffix of `s` that does not start with whitespace, and drops only whitespace. */
  lemma {:induction false} TrimStartSpec(s: string)
    ensures var r := TrimStart(s);
            && r == s[|s| - |r|..]
            && AllWhitespace(s[..|s| - |r|])
            && (r == [] || !IsWhitespace(r[0]))
    decreases |s|
  {
    if s != [] && IsWhitespace(s[0]) {
      var t := s[1..];
      TrimStartSpec(t);
      var r := TrimStart(t);
      assert t[|t| - |r|..] == s[|s| - |r|..];
      forall i | 0 <= i < |s| - |r| ensures IsWhitespace(s[i]) {
        if i > 0 {
          assert s[i] == t[..|t| - |r|][i - 1];
        }
      }
    }
  }

  /** TrimEnd leaves a prefix of `s` that does not end with whitespace, and drops only whitespace. */
  lemma {:induction false} TrimEndSpec(s: string)
    ensures var r := TrimEnd(s);
            && r == s[..|r|]
            && AllWhitespace(s[|r|..])
            && (r == [] || !IsWhitespace(r[|r| - 1]))
    decreases |s|
  {
    if s != [] && IsWhitespace(s[|s| - 1]) {
      var t := s[..|s| - 1];
      TrimEndSpec(t);
      var r := TrimEnd(t);
      assert t[..|r|] == s[..|r|];
      forall i | |r| <= i < |s| ensures IsWhitespace(s[i]) {
        if i < |s| - 1 {
          assert s[i] == t[|r|..][i - |r|];
        }
      }
    }
  }

  /**
   * Trim leaves a part of `s` with whitespace at neither end; it is empty exactly
   * when `s` is all whitespace, and it holds only characters of `s`.
   */
  lemma TrimSpec(s: string)
    ensures IsTrimmed(Trim(s))
    ensures Trim(s) == [] <==> AllWhitespace(s)
    ensures forall c :: c in Trim(s) ==> c in s
  {
    var u := TrimStart(s);
    var r := TrimEnd(u);
    TrimStartSpec(s);
    TrimEndSpec(u);
    assert forall c :: c in r ==> c in u;
    assert forall c :: c in u ==> c in s;
    if r == [] {
      assert u[0..] == u;
      assert u == [];
      assert s[..|s|] == s;
    } else {
      assert r[0] == u[0];
      assert !IsWhitespace(s[|s| - |u|]);
    }
  }

  /** Lowercasing of one character; only the ASCII capitals A-Z change. */
  function LowerChar(c: char): char {
    if 'A' <= c <= 'Z' then (c as int + 32) as char else c
  }

  /** Lowercasing of a string, character by character. */
  function Lower(s: string): (r: string)
    ensures |r| == |s|
    ensures forall i :: 0 <= i < |s| ==> r[i] == LowerChar(s[i])
  {
    if s == [] then [] else [LowerChar(s[0])] + Lower(s[1..])
  }

  /**
   * The rewrite `Regex::new(r"\s+").replace_all(s, "-")`: every maximal run of
   * whitespace becomes one hyphen; every other character is kept.
   */
  function CollapseWhitespace(s: string): (r: string)
    ensures NoWhitespace(r)
    ensures r == [] <==> s == []
    ensures forall c :: c in r ==> c == '-' || c in s
    decreases |s|
  {
    if s == [] then []
    else if IsWhitespace(s[0]) then
      var rest := TrimStart(s);
      TrimStartSpec(s);
      assert forall c :: c in rest ==> c in s;
      "-" + CollapseWhitespace(rest)
    else
      [s[0]] + CollapseWhitespace(s[1..])
  }

  /** The characters of `s` before its first `c` (all of `s` when there is none). */
  function Before(s: string, c: char): (r: string)
    ensures |r| <= |s| && r == s[..|r|]
    ensures c !in r
    ensures |r| < |s| ==> s[|r|] == c
  {
    if s == [] || s[0] == c then [] else [s[0]] + Before(s[1..], c)
  }

  /** What precedes the first `c` of `a + b` is `a`, when `a` has no `c` and `b` is empty or starts with `c`. */
  lemma {:induction false} BeforeConcat(a: string, b: string, c: char)
    requires c !in a
    requires b == [] || b[0] == c
    ensures Before(a + b, c) == a
    decreases |a|
  {
    if a == [] {
      assert a + b == b;
    } else {
      assert (a + b)[0] == a[0];
      assert (a + b)[1..] == a[1..] + b;
      BeforeConcat(a[1..], b, c);
    }
  }

  /** The longest prefix of `s` without whitespace. */
  function LeadingWord(s: string): (w: string)
    ensures |w| <= |s| && w == s[..|w|]
    ensures NoWhitespace(w)
    ensures |w| < |s| ==> IsWhitespace(s[|w|])
  {
    if s == [] || IsWhitespace(s[0]) then [] else [s[0]] + LeadingWord(s[1..])
  }

  /** The maximal whitespace-free runs of `s`, left to right. */
  function Words(s: string): (ws: seq<string>)
    ensures forall i :: 0 <= i < |ws| ==> ws[i] != [] && NoWhitespace(ws[i])
    decreases |s|
  {
    var t := TrimStart(s);
    if t == [] then []
    else
      TrimStartSpec(s);
      var w := LeadingWord(t);
      [w] + Words(t[|w|..])
  }

  /** The strings of `ws` with `sep` between neighbours. */
  function Join(ws: seq<string>, sep: string): string {
    if ws == [] then []
    else if |ws| == 1 then ws[0]
    else ws[0] + sep + Join(ws[1..], sep)
  }

  /** Trim removes exactly the whitespace around a trimmed middle part. */
  lemma {:induction false} TrimUnique(a: string, m: string, b: string)
    requires AllWhitespace(a) && AllWhitespace(b) && IsTrimmed(m)
    ensures Trim(a + m + b) == m
  {
    if m == [] {
      assert AllWhitespace(a + m + b) by {
        forall i | 0 <= i < |a + m + b| ensures IsWhitespace((a + m + b)[i]) {
          if i < |a| { assert (a + m + b)[i] == a[i]; }
          else { assert (a + m + b)[i] == b[i - |a|]; }
        }
      }
      TrimSpec(a + m + b);
    } else {
      TrimStartPrefix(a, m + b);
      assert a + m + b == a + (m + b);
      TrimEndSuffix(m, b);
    }
  }

  lemma {:induction false} TrimStartPrefix(a: string, t: string)
    requires AllWhitespace(a)
    requires t != [] && !IsWhitespace(t[0])
    ensures TrimStart(a + t) == t
    decreases |a|
  {
    if a == [] {
      assert a + t == t;
    } else {
      assert (a + t)[1..] == a[1..] + t;
      TrimStartPrefix(a[1..], t);
    }
  }

  lemma {:induction false} TrimEndSuffix(t: string, b: string)
    requires AllWhitespace(b)
    requires t != [] && !IsWhitespace(t[|t| - 1])
    ensures TrimEnd(t + b) == t
    decreases |b|
  {
    if b == [] {
      assert t + b == t;
    } else {
      assert (t + b)[..|t + b| - 1] == t + b[..|b| - 1];
      TrimEndSuffix(t, b[..|b| - 1]);
    }
  }

  /** Lowercasing neither creates nor removes whitespace. */
  lemma LowerKeepsWhitespace(c: char)
    ensures IsWhitespace(LowerChar(c)) <==> IsWhitespace(c)
  {
  }

  /** Lowercasing a string keeps it trimmed. */
  lemma LowerKeepsTrimmed(s: string)
    requires IsTrimmed(s)
    ensures IsTrimmed(Lower(s))
  {
    if s != [] {
      LowerKeepsWhitespace(s[0]);
      LowerKeepsWhitespace(s[|s| - 1]);
    }
  }

  /** A whitespace-free word passes the rewrite unchanged. */
  lemma {:induction false} CollapseAfterWord(w: string, rest: string)
    requires NoWhitespace(w)
    ensures CollapseWhitespace(w + rest) == w + CollapseWhitespace(rest)
    decreases |w|
  {
    if w == [] {
      assert w + rest == rest;
    } else {
      assert (w + rest)[0] == w[0];
      assert (w + rest)[1..] == w[1..] + rest;
      CollapseAfterWord(w[1..], rest);
    }
  }

  /** A string starting with a word splits into that word and the words after it. */
  lemma WordsOfWordStart(s: string)
    requires s != [] && !IsWhitespace(s[0])
    ensures Words(s) == [LeadingWord(s)] + Words(s[|LeadingWord(s)|..])
  {
    assert TrimStart(s) == s;
  }

  /** Leading whitespace does not change the words. */
  lemma WordsSkipWhitespace(s: string)
    ensures Words(s) == Words(TrimStart(s))
  {
    var t := TrimStart(s);
    if t != [] {
      TrimStartSpec(s);
      assert TrimStart(t) == t;
    }
  }

  lemma PrefixOfConcat(a: string, b: string)
    ensures (a + b)[..|a|] == a
  {
  }

  lemma SuffixOfConcat(a: string, b: string)
    ensures (a + b)[|a|..] == b
  {
  }

  lemma ConcatAssoc(a: string, b: string, c: string)
    ensures a + (b + c) == a + b + c
  {
  }

  lemma JoinCons(w: string, ws: seq<string>, sep: string)
    requires ws != []
    ensures Join([w] + ws, sep) == w + sep + Join(ws, sep)
  {
    assert ([w] + ws)[1..] == ws;
  }

  /**
   * On a trimmed string the rewrite is the words joined by single hyphens: each
   * maximal whitespace run, and nothing else, has become exactly one `-`.
   */
  lemma {:induction false} CollapseIsJoinOfWords(s: string)
    requires IsTrimmed(s)
    ensures CollapseWhitespace(s) == Join(Words(s), "-")
    decreases |s|
  {
    if s != [] {
      var w := LeadingWord(s);
      var rest := s[|w|..];
      assert s == w + rest;
      CollapseAfterWord(w, rest);
      WordsOfWordStart(s);
      if rest == [] {
        assert Words(rest) == [];
      } else {
        var u := TrimStart(rest);
        TrimStartSpec(rest);
        assert rest[|rest| - 1] == s[|s| - 1];
        assert u != [] && u[|u| - 1] == s[|s| - 1];
        assert IsTrimmed(u);
        CollapseIsJoinOfWords(u);
        assert CollapseWhitespace(rest) == "-" + CollapseWhitespace(u);
        WordsSkipWhitespace(rest);
        WordsOfWordStart(u);
        JoinCons(w, Words(u), "-");
        ConcatAssoc(w, "-", Join(Words(u), "-"));
      }
    }
  }
}
