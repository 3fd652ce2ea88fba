/** The LIKE patterns of PostgreSQL, and what the search box of User.List
    makes of them. */
module Like {
  /** % is any text, _ any one character, and a backslash makes the next
      character stand for itself. */
  predicate Matches(p: string, s: string)
    decreases |p|
  {
    if p == "" then s == ""
    else if p[0] == '%' then exists k :: 0 <= k <= |s| && Matches(p[1..], s[k..])
    else if p[0] == '_' then s != "" && Matches(p[1..], s[1..])
    else if p[0] == '\\' then |p| > 1 && s != "" && s[0] == p[1] && Matches(p[2..], s[1..])
    else s != "" && s[0] == p[0] && Matches(p[1..], s[1..])
  }

  /** Case folding; only ASCII letters have case here. */
  function Lower(c: char): char {
    if 'A' <= c <= 'Z' then 'a' + (c - 'A') else c
  }

  /** Two characters differ at most in case. */
  predicate SameLetter(a: char, b: char) {
    a == b || ('A' <= a <= 'Z' && b as int == a as int + 32) || ('A' <= b <= 'Z' && a as int == b as int + 32)
  }

  lemma LowerIffSameLetter(a: char, b: char)
    ensures Lower(a) == Lower(b) <==> SameLetter(a, b)
  {
  }

  function Fold(s: string): (r: string)
    ensures |r| == |s| && forall i :: 0 <= i < |s| ==> r[i] == Lower(s[i])
  {
    seq(|s|, i requires 0 <= i < |s| => Lower(s[i]))
  }

  /** Folding makes texts equal exactly when they differ at most in case. */
  lemma FoldIffSameLetters(s: string, t: string)
    ensures Fold(s) == Fold(t) <==> |s| == |t| && forall i :: 0 <= i < |s| ==> SameLetter(s[i], t[i])
  {
    if |s| == |t| {
      forall i | 0 <= i < |s|
        ensures Fold(s)[i] == Fold(t)[i] <==> SameLetter(s[i], t[i])
      {
        LowerIffSameLetter(s[i], t[i]);
      }
    }
  }

  /** Every special character of q behind a backslash. */
  function Escaped(q: string): string {
    if q == "" then "" else (if Special(q[0]) then ['\\', q[0]] else [q[0]]) + Escaped(q[1..])
  }

  /** An escaped text matches itself and nothing else. */
  lemma {:induction false} EscapedIsLiteral(q: string, s: string)
    ensures Matches(Escaped(q), s) <==> s == q
  {
    if q != "" {
      var p := Escaped(q);
      assert if Special(q[0]) then p[2..] == Escaped(q[1..]) else p[1..] == Escaped(q[1..]);
      if s != "" {
        EscapedIsLiteral(q[1..], s[1..]);
        assert s == [s[0]] + s[1..] && q == [q[0]] + q[1..];
      }
    }
  }

  predicate MatchesFolded(p: string, s: string) {
    Matches(Fold(p), Fold(s))
  }

  predicate At(s: string, q: string, k: nat) {
    k + |q| <= |s| && s[k..k + |q|] == q
  }

  ghost predicate Contains(s: string, q: string) {
    exists k: nat :: At(s, q, k)
  }

  predicate Special(c: char) {
    c == '%' || c == '_' || c == '\\'
  }

  predicate Plain(q: string) {
    forall i :: 0 <= i < |q| ==> !Special(q[i])
  }

  lemma {:induction false} PlainIsLiteral(q: string, rest: string, s: string)
    requires Plain(q)
    ensures Matches(q + rest, s) <==> |q| <= |s| && s[..|q|] == q && Matches(rest, s[|q|..])
  {
    if q == "" {
      assert q + rest == rest && s[0..] == s;
    } else {
      assert (q + rest)[1..] == q[1..] + rest && !Special(q[0]);
      if s != "" && s[0] == q[0] {
        PlainIsLiteral(q[1..], rest, s[1..]);
        if |q| <= |s| {
          assert s[..|q|] == [s[0]] + s[1..][..|q| - 1] && q == [q[0]] + q[1..];
          assert s[1..][|q| - 1..] == s[|q|..];
          assert s[..|q|] == q ==> s[1..][..|q| - 1] == q[1..];
        }
      } else if 0 < |q| <= |s| {
        assert s[..|q|][0] == s[0];
      }
    }
  }

  lemma PercentMatchesAll(s: string)
    ensures Matches("%", s)
  {
    assert "%"[1..] == "" && s[|s|..] == "";
    assert Matches("%"[1..], s[|s|..]);
  }

  lemma PlainIsContains(q: string, s: string)
    requires Plain(q)
    ensures Matches("%" + q + "%", s) <==> Contains(s, q)
  {
    var p := "%" + q + "%";
    assert p[1..] == q + "%";
    forall k: nat | k <= |s|
      ensures Matches(p[1..], s[k..]) <==> At(s, q, k)
    {
      PlainIsLiteral(q, "%", s[k..]);
      if k + |q| <= |s| {
        assert s[k..][..|q|] == s[k..k + |q|];
        PercentMatchesAll(s[k..][|q|..]);
      }
    }
    if Contains(s, q) {
      var k: nat :| At(s, q, k);
      assert Matches(p[1..], s[k..]);
    }
  }

  /** A text that the pattern built from q matches. */
  function Witness(q: string): string
    decreases |q|
  {
    if q == "" then ""
    else if q[0] == '%' then Witness(q[1..])
    else if q[0] == '_' then "x" + Witness(q[1..])
    else if q[0] == '\\' then (if |q| > 1 then [q[1]] + Witness(q[2..]) else "%")
    else [q[0]] + Witness(q[1..])
  }

  lemma {:induction false} WitnessMatches(q: string)
    ensures Matches(q + "%", Witness(q))
    decreases |q|
  {
    var p, w := q + "%", Witness(q);
    if q == "" {
      PercentMatchesAll("");
    } else if q[0] == '\\' {
      if |q| > 1 {
        WitnessMatches(q[2..]);
        assert p[2..] == q[2..] + "%" && w[1..] == Witness(q[2..]);
      } else {
        assert p == "\\%" && p[2..] == "" && w[1..] == "";
      }
    } else {
      WitnessMatches(q[1..]);
      assert p[1..] == q[1..] + "%";
      if q[0] == '%' {
        assert w[0..] == w;
      } else {
        assert w[1..] == Witness(q[1..]);
      }
    }
  }

  lemma {:induction false} WitnessDiffers(q: string)
    ensures |Witness(q)| <= |q|
    ensures Witness(q) == q ==> Plain(q)
    decreases |q|
  {
    if q == "" {
    } else {
      if q[0] == '\\' {
        if |q| > 1 {
          WitnessDiffers(q[2..]);
        }
      } else {
        WitnessDiffers(q[1..]);
        if !Special(q[0]) && Witness(q) == q {
          assert Witness(q)[1..] == Witness(q[1..]);
          forall i | 0 <= i < |q|
            ensures !Special(q[i])
          {
            assert i > 0 ==> q[i] == q[1..][i - 1];
          }
        }
      }
    }
  }

  lemma {:induction false} WitnessKeepsFold(q: string)
    requires Fold(q) == q
    ensures Fold(Witness(q)) == Witness(q)
    decreases |q|
  {
    if q == "" {
    } else {
      assert forall i :: 0 <= i < |q| ==> Lower(q[i]) == q[i];
      if q[0] == '\\' && |q| > 1 {
        assert Fold(q[2..]) == q[2..];
        WitnessKeepsFold(q[2..]);
      } else if q[0] != '\\' {
        assert Fold(q[1..]) == q[1..];
        WitnessKeepsFold(q[1..]);
      }
      var w := Witness(q);
      assert forall i :: 0 <= i < |w| ==> Lower(w[i]) == w[i];
    }
  }

  lemma FoldFacts(q: string)
    ensures Fold(Fold(q)) == Fold(q)
    ensures Plain(Fold(q)) <==> Plain(q)
    ensures Fold("%" + q + "%") == "%" + Fold(q) + "%"
  {
  }

  lemma WitnessNotContained(q: string)
    requires !Plain(q)
    ensures Matches("%" + q + "%", Witness(q)) && !Contains(Witness(q), q)
  {
    var p, w := "%" + q + "%", Witness(q);
    WitnessMatches(q);
    assert p[1..] == q + "%" && w[0..] == w;
    WitnessDiffers(q);
    forall k: nat
      ensures !At(w, q, k)
    {
      if k + |q| <= |w| {
        assert k == 0 && w[0..|q|] == w;
      }
    }
  }

  /** The search finds the texts that contain the query, for every text,
      exactly when the query has none of % _ and backslash in it. */
  lemma SearchIsContainsIff(q: string)
    ensures (forall s :: MatchesFolded("%" + q + "%", s) <==> Contains(Fold(s), Fold(q))) <==> Plain(q)
  {
    FoldFacts(q);
    forall s | Plain(q)
      ensures MatchesFolded("%" + q + "%", s) <==> Contains(Fold(s), Fold(q))
    {
      PlainIsContains(Fold(q), Fold(s));
    }
    if !Plain(q) {
      var w := Witness(Fold(q));
      WitnessKeepsFold(Fold(q));
      WitnessNotContained(Fold(q));
      assert MatchesFolded("%" + q + "%", w) && !Contains(Fold(w), Fold(q));
    }
  }
}
