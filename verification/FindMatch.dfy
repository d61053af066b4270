/** Wildcard matching: `*` stands for any run of characters, `?` for one, case is folded. */
module FindMatch {
  import opened Values

  /** dToupper: only NUL folds to NUL. */
  ghost predicate Folds(fold: char -> char) {
    forall c :: fold(c) == '\0' <==> c == '\0'
  }

  predicate IsCharMatch(e: char, s: char, caseSensitive: bool, fold: char -> char) {
    e == '?' || (caseSensitive && e == s) || fold(e) == fold(s)
  }

  /** What a pattern matches. */
  predicate Glob(p: CString, s: CString, cs: bool, fold: char -> char)
    decreases |p| + |s|
  {
    if p == "" then s == ""
    else if p[0] == '*' then Glob(p[1..], s, cs, fold) || (s != "" && Glob(p, s[1..], cs, fold))
    else s != "" && IsCharMatch(p[0], s[0], cs, fold) && Glob(p[1..], s[1..], cs, fold)
  }

  /** A question mark takes any one character. */
  lemma QuestionTakesOne(p: CString, s: CString, cs: bool, fold: char -> char)
    ensures Glob("?" + p, s, cs, fold) <==> s != "" && Glob(p, s[1..], cs, fold)
  {
    assert ("?" + p)[1..] == p;
  }

  /** Any other character takes one that folds alike, whether or not case is asked to count. */
  lemma LiteralTakesAlike(c: char, p: CString, s: CString, cs: bool, fold: char -> char)
    requires c != '*' && c != '?' && c != '\0'
    ensures Glob([c] + p, s, cs, fold) <==> s != "" && fold(c) == fold(s[0]) && Glob(p, s[1..], cs, fold)
  {
    assert ([c] + p)[1..] == p;
  }

  /** So case never counts. */
  lemma {:induction false} CaseNeverCounts(p: CString, s: CString, fold: char -> char)
    ensures Glob(p, s, true, fold) <==> Glob(p, s, false, fold)
    decreases |p| + |s|
  {
    if p != "" {
      if p[0] == '*' {
        CaseNeverCounts(p[1..], s, fold);
        if s != "" {
          CaseNeverCounts(p, s[1..], fold);
        }
      } else if s != "" {
        CaseNeverCounts(p[1..], s[1..], fold);
      }
    }
  }

  /** A star takes any run of characters. */
  lemma {:induction false} StarTakesAny(p: CString, s: CString, cs: bool, fold: char -> char)
    ensures Glob("*" + p, s, cs, fold) <==> exists k: nat :: k <= |s| && Glob(p, s[k..], cs, fold)
  {
    if Glob("*" + p, s, cs, fold) {
      var k := StarFinds(p, s, cs, fold);
    }
    if k: nat :| k <= |s| && Glob(p, s[k..], cs, fold) {
      assert ("*" + p)[1..] == p;
      assert Glob("*" + p, s[k..], cs, fold);
      StarAbsorbs("*" + p, s, k, cs, fold);
    }
  }

  /** The character a C string shows at an index: NUL at its end. */
  function At(s: CString, i: nat): (c: char)
    requires i <= |s|
    ensures c == '\0' <==> i == |s|
  {
    if i < |s| then s[i] else '\0'
  }

  /** What a star matches some part of, it matches all of. */
  lemma {:induction false} StarAbsorbs(p: CString, s: CString, j: nat, cs: bool, fold: char -> char)
    requires p != "" && p[0] == '*' && j <= |s| && Glob(p, s[j..], cs, fold)
    ensures Glob(p, s, cs, fold)
    decreases j
  {
    if j == 0 {
      assert s[0..] == s;
    } else {
      assert s[1..][j - 1..] == s[j..];
      StarAbsorbs(p, s[1..], j - 1, cs, fold);
    }
  }

  /** Star-free patterns match exactly as many characters as they have. */
  lemma {:induction false} LiteralTakes(lit: CString, p: CString, s: CString, cs: bool, fold: char -> char)
    requires '*' !in lit && Glob(lit + p, s, cs, fold)
    ensures |lit| <= |s| && Glob(p, s[|lit|..], cs, fold)
  {
    if lit == "" {
      assert lit + p == p && s[0..] == s;
    } else {
      assert (lit + p)[0] == lit[0] && (lit + p)[1..] == lit[1..] + p;
      LiteralTakes(lit[1..], p, s[1..], cs, fold);
      assert s[1..][|lit| - 1..] == s[|lit|..];
    }
  }

  /** Some suffix of `s` matches, as a star before the pattern asks, or none does from here on. */
  lemma {:induction false} StarFinds(p: CString, s: CString, cs: bool, fold: char -> char) returns (k: nat)
    requires Glob("*" + p, s, cs, fold)
    ensures k <= |s| && Glob(p, s[k..], cs, fold)
    decreases |s|
  {
    assert ("*" + p)[1..] == p;
    if Glob(p, s, cs, fold) {
      k := 0;
      assert s[0..] == s;
    } else {
      k := StarFinds(p, s[1..], cs, fold);
      assert s[1..][k..] == s[k + 1..];
      k := k + 1;
    }
  }

  /**
    The attempt under way began at `a` with the pattern from `m` on, and has matched as far as `e` and
    `i`. At a further star only this attempt counts: another one further right would have to match what
    is left of the string from there, and the star takes any of it.
   */
  lemma NextStar(p: CString, s: CString, m: nat, e: nat, a: nat, i: nat, cs: bool, fold: char -> char)
    requires m <= e < |p| && a <= i <= |s| && i - a == e - m && p[e] == '*' && '*' !in p[m..e]
    requires Glob(p[m..], s[a..], cs, fold) <==> Glob(p[e..], s[i..], cs, fold)
    ensures Glob("*" + p[m..], s[a..], cs, fold) <==> Glob(p[e..], s[i..], cs, fold)
  {
    assert ("*" + p[m..])[1..] == p[m..];
    if Glob("*" + p[m..], s[a..], cs, fold) {
      var k := StarFinds(p[m..], s[a..], cs, fold);
      assert p[m..] == p[m..e] + p[e..];
      LiteralTakes(p[m..e], p[e..], s[a..][k..], cs, fold);
      assert s[a..][k..][|p[m..e]|..] == s[i..][k..];
      StarAbsorbs(p[e..], s[i..], k, cs, fold);
    }
  }

  /** At the end of the string the attempt under way is the last that is long enough. */
  lemma NothingLeft(p: CString, s: CString, m: nat, e: nat, a: nat, cs: bool, fold: char -> char)
    requires m <= e <= |p| && a <= |s| && |s| - a == e - m && '*' !in p[m..e]
    requires Glob(p[m..], s[a..], cs, fold) <==> Glob(p[e..], "", cs, fold)
    ensures Glob("*" + p[m..], s[a..], cs, fold) <==> Glob(p[e..], "", cs, fold)
  {
    assert ("*" + p[m..])[1..] == p[m..];
    if Glob("*" + p[m..], s[a..], cs, fold) {
      var k := StarFinds(p[m..], s[a..], cs, fold);
      assert p[m..] == p[m..e] + p[e..];
      LiteralTakes(p[m..e], p[e..], s[a..][k..], cs, fold);
      assert s[a..][k..] == s[a..];
    }
  }

  lemma {:induction false} OnlyStars(p: CString, e: nat, cs: bool, fold: char -> char)
    requires e < |p| && p[e] == '*'
    ensures Glob(p[e..], "", cs, fold) <==> Glob(p[e + 1..], "", cs, fold)
  {
  }

  /** One character matched, or not. */
  lemma OneCharacter(p: CString, s: CString, e: nat, i: nat, cs: bool, fold: char -> char)
    requires Folds(fold) && e <= |p| && i < |s| && At(p, e) != '*'
    ensures var matched := IsCharMatch(At(p, e), s[i], cs, fold);
      && (matched ==> e < |p|)
      && (Glob(p[e..], s[i..], cs, fold) <==> matched && Glob(p[e + 1..], s[i + 1..], cs, fold))
  {
  }

  lemma NextAttempt(p: CString, s: CString, a: nat, cs: bool, fold: char -> char)
    requires a < |s| && !Glob(p, s[a..], cs, fold)
    ensures Glob("*" + p, s[a..], cs, fold) <==> Glob("*" + p, s[a + 1..], cs, fold)
  {
  }

  lemma {:induction false} AnythingMatches(s: CString, cs: bool, fold: char -> char)
    ensures Glob("*" + "", s, cs, fold)
    decreases |s|
  {
    assert ("*" + "")[1..] == "";
    if s != "" {
      AnythingMatches(s[1..], cs, fold);
    }
  }

  // ----- the state of the second loop -----

  /**
    The latest star lies before place `m` of the pattern; what follows it is being tried from place `a`
    of the string on, and matches up to `e` and `i`. The whole matches exactly if what follows the star
    matches somewhere from `a` on.
   */
  ghost predicate Attempt(p: CString, s: CString, m: nat, e: nat, a: nat, i: nat, cs: bool, fold: char -> char) {
    && m <= e <= |p| && a <= i <= |s| && i - a == e - m && '*' !in p[m..e]
    && (Glob(p, s, cs, fold) <==> Glob("*" + p[m..], s[a..], cs, fold))
    && (Glob(p[m..], s[a..], cs, fold) <==> Glob(p[e..], s[i..], cs, fold))
  }

  lemma StarReached(p: CString, s: CString, e: nat, i: nat, cs: bool, fold: char -> char)
    requires e < |p| && i <= |s| && p[e] == '*'
    requires Glob(p, s, cs, fold) <==> Glob(p[e..], s[i..], cs, fold)
    ensures Attempt(p, s, e + 1, e + 1, i, i, cs, fold)
    ensures e + 1 == |p| ==> Glob(p, s, cs, fold)
  {
    assert p[e..] == "*" + p[e + 1..];
    if e + 1 == |p| {
      AnythingMatches(s[i..], cs, fold);
      assert p[e + 1..] == "";
    }
  }

  lemma FurtherStar(p: CString, s: CString, m: nat, e: nat, a: nat, i: nat, cs: bool, fold: char -> char)
    requires Attempt(p, s, m, e, a, i, cs, fold) && e < |p| && p[e] == '*'
    ensures Glob(p, s, cs, fold) <==> Glob(p[e..], s[i..], cs, fold)
  {
    NextStar(p, s, m, e, a, i, cs, fold);
  }

  lemma Advanced(p: CString, s: CString, m: nat, e: nat, a: nat, i: nat, cs: bool, fold: char -> char)
    requires Folds(fold) && Attempt(p, s, m, e, a, i, cs, fold) && i < |s| && At(p, e) != '*'
    ensures if IsCharMatch(At(p, e), s[i], cs, fold) then Attempt(p, s, m, e + 1, a, i + 1, cs, fold)
            else Attempt(p, s, m, m, a + 1, a + 1, cs, fold)
  {
    hide Glob, IsCharMatch;
    OneCharacter(p, s, e, i, cs, fold);
    if IsCharMatch(At(p, e), s[i], cs, fold) {
      assert p[m..e + 1] == p[m..e] + [p[e]];
    } else {
      NextAttempt(p[m..], s, a, cs, fold);
    }
  }

  lemma StringEnds(p: CString, s: CString, m: nat, e: nat, a: nat, cs: bool, fold: char -> char)
    requires Attempt(p, s, m, e, a, |s|, cs, fold)
    ensures Glob(p, s, cs, fold) <==> Glob(p[e..], "", cs, fold)
  {
    assert s[|s|..] == "";
    NothingLeft(p, s, m, e, a, cs, fold);
  }

  lemma TrailingStars(p: CString, cs: bool, fold: char -> char)
    ensures p == "" ==> Glob(p, "", cs, fold)
    ensures p != "" && p[0] != '*' ==> !Glob(p, "", cs, fold)
  {
  }

  /** isMatch: one backtrack point, the latest star, is enough. */
  method IsMatch(exp: CString, str: CString, caseSensitive: bool, fold: char -> char) returns (r: bool)
    requires Folds(fold)
    ensures r <==> Glob(exp, str, caseSensitive, fold)
  {
    hide Glob, IsCharMatch, Attempt;
    var e: nat, i: nat := 0, 0;
    assert exp[0..] == exp && str[0..] == str;
    while At(str, i) != '\0' && At(exp, e) != '*'
      invariant e <= |exp| && i <= |str|
      invariant Glob(exp, str, caseSensitive, fold) <==> Glob(exp[e..], str[i..], caseSensitive, fold)
      decreases |str| - i
    {
      OneCharacter(exp, str, e, i, caseSensitive, fold);
      if !IsCharMatch(At(exp, e), At(str, i), caseSensitive, fold) {
        return false;
      }
      e, i := e + 1, i + 1;
    }
    // The backtrack point: the pattern behind the latest star, and where in the string to try it next.
    var mp: Option<nat>, cp: Option<nat> := None, None;
    while At(str, i) != '\0'
      invariant e <= |exp| && i <= |str| && (mp.None? <==> cp.None?)
      invariant mp.None? ==> (At(str, i) == '\0' || At(exp, e) == '*')
      invariant mp.None? ==> (Glob(exp, str, caseSensitive, fold) <==> Glob(exp[e..], str[i..], caseSensitive, fold))
      invariant mp.Some? ==>
        && mp.value <= e && 1 <= cp.value <= i + 1
        && Attempt(exp, str, mp.value, e, cp.value - 1, i, caseSensitive, fold)
      decreases mp.None?, if cp.Some? then |str| + 1 - cp.value else 0, |exp| - e
    {
      if At(exp, e) == '*' {
        if mp.Some? {
          FurtherStar(exp, str, mp.value, e, cp.value - 1, i, caseSensitive, fold);
        }
        StarReached(exp, str, e, i, caseSensitive, fold);
        e := e + 1;
        if At(exp, e) == '\0' {
          return true;
        }
        mp := Some(e);
        cp := Some(i + 1);
      } else {
        Advanced(exp, str, mp.value, e, cp.value - 1, i, caseSensitive, fold);
        OneCharacter(exp, str, e, i, caseSensitive, fold);
        if IsCharMatch(At(exp, e), At(str, i), caseSensitive, fold) {
          e, i := e + 1, i + 1;
        } else {
          e := mp.value;
          i := cp.value;
          cp := Some(cp.value + 1);
        }
      }
    }
    assert str[i..] == "";
    if mp.Some? {
      StringEnds(exp, str, mp.value, e, cp.value - 1, caseSensitive, fold);
    }
    while At(exp, e) == '*'
      invariant e <= |exp|
      invariant Glob(exp, str, caseSensitive, fold) <==> Glob(exp[e..], "", caseSensitive, fold)
      decreases |exp| - e
    {
      OnlyStars(exp, e, caseSensitive, fold);
      e := e + 1;
    }
    TrailingStars(exp[e..], caseSensitive, fold);
    r := At(exp, e) == '\0';
  }
}
