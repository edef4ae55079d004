/** The two string tests of `indeed_scraper.py`: the challenge-page tests (case-sensitive
    substring containment) and the `WHERE` clause with which `main` selects the postings
    whose description must be fetched (SQLite `LIKE`, which ignores ASCII letter case). */
module Selection {
  import opened Strings
  import opened PyValues

  /** `requires_human_verification`: the page source mentions `Verify`. */
  predicate RequiresHumanVerification(pageSource: string) {
    Contains(pageSource, "Verify")
  }

  /** `get_description_html`: the page body shows the challenge banner. */
  predicate BodyShowsChallenge(body: string) {
    Contains(body, "Verifying you are human")
  }

  /** A body showing the challenge banner always makes the verification test fire too. */
  lemma BodyChallengeRequiresVerification(body: string)
    requires BodyShowsChallenge(body)
    ensures RequiresHumanVerification(body)
  {
    assert "Verifying you are human" == "Verify" + "ing you are human";
    ContainsPrefixOfPattern(body, "Verify", "ing you are human");
  }

  /** SQLite's `s LIKE p` without an ESCAPE clause: `%` matches any run of characters, `_`
      exactly one, and other characters match themselves up to ASCII letter case. */
  predicate Like(s: string, p: string)
    decreases |s| + |p|
  {
    if p == [] then s == []
    else if p[0] == '%' then Like(s, p[1..]) || (s != [] && Like(s[1..], p))
    else if s == [] then false
    else if p[0] == '_' then Like(s[1..], p[1..])
    else LowerChar(s[0]) == LowerChar(p[0]) && Like(s[1..], p[1..])
  }

  /** A pattern without wildcards. */
  predicate Literal(q: string) {
    '%' !in q && '_' !in q
  }

  /** Equal up to ASCII letter case. */
  predicate FoldEq(a: string, b: string) {
    |a| == |b| && forall k :: 0 <= k < |a| ==> LowerChar(a[k]) == LowerChar(b[k])
  }

  lemma {:induction false} LikeLiteralPrefix(s: string, q: string, r: string)
    requires Literal(q)
    ensures Like(s, q + r) <==> |s| >= |q| && FoldEq(s[..|q|], q) && Like(s[|q|..], r)
    decreases |q|
  {
    if q == [] {
      assert q + r == r;
      assert s[|q|..] == s;
    } else {
      assert (q + r)[0] == q[0];
      assert (q + r)[1..] == q[1..] + r;
      if s != [] {
        LikeLiteralPrefix(s[1..], q[1..], r);
        if |s| >= |q| {
          assert s[1..][|q| - 1..] == s[|q|..];
          var a, a' := s[..|q|], s[1..][..|q| - 1];
          assert FoldEq(a, q) <==> LowerChar(s[0]) == LowerChar(q[0]) && FoldEq(a', q[1..]) by {
            if LowerChar(s[0]) == LowerChar(q[0]) && FoldEq(a', q[1..]) {
              forall k | 0 <= k < |a| ensures LowerChar(a[k]) == LowerChar(q[k]) {
                if k > 0 {
                  assert a[k] == a'[k - 1];
                }
              }
            }
            if FoldEq(a, q) {
              forall k | 0 <= k < |a'| ensures LowerChar(a'[k]) == LowerChar(q[1..][k]) {
                assert a'[k] == a[k + 1];
              }
            }
          }
        }
      }
    }
  }

  lemma {:induction false} LikeLiteral(s: string, q: string)
    requires Literal(q)
    ensures Like(s, q) <==> FoldEq(s, q)
  {
    assert q + [] == q;
    LikeLiteralPrefix(s, q, []);
    if |s| >= |q| {
      assert |s| == |q| ==> s[..|q|] == s;
    }
  }

  /** A leading `%` lets the rest of the pattern match any suffix. */
  lemma {:induction false} LikePercent(s: string, r: string)
    ensures Like(s, "%" + r) <==> exists k :: 0 <= k <= |s| && Like(s[k..], r)
    decreases |s|
  {
    var p := "%" + r;
    assert p[0] == '%' && p[1..] == r;
    assert s[0..] == s;
    if s != [] {
      LikePercent(s[1..], r);
      if Like(s[1..], p) {
        var k :| 0 <= k <= |s| - 1 && Like(s[1..][k..], r);
        assert s[1..][k..] == s[k + 1..];
      }
      forall k | 1 <= k <= |s| && Like(s[k..], r) ensures Like(s[1..], p) {
        assert s[1..][k - 1..] == s[k..];
      }
    }
  }

  lemma {:induction false} LikeAnything(s: string)
    ensures Like(s, "%")
    decreases |s|
  {
    assert "%"[1..] == [];
    if s != [] {
      LikeAnything(s[1..]);
    }
  }

  /** `q` occurs in `s` at index `k`, letter case aside. */
  predicate FoldOccursAt(s: string, q: string, k: int) {
    0 <= k && k + |q| <= |s| && FoldEq(s[k..k + |q|], q)
  }

  /** `s LIKE '%q%'`: `q` occurs somewhere in `s`, letter case aside. */
  lemma LikeContains(s: string, q: string)
    requires Literal(q)
    ensures Like(s, "%" + q + "%") <==> exists k :: FoldOccursAt(s, q, k)
  {
    assert "%" + q + "%" == "%" + (q + "%");
    LikePercent(s, q + "%");
    if Like(s, "%" + (q + "%")) {
      var k :| 0 <= k <= |s| && Like(s[k..], q + "%");
      LikeLiteralPrefix(s[k..], q, "%");
      assert s[k..][..|q|] == s[k..k + |q|];
      assert FoldOccursAt(s, q, k);
    }
    if exists k :: FoldOccursAt(s, q, k) {
      var k :| FoldOccursAt(s, q, k);
      LikeLiteralPrefix(s[k..], q, "%");
      assert s[k..][..|q|] == s[k..k + |q|];
      LikeAnything(s[k..][|q|..]);
      assert Like(s[k..], q + "%");
    }
  }

  /** `s LIKE '%b'`: `s` ends with `b`, letter case aside. */
  lemma LikeSuffix(s: string, b: string)
    requires Literal(b)
    ensures Like(s, "%" + b) <==> |s| >= |b| && FoldEq(s[|s| - |b|..], b)
  {
    LikePercent(s, b);
    if Like(s, "%" + b) {
      var k :| 0 <= k <= |s| && Like(s[k..], b);
      LikeLiteral(s[k..], b);
    }
    if |s| >= |b| && FoldEq(s[|s| - |b|..], b) {
      LikeLiteral(s[|s| - |b|..], b);
    }
  }

  lemma SuffixOfDrop(s: string, t: string, i: nat, n: nat)
    requires i + n <= |s| && t == s[i..]
    ensures t[|t| - n..] == s[|s| - n..]
  {
  }

  /** `s LIKE 'a%b'`: `s` starts with `a` and ends with `b`, without the two overlapping. */
  lemma LikeAffixes(s: string, a: string, b: string)
    requires Literal(a) && Literal(b)
    ensures Like(s, a + ("%" + b)) <==>
              |s| >= |a| + |b| && FoldEq(s[..|a|], a) && FoldEq(s[|s| - |b|..], b)
  {
    LikeLiteralPrefix(s, a, "%" + b);
    if |s| >= |a| {
      LikeSuffixAfter(s, |a|, b);
    }
  }

  lemma LikeSuffixAfter(s: string, i: nat, b: string)
    requires Literal(b) && i <= |s|
    ensures Like(s[i..], "%" + b) <==> |s| >= i + |b| && FoldEq(s[|s| - |b|..], b)
  {
    var t := s[i..];
    LikeSuffix(t, b);
    if |s| >= i + |b| {
      SuffixOfDrop(s, t, i, |b|);
    }
  }

  /** The text SQLite compares with `LIKE`; `NULL LIKE p` is never true. */
  predicate LikeValue(v: SqlValue, p: string) {
    match v
    case Null => false
    case Text(t) => Like(t, p)
    case Integer(n) => Like(IntToString(n), p)
  }

  const VerifyPrefix: string := "Verify"
  const HumanSuffix: string := " you are human"
  const JavaScriptMarker: string := "nable JavaScript"
  /** The two placeholder patterns of the query, `'Verify% you are human'` and
      `'%nable JavaScript%'`, in terms of their literal parts. */
  const VerifyPattern: string := VerifyPrefix + ("%" + HumanSuffix)
  const JavaScriptPattern: string := "%" + JavaScriptMarker + "%"

  /** The `WHERE` clause of `main`'s backfill query. */
  predicate NeedsDescription(link: SqlValue, description: SqlValue) {
    && (|| description.Null?
        || LikeValue(description, "")
        || LikeValue(description, VerifyPattern)
        || LikeValue(description, JavaScriptPattern))
    && !link.Null?
  }

  /** A description that is a text the backfill query treats as missing. */
  predicate IsPlaceholder(t: string) {
    || t == []
    || (|t| >= |VerifyPrefix| + |HumanSuffix| && FoldEq(t[..|VerifyPrefix|], VerifyPrefix)
        && FoldEq(t[|t| - |HumanSuffix|..], HumanSuffix))
    || exists k :: 0 <= k <= |t| && FoldOccursAt(t, JavaScriptMarker, k)
  }

  lemma EmptyPatternMatches(t: string)
    ensures Like(t, "") <==> t == []
  {
    LikeLiteral(t, "");
  }

  lemma VerifyPatternMatches(t: string)
    ensures Like(t, VerifyPattern) <==>
              |t| >= |VerifyPrefix| + |HumanSuffix| && FoldEq(t[..|VerifyPrefix|], VerifyPrefix)
              && FoldEq(t[|t| - |HumanSuffix|..], HumanSuffix)
  {
    LikeAffixes(t, VerifyPrefix, HumanSuffix);
  }

  lemma JavaScriptPatternMatches(t: string)
    ensures Like(t, JavaScriptPattern) <==> exists k :: 0 <= k <= |t| && FoldOccursAt(t, JavaScriptMarker, k)
  {
    LikeContains(t, JavaScriptMarker);
  }

  /** The three patterns of the query, on a text, say that it is a placeholder. */
  lemma PlaceholderPatterns(t: string)
    ensures Like(t, "") || Like(t, VerifyPattern) || Like(t, JavaScriptPattern) <==> IsPlaceholder(t)
  {
    EmptyPatternMatches(t);
    VerifyPatternMatches(t);
    JavaScriptPatternMatches(t);
  }

  /** A posting is selected exactly when it has a link and its description is missing, empty,
      a "Verify ... you are human" banner or mentions "nable JavaScript", letter case aside. */
  lemma NeedsDescriptionIff(link: SqlValue, description: SqlValue)
    ensures NeedsDescription(link, description) <==>
              !link.Null? && (description.Null? || (description.Text? && IsPlaceholder(description.text)))
  {
    match description
    case Null =>
    case Text(t) =>
      PlaceholderPatterns(t);
    case Integer(n) =>
      PlaceholderPatterns(IntToString(n));
      NoPlaceholderDigits(n);
  }

  /** No integer's decimal text is a placeholder: it holds no letter. */
  lemma NoPlaceholderDigits(n: int)
    ensures !IsPlaceholder(IntToString(n))
  {
    var t := IntToString(n);
    IntToStringChars(n);
    if |t| >= |VerifyPrefix| {
      assert t[..|VerifyPrefix|][0] == t[0];
      assert LowerChar(t[0]) != LowerChar(VerifyPrefix[0]);
    }
    forall k | 0 <= k <= |t| ensures !FoldOccursAt(t, JavaScriptMarker, k) {
      if k + |JavaScriptMarker| <= |t| {
        assert t[k..k + |JavaScriptMarker|][0] == t[k];
        assert LowerChar(t[k]) != LowerChar(JavaScriptMarker[0]);
      }
    }
  }
}
