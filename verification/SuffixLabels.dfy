// The suffix index against the label-aware matcher: internal/rules/repo.go stores a suffix pattern as bytes, while
// matchSuffix in internal/rules/rules.go compares whole labels. Where the two agree, exactly.
module SuffixLabels {
  import opened Text
  import opened Rules
  import opened RuleIndex

  /** A text as the matcher reads it: without one final dot, in lower case. */
  function Undotted(s: string): string {
    ToLower(TrimSuffix(s, "."))
  }

  predicate Dotted(s: string) {
    HasSuffix(s, ".")
  }

  predicate Starred(p: string) {
    HasPrefix(p, "*.")
  }

  /** The pattern without its star label. */
  function BaseOf(p: string): string {
    if Starred(p) then p[2..] else p
  }

  /** The pattern's base ends the domain right behind a dot, or is the whole domain and carries no star. */
  predicate AtLabel(pattern: string, domain: string) {
    var p, d := Undotted(pattern), Undotted(domain);
    var b := BaseOf(p);
    && HasSuffix(d, b)
    && if |b| == |d| then !Starred(p) else d[|d| - |b| - 1] == '.'
  }

  /** What the index checks of a pattern before it looks for longer ones: trimmed and lower-cased, its leading star cut off,
      it is a non-empty byte suffix of the domain, trimmed and lower-cased. */
  predicate BytesMatch(pattern: string, domain: string) {
    TrimStar(pattern) != "" && HasSuffix(Normalize(domain), TrimStar(pattern))
  }

  /** Some longer pattern of the rule set ends the domain too. */
  ghost predicate LongerMatches(rs: seq<Rule>, pattern: string, domain: string) {
    exists t :: SuffixPresent(rs, t) && HasSuffix(Normalize(domain), t) && |t| > |TrimStar(pattern)|
  }

  lemma SuffixBytes(d: string, s: string)
    ensures HasSuffix(d, "." + s) <==> HasSuffix(d, s) && |d| > |s| && d[|d| - |s| - 1] == '.'
  {
    var k := |d| - |s| - 1;
    if HasSuffix(d, "." + s) {
      assert d[k..][0] == '.' && d[k..][1..] == s;
      assert d[k + 1..] == d[k..][1..];
    }
    if HasSuffix(d, s) && |d| > |s| && d[k] == '.' {
      assert d[k..] == [d[k]] + d[k + 1..];
    }
  }

  lemma SuffixOfSuffix(d: string, t: string, s: string)
    requires HasSuffix(t, s)
    ensures HasSuffix(d, t) ==> HasSuffix(d, s)
  {
    if HasSuffix(d, t) {
      assert d[|d| - |t|..][|t| - |s|..] == d[|d| - |s|..];
    }
  }

  lemma WholeSuffix(d: string, p: string)
    ensures HasSuffix(d, d)
    ensures HasSuffix(d, p) && |d| == |p| ==> d == p
  {
    assert d[0..] == d;
  }

  /** A domain that is, or ends in, the starred pattern itself has the dot of the star in front of the base. */
  lemma StarPrecedes(d: string, p: string, b: string)
    requires p == "*." + b
    ensures d == p || HasSuffix(d, "." + p) ==> HasSuffix(d, "." + b)
  {
    assert HasSuffix(p, "." + b) by {
      assert p[1..] == "." + b;
    }
    assert HasSuffix("." + p, p) by {
      assert ("." + p)[1..] == p;
    }
    SuffixOfSuffix(d, "." + p, p);
    SuffixOfSuffix(d, p, "." + b);
    WholeSuffix(d, p);
  }

  /** On every pattern and domain the matcher's three comparisons come to one: the base, at a label. */
  lemma LabelMatchIff(pattern: string, domain: string)
    ensures MatchSuffix(pattern, domain) <==> AtLabel(pattern, domain)
  {
    hide ToLower, TrimSuffix;
    var p, d := Undotted(pattern), Undotted(domain);
    var b := BaseOf(p);
    SuffixBytes(d, b);
    WholeSuffix(d, p);
    if Starred(p) {
      assert p == "*." + b;
      StarPrecedes(d, p, b);
    }
  }

  /** A suffix rule fires through the index exactly when its bytes end the domain and no longer pattern does. */
  lemma FiresIff(p: Parsers, rs: seq<Rule>, a: Attributes, r: Rule, m: Matcher)
    requires IsSuffixMatcher(m)
    ensures MatcherFires(p, rs, a, r, m) <==> BytesMatch(m.value, a.domain) && !LongerMatches(rs, m.value, a.domain)
  {
    hide Normalize, TrimStar, SuffixPresent;
  }

  /** Index and matcher agree on a suffix rule exactly when: for a pattern at a label, its bytes match too and no longer
      pattern does; for one not at a label, its bytes do not match, or a longer pattern does. */
  lemma IndexAgreesIff(p: Parsers, rs: seq<Rule>, a: Attributes, r: Rule, m: Matcher)
    requires IsSuffixMatcher(m)
    ensures (MatcherFires(p, rs, a, r, m) <==> MatchesDomain(m, a.domain))
            <==> if AtLabel(m.value, a.domain)
                 then BytesMatch(m.value, a.domain) && !LongerMatches(rs, m.value, a.domain)
                 else BytesMatch(m.value, a.domain) ==> LongerMatches(rs, m.value, a.domain)
  {
    hide MatchSuffix, MatcherFires, AtLabel, BytesMatch, LongerMatches;
    FiresIff(p, rs, a, r, m);
    LabelMatchIff(m.value, a.domain);
  }

  // ---- When the bytes of a pattern at a label match ----

  predicate Trimmed(s: string) {
    TrimSpace(s) == s
  }

  lemma LowerEnds(s: string)
    ensures Dotted(ToLower(s)) <==> Dotted(s)
    ensures Undotted(s) == TrimSuffix(ToLower(s), ".")
    ensures Dotted(s) ==> ToLower(s) == Undotted(s) + "."
  {
    if s != "" {
      var n := |s| - 1;
      assert LowerChar(s[n]) == '.' <==> s[n] == '.';
      assert s[n..] == [s[n]] && ToLower(s)[n..] == [LowerChar(s[n])];
      assert ToLower(s[..n]) == ToLower(s)[..n];
      assert ToLower(s) == ToLower(s)[..n] + [LowerChar(s[n])];
    }
  }

  lemma SameEnd(d: string, s: string)
    ensures HasSuffix(d + ".", s + ".") <==> HasSuffix(d, s)
  {
    var k := |d| - |s|;
    if k >= 0 {
      assert (d + ".")[k..] == d[k..] + ".";
      if HasSuffix(d + ".", s + ".") {
        assert d[k..] == (d[k..] + ".")[..|s|];
        assert (s + ".")[..|s|] == s;
      }
    }
  }

  /** What the index strips of a lower-case pattern. */
  function Stripped(p: string): string {
    if HasPrefix(p, "*.") then p[2..] else if HasPrefix(p, "*") then p[1..] else p
  }

  lemma StrippedOf(p: string)
    ensures HasSuffix(BaseOf(p), Stripped(p))
    ensures Stripped(p + ".") == Stripped(p) + "." || (p == "*" && Stripped(p + ".") == "")
  {
    var q := p + ".";
    if p == "" {
      assert q == "." && q[0] != "*"[0];
      assert Stripped(q) == ".";
    } else if p == "*" {
      assert q == "*." && q[2..] == "";
    } else {
      assert (HasPrefix(q, "*") <==> q[0] == '*') && (HasPrefix(p, "*") <==> p[0] == '*');
      assert q[0] == p[0] && q[1] == if |p| > 1 then p[1] else '.';
      assert HasPrefix(q, "*.") <==> q[0] == '*' && q[1] == '.';
      assert HasPrefix(p, "*.") <==> |p| > 1 && p[0] == '*' && p[1] == '.';
      assert q[1..] == p[1..] + ".";
      assert |p| > 1 ==> q[2..] == p[2..] + ".";
    }
    assert BaseOf(p)[|BaseOf(p)| - |Stripped(p)|..] == Stripped(p);
  }

  lemma DottedIsLast(s: string)
    ensures Dotted(s) <==> s != "" && s[|s| - 1] == '.'
  {
    if s != "" {
      assert s[|s| - 1..] == [s[|s| - 1]];
    }
  }

  /** A non-empty suffix ends as the whole does. */
  lemma SuffixDotted(d: string, s: string)
    requires s != "" && HasSuffix(d, s)
    ensures Dotted(d) <==> Dotted(s)
  {
    DottedIsLast(d);
    DottedIsLast(s);
    assert d[|d| - |s|..][|s| - 1] == s[|s| - 1];
  }

  /** The bytes of a pattern at a label match exactly when something is left of the pattern behind its star and the final
      dots agree: both texts have one, or neither. */
  lemma LabelSeenIff(pattern: string, domain: string)
    requires Trimmed(pattern) && Trimmed(domain) && AtLabel(pattern, domain)
    ensures BytesMatch(pattern, domain) <==> TrimStar(pattern) != "" && (Dotted(pattern) <==> Dotted(domain))
  {
    var lp, ld, s := ToLower(pattern), ToLower(domain), TrimStar(pattern);
    assert Normalize(pattern) == lp && Normalize(domain) == ld && s == Stripped(lp);
    hide ToLower, TrimSuffix, Normalize, TrimStar, AtLabel;
    LowerEnds(pattern);
    LowerEnds(domain);
    if s != "" {
      if HasSuffix(ld, s) {
        SuffixDotted(ld, s);
        StrippedSuffix(lp);
        SuffixDotted(lp, s);
      }
      if Dotted(pattern) <==> Dotted(domain) {
        LabelSeen(pattern, domain);
      }
    }
  }

  lemma StrippedSuffix(p: string)
    ensures HasSuffix(p, Stripped(p))
  {
    assert p[|p| - |Stripped(p)|..] == Stripped(p);
  }

  lemma LabelSeen(pattern: string, domain: string)
    requires AtLabel(pattern, domain) && Stripped(ToLower(pattern)) != "" && (Dotted(pattern) <==> Dotted(domain))
    ensures HasSuffix(ToLower(domain), Stripped(ToLower(pattern)))
  {
    hide ToLower, TrimSuffix;
    var p, d := Undotted(pattern), Undotted(domain);
    LowerEnds(pattern);
    LowerEnds(domain);
    StrippedOf(p);
    SuffixOfSuffix(d, BaseOf(p), Stripped(p));
    if Dotted(pattern) {
      SameEnd(d, Stripped(p));
    } else {
      UndottedSame(ToLower(pattern));
      UndottedSame(ToLower(domain));
    }
  }

  lemma UndottedSame(s: string)
    requires !Dotted(s)
    ensures TrimSuffix(s, ".") == s
  {
  }

  // ---- Instances ----

  /** The index blocks notgithub.com under a pattern for github.com; the matcher does not. */
  lemma InsideALabel()
    ensures BytesMatch("github.com", "notgithub.com") && !MatchSuffix("github.com", "notgithub.com")
  {
    var p, d := "github.com", "notgithub.com";
    PlainText(p);
    PlainText(d);
    assert d[3..] == p;
    LabelMatchIff(p, d);
    assert d[2] == 't';
  }

  /** The index lets *.pages.dev reach pages.dev itself; the matcher does not. */
  lemma StarReachesBase()
    ensures BytesMatch("*.pages.dev", "pages.dev") && !MatchSuffix("*.pages.dev", "pages.dev")
  {
    var p, d := "*.pages.dev", "pages.dev";
    PlainText(p);
    PlainText(d);
    assert p[2..] == d && d[0..] == d;
    LabelMatchIff(p, d);
  }

  /** The matcher covers github.com with a final dot, as a compressed name can end; the index does not. */
  lemma FinalDotMissed()
    ensures MatchSuffix("github.com", "github.com.") && !BytesMatch("github.com", "github.com.")
  {
    var p, d := "github.com", "github.com.";
    PlainText(p);
    PlainText(d);
    assert TrimSuffix(d, ".") == p && TrimSuffix(p, ".") == p;
    SuffixDottedMismatch(d, p);
  }

  lemma SuffixDottedMismatch(d: string, s: string)
    requires s != "" && Dotted(d) && !Dotted(s)
    ensures !HasSuffix(d, s)
  {
    if HasSuffix(d, s) {
      SuffixDotted(d, s);
    }
  }

  lemma PlainText(s: string)
    requires s != "" && !IsSpace(s[0]) && !IsSpace(s[|s| - 1])
    requires forall i :: 0 <= i < |s| ==> !('A' <= s[i] <= 'Z')
    ensures Normalize(s) == s && ToLower(s) == s
  {
    assert ToLower(s) == s;
  }
}
