// The string operations the rule code uses, on ASCII text.
module Text {

  predicate IsSpace(c: char) {
    c == ' ' || c == '\t' || c == '\n' || c == '\r' || c == 11 as char || c == 12 as char
  }

  function LowerChar(c: char): char {
    if 'A' <= c <= 'Z' then (c as int + 32) as char else c
  }

  function UpperChar(c: char): char {
    if 'a' <= c <= 'z' then (c as int - 32) as char else c
  }

  function ToLower(s: string): (t: string)
    ensures |t| == |s|
  {
    seq(|s|, i requires 0 <= i < |s| => LowerChar(s[i]))
  }

  function ToUpper(s: string): (t: string)
    ensures |t| == |s|
  {
    seq(|s|, i requires 0 <= i < |s| => UpperChar(s[i]))
  }

  predicate EqualFold(s: string, t: string) {
    ToLower(s) == ToLower(t)
  }

  function TrimLeft(s: string): string {
    if s != "" && IsSpace(s[0]) then TrimLeft(s[1..]) else s
  }

  function TrimRight(s: string): string {
    if s != "" && IsSpace(s[|s| - 1]) then TrimRight(s[..|s| - 1]) else s
  }

  function TrimSpace(s: string): string {
    TrimRight(TrimLeft(s))
  }

  predicate HasPrefix(s: string, p: string) {
    p <= s
  }

  predicate HasSuffix(s: string, p: string) {
    |p| <= |s| && s[|s| - |p|..] == p
  }

  function TrimSuffix(s: string, p: string): string {
    if HasSuffix(s, p) then s[..|s| - |p|] else s
  }

  /** Lexicographic order on strings, as the language compares them. */
  predicate Less(s: string, t: string) {
    if t == "" then false
    else if s == "" then true
    else if s[0] != t[0] then s[0] < t[0]
    else Less(s[1..], t[1..])
  }

  lemma {:induction false} LessTotal(s: string, t: string)
    ensures Less(s, t) || Less(t, s) || s == t
    ensures !(Less(s, t) && Less(t, s))
    ensures !Less(s, s)
  {
    if s != "" && t != "" && s[0] == t[0] {
      LessTotal(s[1..], t[1..]);
      assert s == [s[0]] + s[1..] && t == [t[0]] + t[1..];
    }
    if s != "" {
      LessTotal(s[1..], s[1..]);
    }
  }

  lemma {:induction false} LessTransitive(s: string, t: string, u: string)
    requires Less(s, t) && Less(t, u)
    ensures Less(s, u)
  {
    if s != "" && s[0] == t[0] && t[0] == u[0] {
      LessTransitive(s[1..], t[1..], u[1..]);
    }
  }

  // ---- What the operations mean ----

  /** ASCII white space: the characters 9 to 13 and the blank. */
  lemma SpaceCodes(c: char)
    ensures IsSpace(c) <==> 9 <= c as int <= 13 || c as int == 32
  {
  }

  /** The same character, or the two cases of one letter. */
  predicate SameLetter(c: char, d: char) {
    || c == d
    || ('A' <= c <= 'Z' && d as int - c as int == 32)
    || ('A' <= d <= 'Z' && c as int - d as int == 32)
  }

  /** Texts that are equal up to letter case have the same letters, place for place. */
  lemma FoldExact(s: string, t: string)
    ensures EqualFold(s, t) <==> |s| == |t| && forall i :: 0 <= i < |s| ==> SameLetter(s[i], t[i])
  {
    if |s| == |t| {
      assert forall i :: 0 <= i < |s| ==> (ToLower(s)[i] == ToLower(t)[i] <==> SameLetter(s[i], t[i]));
    }
  }

  /** Lower and upper case keep the letters and leave none of the other case. */
  lemma CaseExact(s: string)
    ensures forall i :: 0 <= i < |s| ==> SameLetter(ToLower(s)[i], s[i]) && !('A' <= ToLower(s)[i] <= 'Z')
    ensures forall i :: 0 <= i < |s| ==> SameLetter(ToUpper(s)[i], s[i]) && !('a' <= ToUpper(s)[i] <= 'z')
  {
  }

  predicate AllSpace(s: string) {
    forall i :: 0 <= i < |s| ==> IsSpace(s[i])
  }

  lemma {:induction false} TrimLeftExact(s: string)
    ensures var t := TrimLeft(s);
            |t| <= |s| && s[|s| - |t|..] == t && AllSpace(s[..|s| - |t|]) && (t != "" ==> !IsSpace(t[0]))
  {
    if s != "" && IsSpace(s[0]) {
      TrimLeftExact(s[1..]);
      var t := TrimLeft(s);
      assert s[1..][|s| - 1 - |t|..] == s[|s| - |t|..];
      assert s[..|s| - |t|] == [s[0]] + s[1..][..|s| - 1 - |t|];
    }
  }

  lemma {:induction false} TrimRightExact(s: string)
    ensures var t := TrimRight(s);
            |t| <= |s| && s[..|t|] == t && AllSpace(s[|t|..]) && (t != "" ==> !IsSpace(t[|t| - 1]))
  {
    if s != "" && IsSpace(s[|s| - 1]) {
      var n := |s| - 1;
      TrimRightExact(s[..n]);
      var t := TrimRight(s);
      assert s[..n][..|t|] == s[..|t|];
      assert s[|t|..] == s[..n][|t|..] + [s[n]];
    }
  }

  /** Trimming cuts white space off both ends, and all of it. */
  lemma TrimExact(s: string) returns (from: nat, to: nat)
    ensures from <= to <= |s| && TrimSpace(s) == s[from..to]
    ensures AllSpace(s[..from]) && AllSpace(s[to..])
    ensures from < to ==> !IsSpace(s[from]) && !IsSpace(s[to - 1])
  {
    hide IsSpace;
    TrimLeftExact(s);
    var u := TrimLeft(s);
    TrimRightExact(u);
    from := |s| - |u|;
    to := from + |TrimRight(u)|;
    assert s[from..] == u;
    assert s[to..] == u[|TrimRight(u)|..];
    assert s[from..to] == u[..to - from];
  }

  /** Something is left of a text exactly when it holds more than white space. */
  lemma TrimLeaves(s: string)
    ensures TrimSpace(s) != "" <==> exists i :: 0 <= i < |s| && !IsSpace(s[i])
  {
    hide IsSpace;
    var from, to := TrimExact(s);
    if i :| 0 <= i < |s| && !IsSpace(s[i]) {
      assert i < from ==> s[..from][i] == s[i];
      assert i >= to ==> s[to..][i - to] == s[i];
    }
  }

  /** A suffix is what is left behind some beginning, and cutting it off leaves that beginning. */
  lemma SuffixExact(s: string, p: string)
    ensures HasSuffix(s, p) <==> exists q: string :: s == q + p
    ensures forall q: string :: s == q + p ==> TrimSuffix(s, p) == q
    ensures !HasSuffix(s, p) ==> TrimSuffix(s, p) == s
  {
    if HasSuffix(s, p) {
      assert s == s[..|s| - |p|] + p;
    }
    forall q: string | s == q + p
      ensures HasSuffix(s, p) && TrimSuffix(s, p) == q
    {
      assert s[|s| - |p|..] == p && s[..|s| - |p|] == q;
    }
  }

  /** One text comes before another when it is a proper prefix, or smaller at the first place where they differ. */
  lemma {:induction false} LessExact(s: string, t: string)
    ensures Less(s, t) <==> exists k :: 0 <= k <= |s| && k <= |t| && s[..k] == t[..k]
                                        && if k == |s| then k < |t| else k < |t| && s[k] < t[k]
  {
    assert s[..0] == t[..0];
    forall k | 0 < k <= |s| && k <= |t| && s[..k] == t[..k]
      ensures s[0] == t[0]
    {
      assert s[..k][0] == s[0] && t[..k][0] == t[0];
    }
    if s != "" && t != "" && s[0] == t[0] {
      LessExact(s[1..], t[1..]);
      if k :| 0 <= k <= |s| && k <= |t| && s[..k] == t[..k] && if k == |s| then k < |t| else k < |t| && s[k] < t[k] {
        assert k > 0 && s[1..][..k - 1] == s[..k][1..] && t[1..][..k - 1] == t[..k][1..];
      }
      if k :| 0 <= k <= |s[1..]| && k <= |t[1..]| && s[1..][..k] == t[1..][..k]
              && if k == |s[1..]| then k < |t[1..]| else k < |t[1..]| && s[1..][k] < t[1..][k] {
        assert s[..k + 1] == [s[0]] + s[1..][..k] && t[..k + 1] == [t[0]] + t[1..][..k];
      }
    }
  }
}
